/** A stable sort on a numeric rank, as pandas' `sort_values` on several
    columns is: sorted, a permutation of its input, and equal-ranked
    elements in their input order. */
module StableSort {

  predicate SortedBy<T>(s: seq<T>, rank: T -> nat) {
    forall i, j :: 0 <= i < j < |s| ==> rank(s[i]) <= rank(s[j])
  }

  /** `x` placed after every element whose rank is not greater. */
  function InsertBy<T>(x: T, s: seq<T>, rank: T -> nat): (r: seq<T>)
    requires SortedBy(s, rank)
    ensures SortedBy(r, rank)
    ensures multiset(r) == multiset(s) + multiset{x}
  {
    if s == [] then [x]
    else if rank(x) < rank(s[0]) then [x] + s
    else
      var rest := InsertBy(x, s[1..], rank);
      InsertStep(x, s, rest, rank);
      [s[0]] + rest
  }

  /** Putting the head of `s` in front of `x` inserted into the rest keeps
      the order and the elements. */
  lemma InsertStep<T>(x: T, s: seq<T>, rest: seq<T>, rank: T -> nat)
    requires s != [] && SortedBy(s, rank) && rank(s[0]) <= rank(x)
    requires SortedBy(rest, rank) && multiset(rest) == multiset(s[1..]) + multiset{x}
    ensures SortedBy([s[0]] + rest, rank)
    ensures multiset([s[0]] + rest) == multiset(s) + multiset{x}
  {
    assert s == [s[0]] + s[1..];
    forall j | 0 <= j < |rest|
      ensures rank(s[0]) <= rank(rest[j])
    {
      assert rest[j] in multiset(rest);
      if rest[j] != x {
        var i :| 0 <= i < |s[1..]| && s[1..][i] == rest[j];
        assert s[i + 1] == rest[j];
      }
    }
  }

  /** Insertion sort, taking the elements from the front. */
  function SortBy<T>(s: seq<T>, rank: T -> nat): (r: seq<T>)
    ensures SortedBy(r, rank)
    ensures multiset(r) == multiset(s)
  {
    if s == [] then []
    else
      assert s == s[..|s| - 1] + [s[|s| - 1]];
      InsertBy(s[|s| - 1], SortBy(s[..|s| - 1], rank), rank)
  }

  /** The elements of `s` whose rank is `k`, in order. */
  function WithRank<T>(s: seq<T>, rank: T -> nat, k: nat): seq<T> {
    if s == [] then []
    else (if rank(s[0]) == k then [s[0]] else []) + WithRank(s[1..], rank, k)
  }

  lemma {:induction false} WithRankSnoc<T>(s: seq<T>, x: T, rank: T -> nat, k: nat)
    ensures WithRank(s + [x], rank, k) == WithRank(s, rank, k) + (if rank(x) == k then [x] else [])
    decreases |s|
  {
    if s == [] {
      assert [x][1..] == [];
    } else {
      var head: seq<T> := if rank(s[0]) == k then [s[0]] else [];
      var tail: seq<T> := if rank(x) == k then [x] else [];
      assert (s + [x])[0] == s[0];
      assert (s + [x])[1..] == s[1..] + [x];
      assert WithRank(s + [x], rank, k) == head + WithRank(s[1..] + [x], rank, k);
      WithRankSnoc(s[1..], x, rank, k);
      assert WithRank(s, rank, k) == head + WithRank(s[1..], rank, k);
      assert head + (WithRank(s[1..], rank, k) + tail) == (head + WithRank(s[1..], rank, k)) + tail;
    }
  }

  lemma {:induction false} WithRankAbove<T>(s: seq<T>, rank: T -> nat, k: nat)
    requires forall i :: 0 <= i < |s| ==> k < rank(s[i])
    ensures WithRank(s, rank, k) == []
    decreases |s|
  {
    if s != [] {
      WithRankAbove(s[1..], rank, k);
    }
  }

  lemma {:induction false} WithRankInsert<T>(x: T, s: seq<T>, rank: T -> nat, k: nat)
    requires SortedBy(s, rank)
    ensures WithRank(InsertBy(x, s, rank), rank, k) == WithRank(s, rank, k) + (if rank(x) == k then [x] else [])
    decreases |s|
  {
    if s == [] {
      assert [x][..0] == [];
    } else if rank(x) < rank(s[0]) {
      WithRankInsertFront(x, s, rank, k);
    } else {
      SortedTail(s, rank);
      var ins := InsertBy(x, s[1..], rank);
      WithRankInsert(x, s[1..], rank, k);
      assert InsertBy(x, s, rank) == [s[0]] + ins;
      WithRankBehindHead(x, s, ins, rank, k);
    }
  }

  /** Keeping the head in front of a sequence with `x` inserted behind it. */
  lemma WithRankBehindHead<T>(x: T, s: seq<T>, ins: seq<T>, rank: T -> nat, k: nat)
    requires s != []
    requires WithRank(ins, rank, k) == WithRank(s[1..], rank, k) + (if rank(x) == k then [x] else [])
    ensures WithRank([s[0]] + ins, rank, k) == WithRank(s, rank, k) + (if rank(x) == k then [x] else [])
  {
    var head: seq<T> := if rank(s[0]) == k then [s[0]] else [];
    var tail: seq<T> := if rank(x) == k then [x] else [];
    WithRankCons(s[0], ins, rank, k);
    assert WithRank(s, rank, k) == head + WithRank(s[1..], rank, k);
    assert head + (WithRank(s[1..], rank, k) + tail) == (head + WithRank(s[1..], rank, k)) + tail;
  }

  lemma WithRankInsertFront<T>(x: T, s: seq<T>, rank: T -> nat, k: nat)
    requires s != [] && SortedBy(s, rank) && rank(x) < rank(s[0])
    ensures WithRank(InsertBy(x, s, rank), rank, k) == WithRank(s, rank, k) + (if rank(x) == k then [x] else [])
  {
    assert InsertBy(x, s, rank) == [x] + s;
    assert ([x] + s)[1..] == s;
    if rank(x) == k {
      assert forall i :: 0 <= i < |s| ==> rank(s[0]) <= rank(s[i]);
      WithRankAbove(s, rank, k);
    }
  }

  lemma WithRankCons<T>(h: T, t: seq<T>, rank: T -> nat, k: nat)
    ensures WithRank([h] + t, rank, k) == (if rank(h) == k then [h] else []) + WithRank(t, rank, k)
  {
    assert ([h] + t)[1..] == t;
  }

  lemma SortedTail<T>(s: seq<T>, rank: T -> nat)
    requires s != [] && SortedBy(s, rank)
    ensures SortedBy(s[1..], rank)
  {
    forall i, j | 0 <= i < j < |s| - 1
      ensures rank(s[1..][i]) <= rank(s[1..][j])
    {
      assert s[1..][i] == s[i + 1] && s[1..][j] == s[j + 1];
    }
  }

  /** The sort is stable: the elements of any one rank keep their order. */
  lemma {:induction false} SortByStable<T>(s: seq<T>, rank: T -> nat, k: nat)
    ensures WithRank(SortBy(s, rank), rank, k) == WithRank(s, rank, k)
    decreases |s|
  {
    if s != [] {
      var p, x := s[..|s| - 1], s[|s| - 1];
      assert p + [x] == s;
      var tail := if rank(x) == k then [x] else [];
      calc {
        WithRank(SortBy(s, rank), rank, k);
        WithRank(InsertBy(x, SortBy(p, rank), rank), rank, k);
        { WithRankInsert(x, SortBy(p, rank), rank, k); }
        WithRank(SortBy(p, rank), rank, k) + tail;
        { SortByStable(p, rank, k); }
        WithRank(p, rank, k) + tail;
        { WithRankSnoc(p, x, rank, k); }
        WithRank(s, rank, k);
      }
    }
  }
}
