/** Keeping the first element per key, as both the KIND listing (one record
    per acptno) and the news search (one article per normalised title) do,
    and pandas' `unique()` does for the keywords of a news frame. */
module Dedup {

  /** Some element of `s` has key `k`. */
  predicate HasKey<T, K(==)>(s: seq<T>, k: K, key: T -> K) {
    exists i :: 0 <= i < |s| && key(s[i]) == k
  }

  /** `s[i]` is the first element of `s` with its key. */
  predicate IsFirst<T, K(==)>(s: seq<T>, i: int, key: T -> K)
    requires 0 <= i < |s|
  {
    forall j :: 0 <= j < i ==> key(s[j]) != key(s[i])
  }

  predicate UniqueKeys<T, K(==)>(s: seq<T>, key: T -> K) {
    forall i, j :: 0 <= i < j < |s| ==> key(s[i]) != key(s[j])
  }

  /** `r` is `s` with some elements left out and the rest in their order. */
  predicate IsSubsequence<T(==)>(r: seq<T>, s: seq<T>)
    decreases |s|
  {
    if r == [] then true
    else if s == [] then false
    else (r[|r| - 1] == s[|s| - 1] && IsSubsequence(r[..|r| - 1], s[..|s| - 1]))
         || IsSubsequence(r, s[..|s| - 1])
  }

  /** The elements of `s` whose key did not occur earlier, in their order. */
  function FirstByKey<T, K(==)>(s: seq<T>, key: T -> K): (r: seq<T>)
    ensures |r| <= |s|
    ensures UniqueKeys(r, key)
    ensures forall x :: x in r ==> x in s
    ensures forall i :: 0 <= i < |s| ==> HasKey(r, key(s[i]), key)
  {
    if s == [] then []
    else
      var p := FirstByKey(s[..|s| - 1], key);
      var last := s[|s| - 1];
      assert forall i :: 0 <= i < |s| - 1 ==> s[..|s| - 1][i] == s[i];
      if HasKey(p, key(last), key) then p
      else
        var r := p + [last];
        assert forall i :: 0 <= i < |p| ==> r[i] == p[i] && key(r[i]) != key(last);
        assert r[|p|] == last;
        assert forall i :: 0 <= i < |s| - 1 ==> HasKey(p, key(s[i]), key) ==> HasKey(r, key(s[i]), key);
        assert HasKey(r, key(last), key);
        r
  }

  lemma {:induction false} FirstByKeyIsSubsequence<T, K>(s: seq<T>, key: T -> K)
    ensures IsSubsequence(FirstByKey(s, key), s)
    decreases |s|
  {
    if s != [] {
      var p := FirstByKey(s[..|s| - 1], key);
      FirstByKeyIsSubsequence(s[..|s| - 1], key);
      if !HasKey(p, key(s[|s| - 1]), key) {
        var r := p + [s[|s| - 1]];
        assert r[..|r| - 1] == p;
      } else {
        SubsequenceOfPrefix(p, s);
      }
    }
  }

  lemma SubsequenceOfPrefix<T>(r: seq<T>, s: seq<T>)
    requires s != [] && IsSubsequence(r, s[..|s| - 1])
    ensures IsSubsequence(r, s)
  {
  }

  /** Every element kept is the first of its key: the first occurrence wins. */
  lemma {:induction false} FirstByKeyKeepsFirst<T, K>(s: seq<T>, key: T -> K, k: int)
    requires 0 <= k < |FirstByKey(s, key)|
    ensures exists i :: 0 <= i < |s| && IsFirst(s, i, key) && FirstByKey(s, key)[k] == s[i]
    decreases |s|
  {
    var s' := s[..|s| - 1];
    var p := FirstByKey(s', key);
    var last := s[|s| - 1];
    if k < |p| {
      FirstByKeyKeepsFirst(s', key, k);
      var i :| 0 <= i < |s'| && IsFirst(s', i, key) && p[k] == s'[i];
      assert FirstByKey(s, key)[k] == p[k];
      assert IsFirst(s, i, key);
    } else {
      assert !HasKey(p, key(last), key);
      assert FirstByKey(s, key)[k] == last;
      forall j | 0 <= j < |s| - 1
        ensures key(s[j]) != key(last)
      {
        assert s[j] == s'[j];
      }
      assert IsFirst(s, |s| - 1, key);
    }
  }

  /** Keeping the first per key leaves a sequence with unique keys unchanged. */
  lemma {:induction false} FirstByKeyOfUnique<T, K>(s: seq<T>, key: T -> K)
    requires UniqueKeys(s, key)
    ensures FirstByKey(s, key) == s
    decreases |s|
  {
    if s != [] {
      var s' := s[..|s| - 1];
      FirstByKeyOfUnique(s', key);
      assert !HasKey(s', key(s[|s| - 1]), key) by {
        forall i | 0 <= i < |s'|
          ensures key(s'[i]) != key(s[|s| - 1])
        {
          assert s'[i] == s[i];
        }
      }
      assert s' + [s[|s| - 1]] == s;
    }
  }

  /** Appending one element extends the first-per-key result only when its
      key is new: the step of a loop that checks each candidate against what
      it has kept so far. */
  lemma FirstByKeySnoc<T, K>(s: seq<T>, x: T, key: T -> K)
    ensures FirstByKey(s + [x], key)
      == if HasKey(FirstByKey(s, key), key(x), key) then FirstByKey(s, key) else FirstByKey(s, key) + [x]
  {
    assert (s + [x])[..|s|] == s;
  }
}
