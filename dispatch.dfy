/** The preliminary-earnings run of `main`: the sent log (a set of receipt
    numbers kept between runs), the `only_new` filter, the collection of one
    message per disclosure whose table normalises, and the send loop that
    logs a receipt number only after a delivery. The log file is modelled as
    the set it holds; documents, message delivery and the clock are
    parameters. */
module Dispatch {
  import opened Strings
  import opened Optional
  import opened Clock
  import opened Listing
  import opened Prelim

  /** The set the sent-log file holds. */
  class SentLog {
    var ids: set<string>

    /** load_sent_log: the stored set, or the empty set when there is no
        file or it cannot be read. */
    constructor (stored: Option<set<string>>)
      ensures ids == if stored.Some? then stored.value else {}
    {
      ids := if stored.Some? then stored.value else {};
    }

    /** add_to_sent_log. */
    method Add(acptno: string)
      modifies this
      ensures ids == old(ids) + {acptno}
    {
      ids := ids + {acptno};
    }

    /** clear_old_sent_log: keep the receipt numbers of today. */
    method ClearOld(now: Timestamp)
      requires ValidStamp(now)
      modifies this
      ensures ids == TodaysIds(old(ids), Date8(now))
    {
      ids := set a | a in ids && StartsWith(a, Date8(now));
    }
  }

  /** The receipt numbers that start with `today`. */
  function TodaysIds(ids: set<string>, today: string): (r: set<string>)
    ensures r <= ids
    ensures forall a :: a in r ==> StartsWith(a, today)
    ensures forall a :: a in ids && StartsWith(a, today) ==> a in r
  {
    set a | a in ids && StartsWith(a, today)
  }

  /** A receipt number logged today survives the purge; one whose first
      eight characters name another day does not. */
  lemma PurgeKeepsToday(ids: set<string>, acptno: string, now: Timestamp)
    requires ValidStamp(now)
    ensures acptno in TodaysIds(ids + {acptno}, Date8(now)) <==> StartsWith(acptno, Date8(now))
  {
  }

  /** Purging twice on the same day is purging once. */
  lemma PurgeIdempotent(ids: set<string>, today: string)
    ensures TodaysIds(TodaysIds(ids, today), today) == TodaysIds(ids, today)
  {
  }

  /** `df[~df['acptno'].isin(sent_log)]`: the disclosures not yet sent, in
      listing order. */
  function FilterNew(ds: seq<Disclosure>, sent: set<string>): (r: seq<Disclosure>)
    ensures |r| <= |ds|
    ensures forall x :: x in r <==> x in ds && x.acptno !in sent
  {
    if ds == [] then []
    else
      var last := ds[|ds| - 1];
      FilterNew(ds[..|ds| - 1], sent) + (if last.acptno in sent then [] else [last])
  }

  /** Filtering keeps the listing order. */
  lemma {:induction false} FilterNewIsSubsequence(ds: seq<Disclosure>, sent: set<string>)
    ensures Dedup.IsSubsequence(FilterNew(ds, sent), ds)
    decreases |ds|
  {
    if ds != [] {
      var p := FilterNew(ds[..|ds| - 1], sent);
      FilterNewIsSubsequence(ds[..|ds| - 1], sent);
      if ds[|ds| - 1].acptno in sent {
        assert p + [] == p;
        Dedup.SubsequenceOfPrefix(p, ds);
      } else {
        assert (p + [ds[|ds| - 1]])[..|p|] == p;
      }
    }
  }

  /** Nothing already sent passes the filter, and with nothing sent it lets
      everything through. */
  lemma {:induction false} FilterNewOfNothing(ds: seq<Disclosure>)
    ensures FilterNew(ds, {}) == ds
    decreases |ds|
  {
    if ds != [] {
      FilterNewOfNothing(ds[..|ds| - 1]);
      assert ds[..|ds| - 1] + [ds[|ds| - 1]] == ds;
    }
  }

  /** A prepared message: the receipt number and the records it reports.
      The message text itself (number formatting) is not modelled. */
  datatype Outgoing = Outgoing(acptno: string, records: seq<LongRecord>)

  function ContextOf(d: Disclosure, date: string): Context {
    Context(d.corpName, d.stockCode, d.acptno, date)
  }

  /** The message `main` prepares for one disclosure: none when its
      document cannot be fetched, when no table scores, or when the best
      table normalises to no record; otherwise the normalised records of
      the best table. */
  function MessageOf(d: Disclosure, date: string, documents: string -> Option<seq<Table>>): Option<Outgoing> {
    match documents(d.acptno)
    case None => None
    case Some(ts) =>
      var k := BestTable(ts);
      if k < 0 then None
      else
        var long := NormalizeRows(ts[k].rows, ContextOf(d, date));
        if long == [] then None else Some(Outgoing(d.acptno, long))
  }

  /** A disclosure gets a message exactly when its document is read, some
      table of it scores, and the best table has a normalised record; the
      message carries the disclosure's receipt number and those records. */
  lemma MessageOfMeaning(d: Disclosure, date: string, documents: string -> Option<seq<Table>>)
    ensures MessageOf(d, date, documents).Some? <==>
      && documents(d.acptno).Some?
      && AnyScores(documents(d.acptno).value)
      && exists k :: IsBestAt(documents(d.acptno).value, k)
                     && NormalizeRows(documents(d.acptno).value[k].rows, ContextOf(d, date)) != []
    ensures MessageOf(d, date, documents).Some? ==>
      && MessageOf(d, date, documents).value.acptno == d.acptno
      && exists k :: IsBestAt(documents(d.acptno).value, k)
                     && MessageOf(d, date, documents).value.records
                        == NormalizeRows(documents(d.acptno).value[k].rows, ContextOf(d, date))
  {
    if documents(d.acptno).Some? {
      var ts := documents(d.acptno).value;
      BestTableMeaning(ts);
      forall k | IsBestAt(ts, k)
        ensures k == BestTable(ts)
      {
        BestIsUnique(ts, k, BestTable(ts));
      }
    }
  }

  /** The messages of `main`'s document loop, in listing order. */
  function MessagesOf(ds: seq<Disclosure>, date: string, documents: string -> Option<seq<Table>>): seq<Outgoing> {
    if ds == [] then []
    else
      var m := MessageOf(ds[|ds| - 1], date, documents);
      MessagesOf(ds[..|ds| - 1], date, documents) + (if m.Some? then [m.value] else [])
  }

  /** Every message of the filtered listing carries a receipt number that
      was not yet sent. */
  lemma MessagesSkipSent(listing: seq<Disclosure>, sent: set<string>, date: string,
                         documents: string -> Option<seq<Table>>)
    ensures forall m :: m in MessagesOf(FilterNew(listing, sent), date, documents) ==> m.acptno !in sent
  {
    var ds := FilterNew(listing, sent);
    MessagesOfMembers(ds, date, documents);
    forall m | m in MessagesOf(ds, date, documents)
      ensures m.acptno !in sent
    {
      var i :| 0 <= i < |ds| && MessageOf(ds[i], date, documents) == Some(m);
      assert ds[i] in ds;
    }
  }

  /** The loop over two runs of disclosures is the loop over the first run
      followed by the loop over the second. */
  lemma {:induction false} MessagesOfAppend(a: seq<Disclosure>, b: seq<Disclosure>, date: string,
                                            documents: string -> Option<seq<Table>>)
    ensures MessagesOf(a + b, date, documents) == MessagesOf(a, date, documents) + MessagesOf(b, date, documents)
    decreases |b|
  {
    if b == [] {
      assert a + b == a;
    } else {
      var p := b[..|b| - 1];
      MessagesOfAppend(a, p, date, documents);
      assert (a + b)[..|a + b| - 1] == a + p;
      assert (a + b)[|a + b| - 1] == b[|b| - 1];
    }
  }

  /** Every message comes from a disclosure of the listing, and every
      disclosure with a message contributes it. */
  lemma {:induction false} MessagesOfMembers(ds: seq<Disclosure>, date: string, documents: string -> Option<seq<Table>>)
    ensures forall m :: m in MessagesOf(ds, date, documents) <==>
      exists i :: 0 <= i < |ds| && MessageOf(ds[i], date, documents) == Some(m)
    decreases |ds|
  {
    if ds != [] {
      var p := ds[..|ds| - 1];
      MessagesOfMembers(p, date, documents);
      MessagesFromListing(ds, p, date, documents);
      MessagesCoverListing(ds, p, date, documents);
    }
  }

  /** One step of MessagesOfMembers: a message of the listing comes from
      one of its disclosures. */
  lemma MessagesFromListing(ds: seq<Disclosure>, p: seq<Disclosure>, date: string, documents: string -> Option<seq<Table>>)
    requires ds != [] && p == ds[..|ds| - 1]
    requires forall m :: m in MessagesOf(p, date, documents) ==>
      exists i :: 0 <= i < |p| && MessageOf(p[i], date, documents) == Some(m)
    ensures forall m :: m in MessagesOf(ds, date, documents) ==>
      exists i :: 0 <= i < |ds| && MessageOf(ds[i], date, documents) == Some(m)
  {
    var last := MessageOf(ds[|ds| - 1], date, documents);
    var tail := if last.Some? then [last.value] else [];
    assert MessagesOf(ds, date, documents) == MessagesOf(p, date, documents) + tail;
    forall m | m in MessagesOf(ds, date, documents)
      ensures exists i :: 0 <= i < |ds| && MessageOf(ds[i], date, documents) == Some(m)
    {
      if m in MessagesOf(p, date, documents) {
        MessageFromPrefix(ds, p, m, date, documents);
      } else {
        assert last == Some(m);
      }
    }
  }

  /** A message of a disclosure of the shorter listing is one of a
      disclosure of the whole listing. */
  lemma MessageFromPrefix(ds: seq<Disclosure>, p: seq<Disclosure>, m: Outgoing, date: string,
                          documents: string -> Option<seq<Table>>)
    requires ds != [] && p == ds[..|ds| - 1]
    requires exists i :: 0 <= i < |p| && MessageOf(p[i], date, documents) == Some(m)
    ensures exists i :: 0 <= i < |ds| && MessageOf(ds[i], date, documents) == Some(m)
  {
    var i :| 0 <= i < |p| && MessageOf(p[i], date, documents) == Some(m);
    DropLastAt(ds, p);
    assert MessageOf(ds[i], date, documents) == Some(m);
  }

  /** The listing without its last disclosure agrees with it index by index. */
  lemma DropLastAt(ds: seq<Disclosure>, p: seq<Disclosure>)
    requires ds != [] && p == ds[..|ds| - 1]
    ensures |p| == |ds| - 1 && forall j :: 0 <= j < |p| ==> p[j] == ds[j]
  {
  }

  /** The other step of MessagesOfMembers: a disclosure's message is among
      the messages of the listing. */
  lemma MessagesCoverListing(ds: seq<Disclosure>, p: seq<Disclosure>, date: string, documents: string -> Option<seq<Table>>)
    requires ds != [] && p == ds[..|ds| - 1]
    requires forall m, i :: 0 <= i < |p| && MessageOf(p[i], date, documents) == Some(m) ==>
      m in MessagesOf(p, date, documents)
    ensures forall m, i :: 0 <= i < |ds| && MessageOf(ds[i], date, documents) == Some(m) ==>
      m in MessagesOf(ds, date, documents)
  {
    var last := MessageOf(ds[|ds| - 1], date, documents);
    var tail := if last.Some? then [last.value] else [];
    assert MessagesOf(ds, date, documents) == MessagesOf(p, date, documents) + tail;
    forall m, i | 0 <= i < |ds| && MessageOf(ds[i], date, documents) == Some(m)
      ensures m in MessagesOf(ds, date, documents)
    {
      if i < |p| {
        assert p[i] == ds[i];
        assert m in MessagesOf(p, date, documents);
      } else {
        assert i == |ds| - 1;
        assert tail == [m];
      }
    }
  }

  /** The document loop of `main`: each disclosure whose document gives a
      scoring table with at least one normalised record yields a message,
      in listing order. `documents` gives the tables of a receipt number's
      document, or None when the document cannot be fetched or parsed. */
  method Collect(ds: seq<Disclosure>, date: string, documents: string -> Option<seq<Table>>)
    returns (outbox: seq<Outgoing>)
    ensures outbox == MessagesOf(ds, date, documents)
  {
    outbox := [];
    for i := 0 to |ds|
      invariant outbox == MessagesOf(ds[..i], date, documents)
    {
      var message := Process(ds[i], date, documents);
      assert ds[..i + 1][..i] == ds[..i];
      if message.Some? {
        outbox := outbox + [message.value];
      }
    }
    assert ds[..|ds|] == ds;
  }

  /** One disclosure of the loop: its message, or nothing when its document
      could not be fetched, has no earnings table, or yields no records. */
  method Process(d: Disclosure, date: string, documents: string -> Option<seq<Table>>)
    returns (message: Option<Outgoing>)
    ensures message == MessageOf(d, date, documents)
  {
    var tables := documents(d.acptno);
    if tables.None? {
      return None;
    }
    var raw := ExtractEarningsTable(tables);
    BestTableMeaning(tables.value);
    if raw.None? || IsEmptyTable(raw.value) {
      return None;
    }
    ghost var k :| IsBestAt(tables.value, k) && raw.value == tables.value[k];
    BestIsUnique(tables.value, k, BestTable(tables.value));
    var long, wide := NormalizeEarningsTable(raw, ContextOf(d, date));
    if long == [] {
      return None;
    }
    return Some(Outgoing(d.acptno, long));
  }

  /** The receipt numbers of the messages whose send succeeded; the k-th
      send's outcome is `delivered(k)`. */
  function DeliveredIds(outbox: seq<Outgoing>, delivered: nat -> bool): (r: set<string>)
    ensures forall a :: a in r <==> exists k :: 0 <= k < |outbox| && delivered(k) && outbox[k].acptno == a
  {
    set k | 0 <= k < |outbox| && delivered(k) :: outbox[k].acptno
  }

  /** How many of the sends succeeded. */
  function DeliveredCount(outbox: seq<Outgoing>, delivered: nat -> bool): (n: nat)
    ensures n <= |outbox|
  {
    if outbox == [] then 0
    else DeliveredCount(outbox[..|outbox| - 1], delivered) + (if delivered(|outbox| - 1) then 1 else 0)
  }

  /** When every send succeeds, every message is counted. */
  lemma {:induction false} AllDelivered(outbox: seq<Outgoing>, delivered: nat -> bool)
    requires forall k :: 0 <= k < |outbox| ==> delivered(k)
    ensures DeliveredCount(outbox, delivered) == |outbox|
    decreases |outbox|
  {
    if outbox != [] {
      AllDelivered(outbox[..|outbox| - 1], delivered);
    }
  }

  /** When no send succeeds, nothing is counted or logged. */
  lemma {:induction false} NoneDelivered(outbox: seq<Outgoing>, delivered: nat -> bool)
    requires forall k :: 0 <= k < |outbox| ==> !delivered(k)
    ensures DeliveredCount(outbox, delivered) == 0 && DeliveredIds(outbox, delivered) == {}
    decreases |outbox|
  {
    if outbox != [] {
      NoneDelivered(outbox[..|outbox| - 1], delivered);
    }
  }

  /** The send loop: a receipt number is logged, and counted, only after
      its message was delivered. */
  method SendAll(log: SentLog, outbox: seq<Outgoing>, delivered: nat -> bool) returns (sentCount: nat)
    modifies log
    ensures log.ids == old(log.ids) + DeliveredIds(outbox, delivered)
    ensures sentCount == DeliveredCount(outbox, delivered)
  {
    sentCount := 0;
    for k := 0 to |outbox|
      invariant log.ids == old(log.ids) + DeliveredIds(outbox[..k], delivered)
      invariant sentCount == DeliveredCount(outbox[..k], delivered)
    {
      assert outbox[..k + 1][..k] == outbox[..k];
      assert DeliveredIds(outbox[..k + 1], delivered)
        == DeliveredIds(outbox[..k], delivered) + (if delivered(k) then {outbox[k].acptno} else {});
      if delivered(k) {
        log.Add(outbox[k].acptno);
        sentCount := sentCount + 1;
      }
    }
    assert outbox[..|outbox|] == outbox;
  }

  /** One run of `main` for a date, after the listing was read. In
      `only_new` mode the log is consulted and already-sent receipt numbers
      are dropped; in either mode each delivered message is logged. */
  method RunOnce(log: SentLog, listing: seq<Disclosure>, date: string, onlyNew: bool, sendTelegram: bool,
                 documents: string -> Option<seq<Table>>, delivered: nat -> bool)
    returns (outbox: seq<Outgoing>, sentCount: nat)
    modifies log
    ensures outbox == MessagesOf(if onlyNew then FilterNew(listing, old(log.ids)) else listing, date, documents)
    ensures onlyNew ==> forall k :: 0 <= k < |outbox| ==> outbox[k].acptno !in old(log.ids)
    ensures sendTelegram ==> log.ids == old(log.ids) + DeliveredIds(outbox, delivered)
                             && sentCount == DeliveredCount(outbox, delivered)
    ensures !sendTelegram ==> log.ids == old(log.ids) && sentCount == 0
  {
    var sent: set<string> := if onlyNew then log.ids else {};
    outbox, sentCount := [], 0;
    if listing == [] {
      return;
    }
    var ds := listing;
    if onlyNew {
      ds := FilterNew(listing, sent);
      if ds == [] {
        return;
      }
    }
    outbox := Collect(ds, date, documents);
    if onlyNew {
      MessagesSkipSent(listing, sent, date, documents);
    }
    if sendTelegram && outbox != [] {
      sentCount := SendAll(log, outbox, delivered);
    }
  }
}
