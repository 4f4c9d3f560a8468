/** The deterministic part of the global earnings collector: ticker
    normalisation to the quote service's form, the earnings cache with its
    one-day validity, the collection loop over the sector groups and the
    per-sector sheet name. The quotes themselves come from a parameter. */
module GlobalEarnings {
  import opened Strings
  import opened Optional
  import opened Clock

  // ---------------------------------------------------------------------------
  // normalize_ticker
  // ---------------------------------------------------------------------------

  /** Exchange codes and the suffix the quote service uses for them. */
  const EXCHANGE_SUFFIX: map<string, string> := map[
    "US" := "", "HK" := ".HK", "JP" := ".T", "JT" := ".T", "GR" := ".DE",
    "DE" := ".DE", "LN" := ".L", "SS" := ".SS", "SZ" := ".SZ"]

  /** The suffix of an exchange code; none for an unknown code. */
  function Suffix(exchange: string): (r: string)
    ensures r == "" || (r[0] == '.' && NoSpace(r) && Upper(r) == r)
  {
    if exchange in EXCHANGE_SUFFIX then EXCHANGE_SUFFIX[exchange] else ""
  }

  /** The input trimmed and upper-cased, as every branch sees it. */
  function Canonical(raw: string): (t: string)
    ensures |t| <= |raw|
  {
    Upper(Strip(raw))
  }

  /** Upper-casing a stripped text leaves it stripped. */
  lemma CanonicalTrimmed(raw: string)
    ensures Canonical(raw) == [] || (!IsSpace(Canonical(raw)[0]) && !IsSpace(Canonical(raw)[|Canonical(raw)| - 1]))
  {
    StripEnds(raw);
    UpperKeepsSpace(Strip(raw));
  }

  /** normalize_ticker: "SYM EXCH" becomes the symbol with its exchange's
      suffix; a ticker with a dot, or without a space, is only trimmed and
      upper-cased. */
  function NormalizeTicker(raw: string): (r: string)
  {
    var t := Canonical(raw);
    if '.' in t then t
    else if ' ' in t then
      CanonicalTrimmed(raw);
      var parts := Words(t);
      assert parts != [] by {
        assert StripStart(t) == t;
      }
      var exchange := if |parts| > 1 then parts[1] else "";
      parts[0] + Suffix(exchange)
    else t
  }

  /** A ticker with a dot is only trimmed and upper-cased, whatever else
      it holds; one already in the quote service's form is kept. */
  lemma NormalizeDotted(raw: string)
    ensures '.' in Canonical(raw) ==> NormalizeTicker(raw) == Canonical(raw)
    ensures '.' in raw && NoSpace(raw) && Upper(raw) == raw ==> NormalizeTicker(raw) == raw
  {
    if NoSpace(raw) {
      StripNoSpace(raw);
    }
  }

  /** A ticker with no inner space and no dot is only trimmed and
      upper-cased; one already upper-case and unpadded is kept. */
  lemma NormalizePlain(raw: string)
    ensures ' ' !in Canonical(raw) ==> NormalizeTicker(raw) == Canonical(raw)
    ensures '.' !in raw && NoSpace(raw) && Upper(raw) == raw ==> NormalizeTicker(raw) == raw
  {
    if NoSpace(raw) {
      StripNoSpace(raw);
      assert ' ' !in raw by {
        assert forall k :: 0 <= k < |raw| ==> !IsSpace(raw[k]);
      }
    }
  }

  /** "SYM EXCH" gives the symbol followed by the exchange's suffix (the
      documented cases: "9868 HK" to "9868.HK", "TSLA US" to "TSLA",
      "7203 JT" to "7203.T"). */
  lemma NormalizePair(symbol: string, exchange: string)
    requires symbol != [] && NoSpace(symbol) && '.' !in symbol && Upper(symbol) == symbol
    requires exchange != [] && NoSpace(exchange) && '.' !in exchange && Upper(exchange) == exchange
    ensures NormalizeTicker(symbol + " " + exchange) == symbol + Suffix(exchange)
  {
    var s := symbol + " " + exchange;
    assert s[0] == symbol[0] && s[|s| - 1] == exchange[|exchange| - 1];
    StripTrimmed(s);
    assert Upper(s) == s;
    assert s[|symbol|] == ' ';
    assert '.' !in s;
    WordsOfPair(symbol, exchange);
  }

  /** The symbol of a "SYM EXCH" ticker: a nonempty upper-case word
      without a dot. */
  lemma SymbolShape(raw: string)
    requires '.' !in Canonical(raw) && ' ' in Canonical(raw)
    ensures var parts := Words(Canonical(raw));
      parts != [] && NoSpace(parts[0]) && '.' !in parts[0] && ' ' !in parts[0] && Upper(parts[0]) == parts[0]
  {
    var t := Canonical(raw);
    CanonicalTrimmed(raw);
    assert StripStart(t) == t;
    var sym := Words(t)[0];
    assert sym == t[..|sym|];
    forall k | 0 <= k < |sym|
      ensures ToUpperChar(sym[k]) == sym[k] && sym[k] != '.' && sym[k] != ' '
    {
      assert sym[k] == t[k] == ToUpperChar(Strip(raw)[k]);
      assert !IsSpace(sym[k]);
    }
  }

  /** What comes out either has a dot or has neither a space nor a dot. */
  lemma NormalizeShape(raw: string)
    ensures var r := NormalizeTicker(raw); '.' in r || (' ' !in r && '.' !in r)
  {
    var t := Canonical(raw);
    if '.' !in t && ' ' in t {
      SymbolShape(raw);
      var parts := Words(t);
      var exchange := if |parts| > 1 then parts[1] else "";
      var r := parts[0] + Suffix(exchange);
      if Suffix(exchange) != "" {
        assert r[|parts[0]|] == '.';
      }
    }
  }

  /** Normalising twice is normalising once. */
  lemma NormalizeIdempotent(raw: string)
    ensures NormalizeTicker(NormalizeTicker(raw)) == NormalizeTicker(raw)
  {
    var t := Canonical(raw);
    if '.' in t || ' ' !in t {
      CanonicalTrimmed(raw);
      UpperIdempotent(Strip(raw));
      StripTrimmed(t);
    } else {
      SymbolShape(raw);
      var parts := Words(t);
      var exchange := if |parts| > 1 then parts[1] else "";
      var r := parts[0] + Suffix(exchange);
      assert NoSpace(r) && Upper(r) == r;
      StripNoSpace(r);
      if Suffix(exchange) != "" {
        assert r[|parts[0]|] == '.';
      }
    }
  }

  // ---------------------------------------------------------------------------
  // The earnings cache
  // ---------------------------------------------------------------------------

  const CACHE_EXPIRY_SECONDS: int := 24 * 60 * 60

  /** is_cache_valid on the 'updated' entry: false when it is missing, empty
      or not a stamp; otherwise whether less than a day separates it from
      `now` (a stamp in the future counts as valid). */
  function StampValid(updated: Option<string>, now: Timestamp): bool {
    updated.Some? && updated.value != ""
    && match ParseStamp(updated.value)
       case None => false
       case Some(t) => EpochSeconds(now) - EpochSeconds(t) < CACHE_EXPIRY_SECONDS
  }

  /** A stamp written by save_cache is valid exactly while less than a day
      has passed since it was written. */
  lemma SavedStampValidity(saved: Timestamp, now: Timestamp)
    requires ValidStamp(saved)
    ensures StampValid(Some(FormatStamp(saved)), now) <==> EpochSeconds(now) - EpochSeconds(saved) < CACHE_EXPIRY_SECONDS
  {
    FormatThenParse(saved);
  }

  /** A missing or unreadable stamp makes the cache invalid. */
  lemma UnreadableStampInvalid(updated: Option<string>, now: Timestamp)
    requires updated.None? || ParseStamp(updated.value).None?
    ensures !StampValid(updated, now)
  {
  }

  /** What get_earnings_data reports for a ticker, apart from the sector
      tag. Revenue and EPS figures are floating point and not modelled. */
  datatype Report = Report(ticker: string, name: string, nextEarningsDate: Option<string>,
                           lastEarningsDate: Option<string>, source: string)

  /** One earnings dict: its report never changes once made, its 'sector'
      entry is written by the collection loop. */
  class EarningsRow {
    const report: Report
    var sector: Option<string>

    constructor (report: Report)
      ensures this.report == report && sector == None
    {
      this.report := report;
      sector := None;
    }
  }

  /** The entry for a ticker in an optional 'data' dict. */
  function Lookup(data: Option<map<string, EarningsRow>>, ticker: string): (r: Option<EarningsRow>)
    ensures r.Some? <==> data.Some? && ticker in data.value
    ensures r.Some? ==> r.value == data.value[ticker]
  {
    if data.Some? && ticker in data.value then Some(data.value[ticker]) else None
  }

  /** The cache dict: its 'data' entry (None when the key is absent) and its
      'updated' stamp. */
  class EarningsCache {
    var data: Option<map<string, EarningsRow>>
    var updated: Option<string>

    /** load_cache gives what the file holds, or `{'data': {}, 'updated': None}`. */
    constructor (data: Option<map<string, EarningsRow>>, updated: Option<string>)
      ensures this.data == data && this.updated == updated
    {
      this.data := data;
      this.updated := updated;
    }

    /** The dicts the cache holds. */
    function Rows(): set<EarningsRow>
      reads this
    {
      if data.Some? then data.value.Values else {}
    }

    predicate IsValid(now: Timestamp)
      reads this
    {
      StampValid(updated, now)
    }

    /** get_cached_data: nothing when the cache is not valid, otherwise the
        ticker's entry if it has one. */
    function Get(ticker: string, now: Timestamp): (r: Option<EarningsRow>)
      reads this
      ensures !IsValid(now) ==> r.None?
      ensures IsValid(now) ==> r == Lookup(data, ticker)
    {
      if IsValid(now) then Lookup(data, ticker) else None
    }

    /** set_cached_data: creates 'data' when absent and sets one ticker. */
    method Set(ticker: string, row: EarningsRow)
      modifies this
      ensures updated == old(updated)
      ensures Lookup(data, ticker) == Some(row)
      ensures forall t :: t != ticker ==> Lookup(data, t) == Lookup(old(data), t)
    {
      var d := if data.Some? then data.value else map[];
      data := Some(d[ticker := row]);
    }

    /** save_cache stamps the cache with the current time. */
    method Save(now: Timestamp)
      requires ValidStamp(now)
      modifies this
      ensures data == old(data) && updated == Some(FormatStamp(now))
    {
      updated := Some(FormatStamp(now));
    }
  }

  // ---------------------------------------------------------------------------
  // collect_all_earnings
  // ---------------------------------------------------------------------------

  /** One ticker of a sector group, normalised. */
  datatype Occurrence = Occurrence(sector: string, ticker: string)

  /** The tickers of one group, in order, each passed through `normalize`
      (NormalizeTicker in the collector). */
  function Tagged(sector: string, tickers: seq<string>, normalize: string -> string): (r: seq<Occurrence>)
    ensures |r| == |tickers|
  {
    if tickers == [] then []
    else Tagged(sector, tickers[..|tickers| - 1], normalize) + [Occurrence(sector, normalize(tickers[|tickers| - 1]))]
  }

  /** Every ticker of every group, group by group: duplicates across groups
      are separate occurrences. */
  function Occurrences(groups: seq<(string, seq<string>)>, normalize: string -> string): seq<Occurrence> {
    if groups == [] then []
    else Occurrences(groups[..|groups| - 1], normalize) + Tagged(groups[|groups| - 1].0, groups[|groups| - 1].1, normalize)
  }

  predicate TickerSeen(occ: seq<Occurrence>, t: string) {
    exists k :: 0 <= k < |occ| && occ[k].ticker == t
  }

  /** Some occurrence before position k has ticker t. */
  predicate SeenBefore(occ: seq<Occurrence>, k: nat, t: string)
    requires k <= |occ|
  {
    exists j :: 0 <= j < k && occ[j].ticker == t
  }

  /** The k-th occurrence is served from the cache: only when the cache is
      used and valid, and then when the loaded cache or an earlier
      occurrence already holds the ticker. */
  predicate Hit(occ: seq<Occurrence>, k: nat, initial: Option<map<string, EarningsRow>>, shared: bool)
    requires k < |occ|
  {
    shared && (Lookup(initial, occ[k].ticker).Some? || SeenBefore(occ, k, occ[k].ticker))
  }

  /** The last occurrence with the same ticker as occurrence k. */
  function LastOf(occ: seq<Occurrence>, k: nat): (r: nat)
    requires k < |occ|
    ensures k <= r < |occ| && occ[r].ticker == occ[k].ticker
    ensures forall j :: r < j < |occ| ==> occ[j].ticker != occ[k].ticker
  {
    if occ[|occ| - 1].ticker == occ[k].ticker then |occ| - 1 else LastOf(occ[..|occ| - 1], k)
  }

  lemma LastOfSnoc(occ: seq<Occurrence>, o: Occurrence, k: nat)
    requires k < |occ|
    ensures LastOf(occ + [o], k) == if occ[k].ticker == o.ticker then |occ| else LastOf(occ, k)
  {
    assert (occ + [o])[..|occ|] == occ;
  }

  predicate Distinct(rows: seq<EarningsRow>) {
    forall i, j :: 0 <= i < j < |rows| ==> rows[i] != rows[j]
  }

  /** No dict is held under two tickers, as in a cache read from JSON. */
  predicate DistinctEntries(data: Option<map<string, EarningsRow>>) {
    data.Some? ==> forall t, u :: t in data.value && u in data.value && t != u ==> data.value[t] != data.value[u]
  }

  /** What the collection loop keeps true of the cache and the fetch
      decisions after each occurrence: an occurrence is fetched exactly when
      it misses, and a fetched dict holds its ticker's report. Entries of
      unseen tickers are as loaded, and the cache holds, for each seen
      ticker, the dict of its last occurrence. Under a valid cache a loaded
      entry is never replaced and every occurrence is served the dict the
      cache holds for its ticker; otherwise every occurrence has a dict of
      its own. */
  ghost predicate CacheConsistent(data: Option<map<string, EarningsRow>>, rows: seq<EarningsRow>, occ: seq<Occurrence>,
                                  fetched: seq<bool>, initial: Option<map<string, EarningsRow>>, shared: bool,
                                  fetch: string -> Report)
  {
    && FetchLaw(rows, occ, fetched, initial, shared, fetch)
    && StoreLaw(data, rows, occ, initial)
    && (shared ==> SharedLaw(data, rows, occ, initial))
    && (!shared ==> Distinct(rows))
  }

  /** An occurrence is fetched exactly when it misses, and a fetched dict
      holds its ticker's report. */
  ghost predicate FetchLaw(rows: seq<EarningsRow>, occ: seq<Occurrence>, fetched: seq<bool>,
                           initial: Option<map<string, EarningsRow>>, shared: bool, fetch: string -> Report)
  {
    |rows| == |occ| == |fetched|
    && (forall k :: 0 <= k < |occ| ==> (fetched[k] <==> !Hit(occ, k, initial, shared)))
    && (forall k :: 0 <= k < |occ| && fetched[k] ==> rows[k].report == fetch(occ[k].ticker))
  }

  /** set_cached_data's trace: unseen tickers keep their loaded entries, and
      each seen ticker holds the dict of its last occurrence. */
  ghost predicate StoreLaw(data: Option<map<string, EarningsRow>>, rows: seq<EarningsRow>, occ: seq<Occurrence>,
                           initial: Option<map<string, EarningsRow>>)
  {
    |rows| == |occ|
    && (forall t :: !TickerSeen(occ, t) ==> Lookup(data, t) == Lookup(initial, t))
    && (forall k {:trigger LastOf(occ, k)} :: 0 <= k < |occ| ==> Lookup(data, occ[k].ticker) == Some(rows[LastOf(occ, k)]))
  }

  /** Under a valid cache no dict is held twice, a loaded entry is never
      replaced, and every occurrence holds its ticker's cached dict. */
  ghost predicate SharedLaw(data: Option<map<string, EarningsRow>>, rows: seq<EarningsRow>, occ: seq<Occurrence>,
                            initial: Option<map<string, EarningsRow>>)
  {
    |rows| == |occ|
    && DistinctEntries(data)
    && (forall t :: Lookup(initial, t).Some? ==> Lookup(data, t) == Lookup(initial, t))
    && (forall k :: 0 <= k < |occ| ==> Lookup(data, occ[k].ticker) == Some(rows[k]))
  }

  /** The sector each dict shows: under a valid cache the one written by its
      ticker's last occurrence, otherwise its own occurrence's. */
  ghost predicate SectorsShown(rows: seq<EarningsRow>, occ: seq<Occurrence>, shared: bool)
    requires |rows| == |occ|
    reads rows
  {
    forall k :: 0 <= k < |rows| ==>
      rows[k].sector == Some(occ[if shared then LastOf(occ, k) else k].sector)
  }

  /** Under a valid cache, the cache holds a ticker exactly when the loaded
      cache or an earlier occurrence did. */
  lemma HeldBefore(data: Option<map<string, EarningsRow>>, rows: seq<EarningsRow>, occ: seq<Occurrence>,
                   fetched: seq<bool>, initial: Option<map<string, EarningsRow>>, fetch: string -> Report, ticker: string)
    requires CacheConsistent(data, rows, occ, fetched, initial, true, fetch)
    ensures Lookup(data, ticker).Some? <==> Lookup(initial, ticker).Some? || SeenBefore(occ, |occ|, ticker)
  {
    if SeenBefore(occ, |occ|, ticker) {
      var k :| 0 <= k < |occ| && occ[k].ticker == ticker;
      assert Lookup(data, occ[k].ticker) == Some(rows[k]);
    } else {
      assert !TickerSeen(occ, ticker);
    }
  }

  /** The cache bookkeeping of one occurrence: on a hit (possible only under
      a valid cache holding the ticker) nothing changes; on a miss a fetched
      dict, new to the rows and to the cache, is stored under the ticker. */
  lemma CacheStep(data: Option<map<string, EarningsRow>>, data': Option<map<string, EarningsRow>>,
                  rows: seq<EarningsRow>, occ: seq<Occurrence>, fetched: seq<bool>,
                  initial: Option<map<string, EarningsRow>>, shared: bool, fetch: string -> Report,
                  sector: string, ticker: string, d: EarningsRow, hit: bool)
    requires CacheConsistent(data, rows, occ, fetched, initial, shared, fetch)
    requires hit <==> shared && Lookup(data, ticker).Some?
    requires hit ==> data' == data && Lookup(data, ticker) == Some(d)
    requires !hit ==> d.report == fetch(ticker) && d !in rows && (data.Some? ==> d !in data.value.Values)
    requires !hit ==> Lookup(data', ticker) == Some(d) && forall t :: t != ticker ==> Lookup(data', t) == Lookup(data, t)
    ensures CacheConsistent(data', rows + [d], occ + [Occurrence(sector, ticker)], fetched + [!hit], initial, shared, fetch)
  {
    FetchStep(data, rows, occ, fetched, initial, shared, fetch, sector, ticker, d, hit);
    CommonStep(data, data', rows, occ, fetched, initial, shared, fetch, sector, ticker, d, hit);
    if shared {
      SharedStep(data, data', rows, occ, fetched, initial, fetch, sector, ticker, d, hit);
    } else {
      assert Distinct(rows + [d]);
    }
  }

  /** The fetch decisions of one more occurrence: it is fetched exactly when
      it misses, and then its dict holds the fetched report. */
  lemma FetchStep(data: Option<map<string, EarningsRow>>, rows: seq<EarningsRow>, occ: seq<Occurrence>,
                  fetched: seq<bool>, initial: Option<map<string, EarningsRow>>, shared: bool, fetch: string -> Report,
                  sector: string, ticker: string, d: EarningsRow, hit: bool)
    requires CacheConsistent(data, rows, occ, fetched, initial, shared, fetch)
    requires hit <==> shared && Lookup(data, ticker).Some?
    requires !hit ==> d.report == fetch(ticker)
    ensures FetchLaw(rows + [d], occ + [Occurrence(sector, ticker)], fetched + [!hit], initial, shared, fetch)
  {
    var occ' := occ + [Occurrence(sector, ticker)];
    var rows' := rows + [d];
    var fetched' := fetched + [!hit];
    var n := |occ|;
    assert forall k :: 0 <= k < n ==> occ'[k] == occ[k] && rows'[k] == rows[k] && fetched'[k] == fetched[k];
    forall k | 0 <= k < n
      ensures Hit(occ', k, initial, shared) == Hit(occ, k, initial, shared)
    {
      assert SeenBefore(occ', k, occ'[k].ticker) == SeenBefore(occ, k, occ[k].ticker);
    }
    if shared {
      HeldBefore(data, rows, occ, fetched, initial, fetch, ticker);
      assert SeenBefore(occ', n, ticker) == SeenBefore(occ, n, ticker);
    }
  }

  /** The half of CacheStep that holds in both modes: the entries of
      unseen tickers stay as loaded, and each seen ticker's entry is the
      dict of its last occurrence. */
  lemma CommonStep(data: Option<map<string, EarningsRow>>, data': Option<map<string, EarningsRow>>,
                   rows: seq<EarningsRow>, occ: seq<Occurrence>, fetched: seq<bool>,
                   initial: Option<map<string, EarningsRow>>, shared: bool, fetch: string -> Report,
                   sector: string, ticker: string, d: EarningsRow, hit: bool)
    requires CacheConsistent(data, rows, occ, fetched, initial, shared, fetch)
    requires hit ==> data' == data && Lookup(data, ticker) == Some(d)
    requires !hit ==> Lookup(data', ticker) == Some(d) && forall t :: t != ticker ==> Lookup(data', t) == Lookup(data, t)
    ensures StoreLaw(data', rows + [d], occ + [Occurrence(sector, ticker)], initial)
  {
    var occ' := occ + [Occurrence(sector, ticker)];
    var rows' := rows + [d];
    forall t | !TickerSeen(occ', t)
      ensures Lookup(data', t) == Lookup(initial, t)
    {
      assert occ'[|occ|].ticker == ticker;
      forall k | 0 <= k < |occ|
        ensures occ[k].ticker != t
      {
        assert occ'[k] == occ[k];
      }
    }
    forall k | 0 <= k <= |occ|
      ensures Lookup(data', occ'[k].ticker) == Some(rows'[LastOf(occ', k)])
    {
      if k < |occ| {
        LastOfSnoc(occ, Occurrence(sector, ticker), k);
        assert occ'[k] == occ[k];
        if occ[k].ticker != ticker {
          assert rows'[LastOf(occ, k)] == rows[LastOf(occ, k)];
        }
      }
    }
  }

  /** The valid-cache half of CacheStep. */
  lemma SharedStep(data: Option<map<string, EarningsRow>>, data': Option<map<string, EarningsRow>>,
                   rows: seq<EarningsRow>, occ: seq<Occurrence>, fetched: seq<bool>,
                   initial: Option<map<string, EarningsRow>>, fetch: string -> Report,
                   sector: string, ticker: string, d: EarningsRow, hit: bool)
    requires CacheConsistent(data, rows, occ, fetched, initial, true, fetch)
    requires hit <==> Lookup(data, ticker).Some?
    requires hit ==> data' == data && Lookup(data, ticker) == Some(d)
    requires !hit ==> d !in rows && (data.Some? ==> d !in data.value.Values)
    requires !hit ==> Lookup(data', ticker) == Some(d) && forall t :: t != ticker ==> Lookup(data', t) == Lookup(data, t)
    ensures SharedLaw(data', rows + [d], occ + [Occurrence(sector, ticker)], initial)
  {
    if !hit {
      assert Lookup(initial, ticker).None?;
      forall k | 0 <= k < |occ|
        ensures occ[k].ticker != ticker
      {
        assert Lookup(data, occ[k].ticker) == Some(rows[k]);
      }
      forall t, u | data'.Some? && t in data'.value && u in data'.value && t != u
        ensures data'.value[t] != data'.value[u]
      {
        assert Lookup(data', t).Some? && Lookup(data', u).Some?;
        if t != ticker && u != ticker {
          assert Lookup(data, t).Some? && Lookup(data, u).Some?;
        }
      }
    }
  }

  /** One pass of the inner loop: the cached dict when the cache has the
      ticker, otherwise a fetched one that is stored in the cache; then the
      dict is tagged with the sector. */
  method Visit(cache: EarningsCache, sector: string, ticker: string, useCache: bool, now: Timestamp,
               fetch: string -> Report, ghost shared: bool, ghost initial: Option<map<string, EarningsRow>>,
               ghost rows: seq<EarningsRow>, ghost occ: seq<Occurrence>, ghost fetched: seq<bool>)
    returns (data: EarningsRow, ghost hit: bool)
    requires CacheConsistent(cache.data, rows, occ, fetched, initial, shared, fetch)
    requires SectorsShown(rows, occ, shared)
    requires shared == (useCache && cache.IsValid(now))
    modifies cache, cache.Rows()
    ensures CacheConsistent(cache.data, rows + [data], occ + [Occurrence(sector, ticker)], fetched + [!hit], initial, shared, fetch)
    ensures SectorsShown(rows + [data], occ + [Occurrence(sector, ticker)], shared)
    ensures cache.updated == old(cache.updated)
    ensures !hit ==> fresh(data)
    ensures forall r :: r in cache.Rows() ==> r in old(cache.Rows()) || fresh(r)
  {
    var cached := if useCache then cache.Get(ticker, now) else None;
    hit := cached.Some?;
    ghost var before := cache.data;
    if cached.Some? {
      data := cached.value;
    } else {
      data := new EarningsRow(fetch(ticker));
      cache.Set(ticker, data);
      forall r | r in cache.Rows()
        ensures r in old(cache.Rows()) || fresh(r)
      {
        var t :| t in cache.data.value && cache.data.value[t] == r;
        if t != ticker {
          assert Lookup(cache.data, t) == Lookup(before, t);
        }
      }
    }
    CacheStep(before, cache.data, rows, occ, fetched, initial, shared, fetch, sector, ticker, data, hit);
    data.sector := Some(sector);
    SectorStep(cache.data, rows, occ, fetched, initial, shared, fetch, sector, ticker, data);
  }

  /** After the new dict is tagged, every dict shows the sector the law
      says: the tagged dict is exactly the one every earlier occurrence of the
      same ticker holds under a valid cache, and a dict of its own otherwise. */
  lemma SectorStep(data: Option<map<string, EarningsRow>>, rows: seq<EarningsRow>, occ: seq<Occurrence>,
                   fetched: seq<bool>, initial: Option<map<string, EarningsRow>>, shared: bool,
                   fetch: string -> Report, sector: string, ticker: string, d: EarningsRow)
    requires CacheConsistent(data, rows + [d], occ + [Occurrence(sector, ticker)], fetched + [true], initial, shared, fetch)
      || CacheConsistent(data, rows + [d], occ + [Occurrence(sector, ticker)], fetched + [false], initial, shared, fetch)
    requires d.sector == Some(sector)
    requires forall k :: 0 <= k < |rows| && rows[k] != d ==>
      rows[k].sector == Some(occ[if shared then LastOf(occ, k) else k].sector)
    ensures SectorsShown(rows + [d], occ + [Occurrence(sector, ticker)], shared)
  {
    var occ' := occ + [Occurrence(sector, ticker)];
    var rows' := rows + [d];
    var n := |occ|;
    forall k | 0 <= k < |rows'|
      ensures rows'[k].sector == Some(occ'[if shared then LastOf(occ', k) else k].sector)
    {
      if k < n {
        assert rows'[k] == rows[k] && occ'[k] == occ[k];
        LastOfSnoc(occ, Occurrence(sector, ticker), k);
        if shared {
          assert Lookup(data, occ'[k].ticker) == Some(rows'[k]);
          assert Lookup(data, occ'[n].ticker) == Some(rows'[n]);
          if occ[k].ticker != ticker {
            assert occ'[LastOf(occ, k)] == occ[LastOf(occ, k)];
          }
        } else {
          assert rows'[k] != rows'[n];
        }
      }
    }
  }

  /** The inner loop over one sector group. */
  method CollectGroup(cache: EarningsCache, sector: string, tickers: seq<string>, normalize: string -> string,
                      useCache: bool, now: Timestamp, fetch: string -> Report, ghost shared: bool, ghost initial: Option<map<string, EarningsRow>>,
                      rows: seq<EarningsRow>, ghost occ: seq<Occurrence>, ghost fetched: seq<bool>)
    returns (rows': seq<EarningsRow>, ghost occ': seq<Occurrence>, ghost fetched': seq<bool>)
    requires CacheConsistent(cache.data, rows, occ, fetched, initial, shared, fetch)
    requires SectorsShown(rows, occ, shared)
    requires shared == (useCache && cache.IsValid(now))
    modifies cache, cache.Rows()
    ensures occ' == occ + Tagged(sector, tickers, normalize)
    ensures CacheConsistent(cache.data, rows', occ', fetched', initial, shared, fetch)
    ensures SectorsShown(rows', occ', shared)
    ensures cache.updated == old(cache.updated)
    ensures forall r :: r in cache.Rows() ==> r in old(cache.Rows()) || fresh(r)
    ensures |rows| <= |rows'| && rows'[..|rows|] == rows && fetched'[..|fetched|] == fetched
    ensures forall k :: |rows| <= k < |rows'| && fetched'[k] ==> fresh(rows'[k])
  {
    rows', occ', fetched' := rows, occ, fetched;
    assert tickers[..0] == [];
    for i := 0 to |tickers|
      invariant occ' == occ + Tagged(sector, tickers[..i], normalize)
      invariant CacheConsistent(cache.data, rows', occ', fetched', initial, shared, fetch)
      invariant SectorsShown(rows', occ', shared)
      invariant shared == (useCache && cache.IsValid(now))
      invariant cache.updated == old(cache.updated)
      invariant forall r :: r in cache.Rows() ==> r in old(cache.Rows()) || fresh(r)
      invariant |rows| <= |rows'| && rows'[..|rows|] == rows && fetched'[..|fetched|] == fetched
      invariant forall k :: |rows| <= k < |rows'| && fetched'[k] ==> fresh(rows'[k])
    {
      var ticker := normalize(tickers[i]);
      assert tickers[..i + 1][..i] == tickers[..i];
      var data, hit := Visit(cache, sector, ticker, useCache, now, fetch, shared, initial, rows', occ', fetched');
      rows' := rows' + [data];
      fetched' := fetched' + [!hit];
      occ' := occ' + [Occurrence(sector, ticker)];
    }
    assert tickers[..|tickers|] == tickers;
  }

  /** The outer loop over the sector groups. */
  method CollectGroups(cache: EarningsCache, groups: seq<(string, seq<string>)>, normalize: string -> string,
                       useCache: bool, now: Timestamp, fetch: string -> Report,
                       ghost shared: bool, ghost initial: Option<map<string, EarningsRow>>)
    returns (rows: seq<EarningsRow>, ghost occ: seq<Occurrence>, ghost fetched: seq<bool>)
    requires cache.data == initial && DistinctEntries(initial)
    requires shared == (useCache && cache.IsValid(now))
    modifies cache, cache.Rows()
    ensures occ == Occurrences(groups, normalize)
    ensures CacheConsistent(cache.data, rows, occ, fetched, initial, shared, fetch)
    ensures SectorsShown(rows, occ, shared)
    ensures cache.updated == old(cache.updated)
    ensures forall k :: 0 <= k < |rows| && fetched[k] ==> fresh(rows[k])
  {
    occ, rows, fetched := [], [], [];
    for g := 0 to |groups|
      invariant occ == Occurrences(groups[..g], normalize)
      invariant CacheConsistent(cache.data, rows, occ, fetched, initial, shared, fetch)
      invariant SectorsShown(rows, occ, shared)
      invariant shared == (useCache && cache.IsValid(now))
      invariant cache.updated == old(cache.updated)
      invariant forall r :: r in cache.Rows() ==> r in old(cache.Rows()) || fresh(r)
      invariant forall k :: 0 <= k < |rows| && fetched[k] ==> fresh(rows[k])
    {
      assert groups[..g + 1][..g] == groups[..g];
      ghost var before := fetched;
      ghost var rowsBefore := rows;
      ghost var held := cache.Rows();
      assert forall r :: r in held ==> r in old(cache.Rows()) || fresh(r);
      rows, occ, fetched := CollectGroup(cache, groups[g].0, groups[g].1, normalize, useCache, now, fetch, shared, initial, rows, occ, fetched);
      forall k | 0 <= k < |rows| && fetched[k]
        ensures fresh(rows[k])
      {
        if k < |before| {
          assert fetched[..|before|][k] == before[k] && rows[..|rowsBefore|][k] == rowsBefore[k];
        }
      }
      forall r | r in cache.Rows()
        ensures r in old(cache.Rows()) || fresh(r)
      {
        if r in held {
        }
      }
    }
    assert groups[..|groups|] == groups;
  }

  /** What the finished loop leaves in the cache, in terms of the
      occurrences: each seen ticker holds its last occurrence's dict, unseen
      tickers hold what was loaded, and under a valid cache a loaded entry
      is the dict every occurrence of its ticker was served. */
  lemma CacheAfterLoop(data: Option<map<string, EarningsRow>>, rows: seq<EarningsRow>, occ: seq<Occurrence>,
                       fetched: seq<bool>, initial: Option<map<string, EarningsRow>>, shared: bool,
                       fetch: string -> Report)
    requires CacheConsistent(data, rows, occ, fetched, initial, shared, fetch)
    ensures forall k {:trigger LastOf(occ, k)} :: 0 <= k < |rows| ==> Lookup(data, occ[k].ticker) == Some(rows[LastOf(occ, k)])
    ensures forall t :: !TickerSeen(occ, t) ==> Lookup(data, t) == Lookup(initial, t)
    ensures shared ==> forall k :: 0 <= k < |rows| && Lookup(initial, occ[k].ticker).Some? ==>
      rows[k] == Lookup(initial, occ[k].ticker).value
    ensures shared ==> forall k, j :: 0 <= k < |rows| && 0 <= j < |rows| && occ[k].ticker == occ[j].ticker ==> rows[k] == rows[j]
  {
    if shared {
      forall k, j | 0 <= k < |rows| && 0 <= j < |rows| && occ[k].ticker == occ[j].ticker
        ensures rows[k] == rows[j]
      {
        assert Lookup(data, occ[k].ticker) == Some(rows[k]);
        assert Lookup(data, occ[j].ticker) == Some(rows[j]);
      }
    }
  }

  /** collect_all_earnings: every occurrence of every group gives one row,
      fetched only on a cache miss and stored in the cache; then the cache is
      stamped. Rows served from the cache are the cache's own dicts, so under
      a valid cache every occurrence of a ticker shares one dict, and that
      dict shows the sector of the ticker's last occurrence. */
  method CollectAllEarnings(loaded: EarningsCache, groups: seq<(string, seq<string>)>, useCache: bool,
                            now: Timestamp, fetch: string -> Report)
    returns (rows: seq<EarningsRow>, cache: EarningsCache, ghost fetched: seq<bool>)
    requires ValidStamp(now)
    requires DistinctEntries(loaded.data)
    modifies loaded, loaded.Rows()
    ensures useCache ==> cache == loaded
    ensures cache.updated == Some(FormatStamp(now))
    ensures |rows| == |Occurrences(groups, NormalizeTicker)| == |fetched|
    ensures forall k :: 0 <= k < |rows| ==>
      (fetched[k] <==> !Hit(Occurrences(groups, NormalizeTicker), k, old(loaded.data), useCache && old(loaded.IsValid(now))))
    ensures forall k :: 0 <= k < |rows| && fetched[k] ==> fresh(rows[k]) && rows[k].report == fetch(Occurrences(groups, NormalizeTicker)[k].ticker)
    ensures useCache && old(loaded.IsValid(now)) ==>
      forall k, j :: 0 <= k < |rows| && 0 <= j < |rows| && Occurrences(groups, NormalizeTicker)[k].ticker == Occurrences(groups, NormalizeTicker)[j].ticker
        ==> rows[k] == rows[j]
    ensures SectorsShown(rows, Occurrences(groups, NormalizeTicker), useCache && old(loaded.IsValid(now)))
    ensures forall k {:trigger LastOf(Occurrences(groups, NormalizeTicker), k)} :: 0 <= k < |rows| ==>
      Lookup(cache.data, Occurrences(groups, NormalizeTicker)[k].ticker) == Some(rows[LastOf(Occurrences(groups, NormalizeTicker), k)])
    ensures forall t :: !TickerSeen(Occurrences(groups, NormalizeTicker), t) ==>
      Lookup(cache.data, t) == if useCache then Lookup(old(loaded.data), t) else None
    ensures useCache && old(loaded.IsValid(now)) ==>
      forall k :: 0 <= k < |rows| && Lookup(old(loaded.data), Occurrences(groups, NormalizeTicker)[k].ticker).Some? ==>
        rows[k] == Lookup(old(loaded.data), Occurrences(groups, NormalizeTicker)[k].ticker).value
  {
    if useCache {
      cache := loaded;
    } else {
      cache := new EarningsCache(Some(map[]), None);
    }
    ghost var shared := useCache && cache.IsValid(now);
    ghost var initial := cache.data;
    ghost var occ;
    rows, occ, fetched := CollectGroups(cache, groups, NormalizeTicker, useCache, now, fetch, shared, initial);
    CacheAfterLoop(cache.data, rows, occ, fetched, initial, shared, fetch);
    ghost var held := cache.data;
    cache.Save(now);
    assert cache.data == held;
  }

  // ---------------------------------------------------------------------------
  // save_to_excel: one sheet per sector
  // ---------------------------------------------------------------------------

  const SHEET_NAME_LIMIT: nat := 31

  /** The sheet name of a sector: its first 31 characters with every '/'
      and every backslash turned into '_'. */
  function SectorSheetName(sector: string): (r: string)
    ensures |r| == if |sector| < SHEET_NAME_LIMIT then |sector| else SHEET_NAME_LIMIT
    ensures '/' !in r && '\\' !in r
    ensures forall k :: 0 <= k < |r| ==>
      r[k] == if sector[k] == '/' || sector[k] == '\\' then '_' else sector[k]
  {
    var head := if |sector| <= SHEET_NAME_LIMIT then sector else sector[..SHEET_NAME_LIMIT];
    ReplaceChar(ReplaceChar(head, '/', '_'), '\\', '_')
  }

  /** A sheet name is its own sheet name. */
  lemma SectorSheetNameStable(sector: string)
    ensures SectorSheetName(SectorSheetName(sector)) == SectorSheetName(sector)
  {
  }
}
