/** The KIND "today's disclosures" listing as search_prelim_earnings_kind
    reads it: which rows become preliminary-earnings (잠정실적) records, the
    receipt-number capture from the viewer link, the six-digit stock code,
    deduplication by receipt number and when paging stops. The HTML is not
    modelled: each row arrives already split into its cells. */
module Listing {
  import opened Strings
  import opened Optional
  import opened Dedup

  const MAX_PAGES: nat := 10
  const PAGE_SIZE: nat := 500
  const PRELIM := "잠정"
  const DISCLOSURE_LEAD := "openDisclsViewer('"
  const COMPANY_LEAD := "companysummary_open('"

  /** An `<a>` element: its stripped text and its onclick attribute. */
  datatype Link = Link(text: string, onclick: string)

  /** A `<td>`: its stripped text, its first `<a>` and its `<a id="companysum">`. */
  datatype ListingCell = ListingCell(text: string, firstLink: Option<Link>, companyLink: Option<Link>)

  type ListingRow = seq<ListingCell>

  datatype Disclosure = Disclosure(time: string, stockCode: string, corpName: string,
                                   title: string, acptno: string, submitter: string, date: string)

  function AcptnoOf(d: Disclosure): string {
    d.acptno
  }

  /** What the POST for one page gave: its table rows, or an exception
      (a network error or an error status). */
  datatype Fetched = Failed | Page(rows: seq<ListingRow>)

  // ---------------------------------------------------------------------------
  // re.search(r"lead(\d+)'", s).group(1)
  // ---------------------------------------------------------------------------

  /** The longest run of digits at the start of `s`. */
  function DigitRun(s: string): (r: string)
    ensures |r| <= |s| && r == s[..|r|] && AllDigits(r)
    ensures |r| < |s| ==> !IsDigit(s[|r|])
  {
    if s != [] && IsDigit(s[0]) then [s[0]] + DigitRun(s[1..]) else []
  }

  lemma {:induction false} DigitRunOf(d: string, rest: string)
    requires AllDigits(d) && (rest == [] || !IsDigit(rest[0]))
    ensures DigitRun(d + rest) == d
    decreases |d|
  {
    if d == [] {
      assert d + rest == rest;
    } else {
      assert (d + rest)[1..] == d[1..] + rest;
      DigitRunOf(d[1..], rest);
    }
  }

  /** The capture of `lead(\d+)'` matched at the very start of `s`. */
  function CaptureAt(s: string, lead: string): (r: Option<string>)
    ensures r.Some? ==> r.value != [] && AllDigits(r.value) && StartsWith(s, lead + r.value + "'")
  {
    if !StartsWith(s, lead) then None
    else
      var d := DigitRun(s[|lead|..]);
      if d != [] && |lead| + |d| < |s| && s[|lead| + |d|] == '\'' then
        assert s[..|lead| + |d| + 1] == lead + d + "'";
        Some(d)
      else None
  }

  /** The pattern matches at the start of `s` with capture `d` exactly when
      `s` begins with the lead, the digits `d` and a quote. */
  lemma CaptureAtExactly(s: string, lead: string, d: string)
    requires d != [] && AllDigits(d)
    ensures CaptureAt(s, lead) == Some(d) <==> StartsWith(s, lead + d + "'")
  {
    if StartsWith(s, lead + d + "'") {
      var rest := s[|lead|..];
      assert s[..|lead|] == lead;
      assert rest == d + rest[|d|..];
      assert rest[|d|] == '\'';
      DigitRunOf(d, rest[|d|..]);
    }
  }

  /** `re.search`: the capture at the leftmost position where the pattern
      matches. */
  function SearchCapture(s: string, lead: string): (r: Option<string>)
    ensures r.Some? ==> r.value != [] && AllDigits(r.value) && Contains(s, lead + r.value + "'")
    decreases |s|
  {
    var here := CaptureAt(s, lead);
    if here.Some? then here else if s == [] then None else SearchCapture(s[1..], lead)
  }

  /** Positions where the pattern does not match are passed over: the search
      result is the one from the first position that matches. */
  lemma {:induction false} SearchCaptureSkips(s: string, lead: string, i: nat)
    requires i <= |s|
    requires forall j :: 0 <= j < i ==> CaptureAt(s[j..], lead).None?
    ensures SearchCapture(s, lead) == SearchCapture(s[i..], lead)
    decreases i
  {
    if i > 0 {
      assert CaptureAt(s[0..], lead).None?;
      assert s[0..] == s;
      forall j | 0 <= j < i - 1
        ensures CaptureAt(s[1..][j..], lead).None?
      {
        assert s[1..][j..] == s[j + 1..];
      }
      SearchCaptureSkips(s[1..], lead, i - 1);
      assert s[1..][i - 1..] == s[i..];
    }
  }

  /** A found capture comes from a position where the pattern matches, with
      no match before it. */
  lemma {:induction false} SearchCaptureFound(s: string, lead: string) returns (i: nat)
    requires SearchCapture(s, lead).Some?
    ensures i <= |s| && CaptureAt(s[i..], lead) == SearchCapture(s, lead)
    ensures forall j :: 0 <= j < i ==> CaptureAt(s[j..], lead).None?
    decreases |s|
  {
    if CaptureAt(s, lead).Some? {
      i := 0;
      assert s[0..] == s;
    } else {
      var k := SearchCaptureFound(s[1..], lead);
      i := k + 1;
      assert s[1..][k..] == s[i..];
      forall j | 0 <= j < i
        ensures CaptureAt(s[j..], lead).None?
      {
        if j == 0 {
          assert s[0..] == s;
        } else {
          assert s[1..][j - 1..] == s[j..];
        }
      }
    }
  }

  /** An onclick written as the lead, the digits and a quote gives those
      digits back. */
  lemma SearchCaptureOf(lead: string, d: string, rest: string)
    requires d != [] && AllDigits(d)
    ensures SearchCapture(lead + d + "'" + rest, lead) == Some(d)
  {
    var s := lead + d + "'" + rest;
    assert s[..|lead + d + "'"|] == lead + d + "'";
    CaptureAtExactly(s, lead, d);
  }

  // ---------------------------------------------------------------------------
  // zfill and the row filter
  // ---------------------------------------------------------------------------

  /** Python's str.zfill(width) on a string without a sign: zeros in front
      up to the width. */
  function ZeroFill(s: string, width: nat): (r: string)
    ensures |r| == if |s| >= width then |s| else width
    ensures EndsWith(r, s)
    ensures forall k :: 0 <= k < |r| - |s| ==> r[k] == '0'
  {
    if |s| >= width then s else Zeros(width - |s|) + s
  }

  /** Zero-filling a digit string keeps its value. */
  lemma ZeroFillValue(s: string, width: nat)
    requires AllDigits(s)
    ensures AllDigits(ZeroFill(s, width)) && DigitsValue(ZeroFill(s, width)) == DigitsValue(s)
  {
    if |s| < width {
      DigitsValueZeros(width - |s|, s);
    }
  }

  lemma ZeroFillIdempotent(s: string, width: nat)
    ensures ZeroFill(ZeroFill(s, width), width) == ZeroFill(s, width)
  {
  }

  /** What every listing record satisfies. */
  predicate WellFormed(x: Disclosure, date: string) {
    Contains(x.title, PRELIM) && x.acptno != [] && AllDigits(x.acptno) && x.date == date
    && (x.stockCode == "" || (|x.stockCode| >= 6 && AllDigits(x.stockCode)))
  }

  /** The stock code from the company link: its captured digits zero-filled
      to six, or "" without a link or a match. */
  function StockCode(company: Option<Link>): (r: string)
    ensures r == "" || (|r| >= 6 && AllDigits(r))
    ensures var c := SearchCapture(if company.Some? then company.value.onclick else "", COMPANY_LEAD);
      && (r == "" <==> c.None?)
      && (c.Some? ==> r == ZeroFill(c.value, 6) && DigitsValue(r) == DigitsValue(c.value))
  {
    var onclick := if company.Some? then company.value.onclick else "";
    match SearchCapture(onclick, COMPANY_LEAD)
    case None => ""
    case Some(c) => ZeroFillValue(c, 6); ZeroFill(c, 6)
  }

  /** The record a listing row gives before the duplicate check, or None when
      the row is skipped. */
  function EntryOf(row: ListingRow, date: string): (r: Option<Disclosure>)
    ensures r.Some? <==> |row| >= 4 && row[2].firstLink.Some?
                         && Contains(row[2].firstLink.value.text, PRELIM)
                         && SearchCapture(row[2].firstLink.value.onclick, DISCLOSURE_LEAD).Some?
    ensures r.Some? ==> WellFormed(r.value, date)
    ensures r.Some? ==> r.value.acptno == SearchCapture(row[2].firstLink.value.onclick, DISCLOSURE_LEAD).value
                        && r.value.title == row[2].firstLink.value.text
  {
    if |row| < 4 || row[2].firstLink.None? then None
    else
      var link := row[2].firstLink.value;
      if !Contains(link.text, PRELIM) then None
      else
        match SearchCapture(link.onclick, DISCLOSURE_LEAD)
        case None => None
        case Some(acptno) =>
          var company := row[1].companyLink;
          var corpName := if company.Some? then company.value.text else "";
          Some(Disclosure(row[0].text, StockCode(company), corpName, link.text, acptno, row[3].text, date))
  }

  /** The records of one page's rows, in row order, duplicates included. */
  function Entries(rows: seq<ListingRow>, date: string): (r: seq<Disclosure>)
    ensures |r| <= |rows|
  {
    if rows == [] then []
    else
      var e := EntryOf(rows[|rows| - 1], date);
      Entries(rows[..|rows| - 1], date) + (if e.Some? then [e.value] else [])
  }

  lemma EntriesStep(rows: seq<ListingRow>, i: nat, date: string)
    requires i < |rows|
    ensures Entries(rows[..i + 1], date)
      == Entries(rows[..i], date) + (if EntryOf(rows[i], date).Some? then [EntryOf(rows[i], date).value] else [])
  {
    assert rows[..i + 1][..i] == rows[..i];
  }

  /** The records of every page read, in page order. */
  function PagesEntries(pages: seq<seq<ListingRow>>, date: string): seq<Disclosure> {
    if pages == [] then []
    else PagesEntries(pages[..|pages| - 1], date) + Entries(pages[|pages| - 1], date)
  }

  lemma {:induction false} EntriesWellFormed(rows: seq<ListingRow>, date: string)
    ensures forall x :: x in Entries(rows, date) ==> WellFormed(x, date)
    decreases |rows|
  {
    if rows != [] {
      EntriesWellFormed(rows[..|rows| - 1], date);
    }
  }

  lemma {:induction false} PagesEntriesWellFormed(pages: seq<seq<ListingRow>>, date: string)
    ensures forall x :: x in PagesEntries(pages, date) ==> WellFormed(x, date)
    decreases |pages|
  {
    if pages != [] {
      PagesEntriesWellFormed(pages[..|pages| - 1], date);
      EntriesWellFormed(pages[|pages| - 1], date);
    }
  }

  // ---------------------------------------------------------------------------
  // Paging
  // ---------------------------------------------------------------------------

  /** The pages read from `page` on: reading stops after an empty page (not
      kept), after a page shorter than PAGE_SIZE (kept) or after page
      MAX_PAGES; None when a request fails on the way. */
  function Crawl(fetch: nat -> Fetched, page: nat): Option<seq<seq<ListingRow>>>
    decreases MAX_PAGES + 1 - page
  {
    if page > MAX_PAGES then Some([])
    else
      match fetch(page)
      case Failed => None
      case Page(rows) =>
        if rows == [] then Some([])
        else if |rows| < PAGE_SIZE then Some([rows])
        else After([rows], Crawl(fetch, page + 1))
  }

  function After(read: seq<seq<ListingRow>>, more: Option<seq<seq<ListingRow>>>): Option<seq<seq<ListingRow>>> {
    match more
    case None => None
    case Some(m) => Some(read + m)
  }

  /** At most MAX_PAGES pages are read, none of them empty, and every page
      but the last is a full one. */
  lemma {:induction false} CrawlShape(fetch: nat -> Fetched, page: nat)
    requires 1 <= page <= MAX_PAGES + 1
    requires Crawl(fetch, page).Some?
    ensures |Crawl(fetch, page).value| <= MAX_PAGES + 1 - page
    ensures forall k :: 0 <= k < |Crawl(fetch, page).value| ==> Crawl(fetch, page).value[k] != []
    ensures forall k :: 0 <= k < |Crawl(fetch, page).value| - 1 ==> |Crawl(fetch, page).value[k]| >= PAGE_SIZE
    decreases MAX_PAGES + 1 - page
  {
    if page <= MAX_PAGES && fetch(page).Page? {
      var rows := fetch(page).rows;
      if rows != [] && |rows| >= PAGE_SIZE {
        CrawlShape(fetch, page + 1);
        var more := Crawl(fetch, page + 1).value;
        assert Crawl(fetch, page).value == [rows] + more;
        assert forall k :: 1 <= k < |more| + 1 ==> ([rows] + more)[k] == more[k - 1];
      }
    }
  }

  lemma AfterNothing(more: Option<seq<seq<ListingRow>>>)
    ensures After([], more) == more
  {
    if more.Some? {
      assert [] + more.value == more.value;
    }
  }

  /** The listing for a date: the records of the pages read, first record
      per receipt number kept; an empty frame when any request fails. */
  function ListingOf(date: string, fetch: nat -> Fetched): (r: seq<Disclosure>)
    ensures UniqueKeys(r, AcptnoOf)
    ensures forall x :: x in r ==> WellFormed(x, date)
  {
    match Crawl(fetch, 1)
    case None => []
    case Some(pages) =>
      PagesEntriesWellFormed(pages, date);
      FirstByKey(PagesEntries(pages, date), AcptnoOf)
  }

  lemma ListingOfPages(date: string, fetch: nat -> Fetched, pages: seq<seq<ListingRow>>)
    requires Crawl(fetch, 1) == Some(pages)
    ensures ListingOf(date, fetch) == FirstByKey(PagesEntries(pages, date), AcptnoOf)
  {
  }

  /** Every listing record is the first record with its receipt number in
      the order the pages were read. */
  lemma ListingKeepsFirst(date: string, fetch: nat -> Fetched, pages: seq<seq<ListingRow>>, k: nat)
    requires Crawl(fetch, 1) == Some(pages) && k < |ListingOf(date, fetch)|
    ensures var all := PagesEntries(pages, date);
      exists i :: 0 <= i < |all| && IsFirst(all, i, AcptnoOf) && ListingOf(date, fetch)[k] == all[i]
  {
    ListingOfPages(date, fetch, pages);
    FirstByKeyKeepsFirst(PagesEntries(pages, date), AcptnoOf, k);
  }

  /** Every receipt number on the pages read appears in the listing. */
  lemma ListingCoversPages(date: string, fetch: nat -> Fetched, pages: seq<seq<ListingRow>>, i: nat)
    requires Crawl(fetch, 1) == Some(pages) && i < |PagesEntries(pages, date)|
    ensures HasKey(ListingOf(date, fetch), PagesEntries(pages, date)[i].acptno, AcptnoOf)
  {
    ListingOfPages(date, fetch, pages);
    var all := PagesEntries(pages, date);
    assert AcptnoOf(all[i]) == all[i].acptno;
  }

  /** The rows of one page, each new receipt number appended to what was
      found on the earlier pages. */
  method AddPage(found: seq<Disclosure>, rows: seq<ListingRow>, date: string, ghost before: seq<Disclosure>)
    returns (found': seq<Disclosure>)
    requires found == FirstByKey(before, AcptnoOf)
    ensures found' == FirstByKey(before + Entries(rows, date), AcptnoOf)
  {
    found' := found;
    ghost var seen := before;
    assert before + Entries(rows[..0], date) == before;
    for i := 0 to |rows|
      invariant seen == before + Entries(rows[..i], date)
      invariant found' == FirstByKey(seen, AcptnoOf)
    {
      var e := EntryOf(rows[i], date);
      EntriesStep(rows, i, date);
      if e.None? {
        assert Entries(rows[..i], date) + [] == Entries(rows[..i], date);
        continue;
      }
      AppendAssoc(before, Entries(rows[..i], date), [e.value]);
      FirstByKeySnoc(seen, e.value, AcptnoOf);
      seen := seen + [e.value];
      if HasKey(found', AcptnoOf(e.value), AcptnoOf) {
        continue;
      }
      found' := found' + [e.value];
    }
    assert rows[..|rows|] == rows;
  }

  /** search_prelim_earnings_kind: page by page until an empty page, a short
      page or the last page; an exception gives the empty frame. */
  method SearchListing(date: string, fetch: nat -> Fetched) returns (found: seq<Disclosure>)
    ensures found == ListingOf(date, fetch)
  {
    found := [];
    var page := 1;
    ghost var read: seq<seq<ListingRow>> := [];
    ReadNothing(fetch);
    while page <= MAX_PAGES
      invariant 1 <= page <= MAX_PAGES + 1
      invariant Reached(fetch, page, read)
      invariant found == FirstByKey(PagesEntries(read, date), AcptnoOf)
      decreases MAX_PAGES + 1 - page
    {
      var response := fetch(page);
      if response.Failed? {
        CrawlFails(date, fetch, page, read);
        return [];
      }
      var rows := response.rows;
      if |rows| == 0 {
        StopsAt(date, fetch, page, read, found);
        return;
      }
      found := AddPage(found, rows, date, PagesEntries(read, date));
      if |rows| < PAGE_SIZE {
        StopsAfter(date, fetch, page, read, rows, found);
        return;
      }
      ghost var before := read;
      read := read + [rows];
      page := page + 1;
      NextPage(date, fetch, page - 1, page, before, rows, found);
    }
    StopsAt(date, fetch, page, read, found);
  }

  /** Having read the pages `read`, the crawl continues at `page`. */
  predicate Reached(fetch: nat -> Fetched, page: nat, read: seq<seq<ListingRow>>) {
    Crawl(fetch, 1) == After(read, Crawl(fetch, page))
  }

  lemma ReadNothing(fetch: nat -> Fetched)
    ensures Reached(fetch, 1, [])
  {
    AfterNothing(Crawl(fetch, 1));
  }

  /** Reading stops before this page: what was found is the listing. */
  lemma StopsAt(date: string, fetch: nat -> Fetched, page: nat, read: seq<seq<ListingRow>>, found: seq<Disclosure>)
    requires Reached(fetch, page, read)
    requires page > MAX_PAGES || fetch(page) == Page([])
    requires found == FirstByKey(PagesEntries(read, date), AcptnoOf)
    ensures found == ListingOf(date, fetch)
  {
    CrawlEnds(fetch, page, read);
    ListingOfPages(date, fetch, read);
  }

  /** Reading stops after this short page: what was found, this page
      included, is the listing. */
  lemma StopsAfter(date: string, fetch: nat -> Fetched, page: nat, read: seq<seq<ListingRow>>, rows: seq<ListingRow>, found: seq<Disclosure>)
    requires Reached(fetch, page, read)
    requires page <= MAX_PAGES && fetch(page) == Page(rows) && 0 < |rows| < PAGE_SIZE
    requires found == FirstByKey(PagesEntries(read, date) + Entries(rows, date), AcptnoOf)
    ensures found == ListingOf(date, fetch)
  {
    CrawlEnds(fetch, page, read);
    PagesEntriesSnoc(read, rows, date);
    ListingOfPages(date, fetch, read + [rows]);
  }

  /** After a full page, reading goes on with the next one. */
  lemma NextPage(date: string, fetch: nat -> Fetched, page: nat, next: nat, read: seq<seq<ListingRow>>, rows: seq<ListingRow>, found: seq<Disclosure>)
    requires Reached(fetch, page, read)
    requires page <= MAX_PAGES && fetch(page) == Page(rows) && |rows| >= PAGE_SIZE && next == page + 1
    requires found == FirstByKey(PagesEntries(read, date) + Entries(rows, date), AcptnoOf)
    ensures Reached(fetch, next, read + [rows])
    ensures found == FirstByKey(PagesEntries(read + [rows], date), AcptnoOf)
  {
    CrawlGoesOn(fetch, page, read, rows);
    PagesEntriesSnoc(read, rows, date);
  }

  lemma PagesEntriesSnoc(read: seq<seq<ListingRow>>, rows: seq<ListingRow>, date: string)
    ensures PagesEntries(read + [rows], date) == PagesEntries(read, date) + Entries(rows, date)
  {
    assert (read + [rows])[..|read|] == read;
  }

  /** Where reading stops, the pages read so far are the whole crawl. */
  lemma CrawlEnds(fetch: nat -> Fetched, page: nat, read: seq<seq<ListingRow>>)
    requires Crawl(fetch, 1) == After(read, Crawl(fetch, page))
    requires page > MAX_PAGES || fetch(page) == Page([]) || (fetch(page).Page? && |fetch(page).rows| < PAGE_SIZE)
    ensures page > MAX_PAGES || fetch(page) == Page([]) ==> Crawl(fetch, 1) == Some(read)
    ensures page <= MAX_PAGES && fetch(page).Page? && fetch(page).rows != [] ==> Crawl(fetch, 1) == Some(read + [fetch(page).rows])
  {
    assert read + [] == read;
  }

  /** A failed request anywhere on the way makes the whole listing empty. */
  lemma CrawlFails(date: string, fetch: nat -> Fetched, page: nat, read: seq<seq<ListingRow>>)
    requires page <= MAX_PAGES && fetch(page).Failed?
    requires Reached(fetch, page, read)
    ensures ListingOf(date, fetch) == []
  {
  }

  /** After a full page the crawl goes on with the next one. */
  lemma CrawlGoesOn(fetch: nat -> Fetched, page: nat, read: seq<seq<ListingRow>>, rows: seq<ListingRow>)
    requires page <= MAX_PAGES && fetch(page) == Page(rows) && |rows| >= PAGE_SIZE
    requires Crawl(fetch, 1) == After(read, Crawl(fetch, page))
    ensures Crawl(fetch, 1) == After(read + [rows], Crawl(fetch, page + 1))
  {
    assert Crawl(fetch, page) == After([rows], Crawl(fetch, page + 1));
    if Crawl(fetch, page + 1).Some? {
      AppendAssoc(read, [rows], Crawl(fetch, page + 1).value);
    }
  }
}
