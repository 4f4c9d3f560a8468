/** The text handling of the earnings-call summarizer: guessing the company
    and the quarter from the start of a transcript, shortening a long summary
    at its Q&A section, capping the Telegram text, and the style each summary
    line gets in the Word document. */
module CallSummary {
  import opened Strings
  import opened Optional

  // ---------------------------------------------------------------------------
  // extract_company_and_quarter
  // ---------------------------------------------------------------------------

  const DEFAULT_COMPANY: string := "회사명"
  const DEFAULT_QUARTER: string := "분기"

  /** Only this many leading characters of the transcript are searched. */
  const SEARCH_WINDOW: nat := 500

  /** `[가-힣A-Za-z]`: a Hangul syllable or an ASCII letter. */
  predicate IsNameChar(c: char) {
    ('가' <= c <= '힣') || ('A' <= c <= 'Z') || ('a' <= c <= 'z')
  }

  /** The three patterns, in the order they are tried. */
  datatype Pattern =
    | QuarterCode   // `([가-힣A-Za-z]+)\s*(\d{1,2}Q\d{2})`, as in "넷마블 4Q25"
    | YearQuarter   // `([가-힣A-Za-z]+)\s*(\d{4}년?\s*\d분기)`, as in "넷마블 2025년 4분기"
    | Results       // `([가-힣A-Za-z]+)\s*실적`, as in "넷마블 실적"

  const PATTERNS: seq<Pattern> := [QuarterCode, YearQuarter, Results]

  /** The groups of a match: the company, and the quarter for the patterns
      that have a second group. */
  datatype Groups = Groups(company: string, quarter: Option<string>)

  /** A match and where it starts. */
  datatype Found = Found(start: nat, groups: Groups)

  /** The end of the run of name characters starting at `i`. */
  function RunEnd(s: string, i: nat): (j: nat)
    requires i <= |s|
    ensures i <= j <= |s|
    ensures forall k :: i <= k < j ==> IsNameChar(s[k])
    ensures j < |s| ==> !IsNameChar(s[j])
    decreases |s| - i
  {
    if i < |s| && IsNameChar(s[i]) then RunEnd(s, i + 1) else i
  }

  /** The end of the run of whitespace starting at `i`. */
  function SpaceEnd(s: string, i: nat): (j: nat)
    requires i <= |s|
    ensures i <= j <= |s|
    ensures forall k :: i <= k < j ==> IsSpace(s[k])
    ensures j < |s| ==> !IsSpace(s[j])
    decreases |s| - i
  {
    if i < |s| && IsSpace(s[i]) then SpaceEnd(s, i + 1) else i
  }

  /** `n` digits start at `p`. */
  predicate DigitsAt(s: string, p: nat, n: nat) {
    p + n <= |s| && AllDigits(s[p..p + n])
  }

  /** The length of `\d{1,2}Q\d{2}` matched at `p`, two leading digits
      tried before one. */
  function QuarterCodeLength(s: string, p: nat): Option<nat> {
    if DigitsAt(s, p, 2) && p + 2 < |s| && s[p + 2] == 'Q' && DigitsAt(s, p + 3, 2) then Some(5)
    else if DigitsAt(s, p, 1) && p + 1 < |s| && s[p + 1] == 'Q' && DigitsAt(s, p + 2, 2) then Some(4)
    else None
  }

  /** The length of `\d{4}년?\s*\d분기` matched at `p`. */
  function YearQuarterLength(s: string, p: nat): Option<nat>
    requires p <= |s|
  {
    if !DigitsAt(s, p, 4) then None
    else
      var q := if p + 4 < |s| && s[p + 4] == '년' then p + 5 else p + 4;
      var d := SpaceEnd(s, q);
      if DigitsAt(s, d, 1) && StartsWith(s[d + 1..], "분기") then Some(d + 3 - p) else None
  }

  /** `s[j..]` is some whitespace and then "실적". */
  predicate ResultsAfter(s: string, j: nat)
    requires j <= |s|
  {
    StartsWith(s[SpaceEnd(s, j)..], "실적")
  }

  /** The greedy company group of the `실적` pattern started at `i`: the
      longest run `s[i..j]` with `j <= hi` that "실적" follows. Since '실' and
      '적' are themselves name characters, the run may have to give some of
      them back. */
  function ResultsEnd(s: string, i: nat, hi: nat): (r: Option<nat>)
    requires i < hi <= |s|
    ensures r.Some? ==> i < r.value <= hi && ResultsAfter(s, r.value)
    ensures r.Some? ==> forall j :: r.value < j <= hi ==> !ResultsAfter(s, j)
    ensures r.None? ==> forall j :: i < j <= hi ==> !ResultsAfter(s, j)
    decreases hi
  {
    if ResultsAfter(s, hi) then Some(hi)
    else if hi - 1 == i then None
    else ResultsEnd(s, i, hi - 1)
  }

  /** `re.match` of one pattern at position `i`. The company group is the
      whole run of name characters from `i`, except for `실적`, where it is
      the longest part of that run that "실적" follows. */
  function MatchAt(s: string, i: nat, pattern: Pattern): (r: Option<Groups>)
    requires i <= |s|
    ensures r.Some? ==> r.value.company != [] && (forall k :: 0 <= k < |r.value.company| ==> IsNameChar(r.value.company[k]))
    ensures r.Some? ==> (r.value.quarter.Some? <==> pattern != Results)
  {
    var j := RunEnd(s, i);
    if j == i then None
    else
      var p := SpaceEnd(s, j);
      match pattern
      case QuarterCode =>
        var n := QuarterCodeLength(s, p);
        if n.Some? && p + n.value <= |s| then Some(Groups(s[i..j], Some(s[p..p + n.value]))) else None
      case YearQuarter =>
        var n := YearQuarterLength(s, p);
        if n.Some? && p + n.value <= |s| then Some(Groups(s[i..j], Some(s[p..p + n.value]))) else None
      case Results =>
        var e := ResultsEnd(s, i, j);
        if e.Some? then Some(Groups(s[i..e.value], None)) else None
  }

  /** A text `\d{1,2}Q\d{2}` matches in full, as "4Q25" or "12Q24". */
  predicate QuarterCodeText(q: string) {
    || (|q| == 4 && IsDigit(q[0]) && q[1] == 'Q' && IsDigit(q[2]) && IsDigit(q[3]))
    || (|q| == 5 && IsDigit(q[0]) && IsDigit(q[1]) && q[2] == 'Q' && IsDigit(q[3]) && IsDigit(q[4]))
  }

  /** A run of name characters, some whitespace and a quarter code match
      the first pattern with exactly those groups, whatever follows. */
  lemma MatchQuarterCodeExactly(name: string, ws: string, q: string, rest: string)
    requires name != [] && forall k :: 0 <= k < |name| ==> IsNameChar(name[k])
    requires forall k :: 0 <= k < |ws| ==> IsSpace(ws[k])
    requires QuarterCodeText(q)
    ensures MatchAt(name + ws + q + rest, 0, QuarterCode) == Some(Groups(name, Some(q)))
  {
    var s := name + ws + q + rest;
    var p := |name| + |ws|;
    RunsEnd(name, ws, q, rest);
    assert s[0..|name|] == name && s[p..p + |q|] == q;
    QuarterCodeLengthOf(s, p, q);
    MatchQuarterAt(s, 0, QuarterCode, |name|, p, |q|);
  }

  /** A quarter pattern matches at `i` when the name run is not empty and
      its quarter text follows the whitespace after the run. */
  lemma MatchQuarterAt(s: string, i: nat, pattern: Pattern, j: nat, p: nat, n: nat)
    requires i < j <= p && p + n <= |s| && RunEnd(s, i) == j && SpaceEnd(s, j) == p
    requires || (pattern == QuarterCode && QuarterCodeLength(s, p) == Some(n))
             || (pattern == YearQuarter && YearQuarterLength(s, p) == Some(n))
    ensures MatchAt(s, i, pattern) == Some(Groups(s[i..j], Some(s[p..p + n])))
  {
  }

  /** In such a text the name run ends where the name does and the
      whitespace run where the whitespace does. */
  lemma RunsEnd(name: string, ws: string, q: string, rest: string)
    requires forall k :: 0 <= k < |name| ==> IsNameChar(name[k])
    requires forall k :: 0 <= k < |ws| ==> IsSpace(ws[k])
    requires q != [] && IsDigit(q[0])
    ensures RunEnd(name + ws + q + rest, 0) == |name|
    ensures SpaceEnd(name + ws + q + rest, |name|) == |name| + |ws|
  {
    var s := name + ws + q + rest;
    var p := |name| + |ws|;
    assert s[p] == q[0];
    assert !IsNameChar(s[|name|]) by {
      if ws != [] {
        assert s[|name|] == ws[0];
      }
    }
    assert forall k :: 0 <= k < |name| ==> s[k] == name[k];
    assert forall k :: |name| <= k < p ==> s[k] == ws[k - |name|];
  }

  /** A quarter code at `p` is matched in full. */
  lemma QuarterCodeLengthOf(s: string, p: nat, q: string)
    requires p + |q| <= |s| && s[p..p + |q|] == q && QuarterCodeText(q)
    ensures QuarterCodeLength(s, p) == Some(|q|)
  {
    assert forall k :: 0 <= k < |q| ==> s[p + k] == q[k];
    if |q| == 4 {
      assert !DigitsAt(s, p, 2) by {
        assert s[p..p + 2][1] == s[p + 1];
      }
      assert DigitsAt(s, p, 1) by {
        assert s[p..p + 1][0] == s[p];
      }
      assert DigitsAt(s, p + 2, 2) by {
        assert s[p + 2..p + 4][0] == s[p + 2] && s[p + 2..p + 4][1] == s[p + 3];
      }
    } else {
      assert DigitsAt(s, p, 2) by {
        assert s[p..p + 2][0] == s[p] && s[p..p + 2][1] == s[p + 1];
      }
      assert DigitsAt(s, p + 3, 2) by {
        assert s[p + 3..p + 5][0] == s[p + 3] && s[p + 3..p + 5][1] == s[p + 4];
      }
    }
  }

  /** Conversely, a match of the first pattern at `i` is a run of name
      characters, whitespace and a quarter code. */
  lemma MatchQuarterCodeShape(s: string, i: nat) returns (p: nat)
    requires i <= |s| && MatchAt(s, i, QuarterCode).Some?
    ensures var g := MatchAt(s, i, QuarterCode).value;
      && g.quarter.Some? && QuarterCodeText(g.quarter.value)
      && i + |g.company| <= p <= |s| - |g.quarter.value|
      && s[i..i + |g.company|] == g.company
      && (forall k :: i + |g.company| <= k < p ==> IsSpace(s[k]))
      && s[p..p + |g.quarter.value|] == g.quarter.value
  {
    var j := RunEnd(s, i);
    p := SpaceEnd(s, j);
    var n := QuarterCodeLength(s, p).value;
    QuarterCodeTextAt(s, p);
    assert MatchAt(s, i, QuarterCode) == Some(Groups(s[i..j], Some(s[p..p + n])));
  }

  /** What the quarter-code length covers is a quarter code. */
  lemma QuarterCodeTextAt(s: string, p: nat)
    requires QuarterCodeLength(s, p).Some?
    ensures var n := QuarterCodeLength(s, p).value;
      p + n <= |s| && QuarterCodeText(s[p..p + n])
  {
    if DigitsAt(s, p, 2) && p + 2 < |s| && s[p + 2] == 'Q' && DigitsAt(s, p + 3, 2) {
      assert s[p..p + 2][0] == s[p] && s[p..p + 2][1] == s[p + 1];
      assert s[p + 3..p + 5][0] == s[p + 3] && s[p + 3..p + 5][1] == s[p + 4];
    } else {
      assert s[p..p + 1][0] == s[p];
      assert s[p + 2..p + 4][0] == s[p + 2] && s[p + 2..p + 4][1] == s[p + 3];
    }
  }

  /** A text `\d{4}년?\s*\d분기` matches in full, as "2025년 4분기" or
      "20254분기": four digits, then '년' if the fifth character is one,
      then whitespace, a digit and "분기". */
  predicate YearQuarterText(q: string) {
    && |q| >= 7 && AllDigits(q[..4]) && IsDigit(q[|q| - 3]) && q[|q| - 2..] == "분기"
    && var m := if q[4] == '년' then 5 else 4;
       m <= |q| - 3 && forall k :: m <= k < |q| - 3 ==> IsSpace(q[k])
  }

  /** A run of name characters, some whitespace and a year and quarter
      match the second pattern with exactly those groups, whatever follows. */
  lemma MatchYearQuarterExactly(name: string, ws: string, q: string, rest: string)
    requires name != [] && forall k :: 0 <= k < |name| ==> IsNameChar(name[k])
    requires forall k :: 0 <= k < |ws| ==> IsSpace(ws[k])
    requires YearQuarterText(q)
    ensures MatchAt(name + ws + q + rest, 0, YearQuarter) == Some(Groups(name, Some(q)))
  {
    var s := name + ws + q + rest;
    var p := |name| + |ws|;
    assert q[..4][0] == q[0];
    RunsEnd(name, ws, q, rest);
    assert s[0..|name|] == name && s[p..p + |q|] == q;
    YearQuarterLengthOf(s, p, q);
    MatchQuarterAt(s, 0, YearQuarter, |name|, p, |q|);
  }

  /** A year and quarter at `p` is matched in full. */
  lemma YearQuarterLengthOf(s: string, p: nat, q: string)
    requires p + |q| <= |s| && s[p..p + |q|] == q && YearQuarterText(q)
    ensures YearQuarterLength(s, p) == Some(|q|)
  {
    assert forall k :: 0 <= k < |q| ==> s[p + k] == q[k];
    assert s[p..p + 4] == q[..4];
    var m := if q[4] == '년' then 5 else 4;
    assert (if p + 4 < |s| && s[p + 4] == '년' then p + 5 else p + 4) == p + m;
    var e := p + |q| - 3;
    var d := SpaceEnd(s, p + m);
    assert forall k :: p + m <= k < e ==> IsSpace(s[k]);
    assert !IsSpace(s[e]);
    assert d == e;
    assert s[e..e + 1][0] == s[e];
    assert s[e + 1..][..2] == q[|q| - 2..];
  }

  /** Conversely, a match of the second pattern at `i` is a run of name
      characters, whitespace and a year and quarter. */
  lemma MatchYearQuarterShape(s: string, i: nat) returns (p: nat)
    requires i <= |s| && MatchAt(s, i, YearQuarter).Some?
    ensures var g := MatchAt(s, i, YearQuarter).value;
      && g.quarter.Some? && YearQuarterText(g.quarter.value)
      && i + |g.company| <= p <= |s| - |g.quarter.value|
      && s[i..i + |g.company|] == g.company
      && (forall k :: i + |g.company| <= k < p ==> IsSpace(s[k]))
      && s[p..p + |g.quarter.value|] == g.quarter.value
  {
    var j := RunEnd(s, i);
    p := SpaceEnd(s, j);
    var n := YearQuarterLength(s, p).value;
    YearQuarterTextAt(s, p);
    assert MatchAt(s, i, YearQuarter) == Some(Groups(s[i..j], Some(s[p..p + n])));
  }

  /** What the year-and-quarter length covers is a year and quarter. */
  lemma YearQuarterTextAt(s: string, p: nat)
    requires p <= |s| && YearQuarterLength(s, p).Some?
    ensures var n := YearQuarterLength(s, p).value;
      p + n <= |s| && YearQuarterText(s[p..p + n])
  {
    var m := if p + 4 < |s| && s[p + 4] == '년' then 5 else 4;
    var d := SpaceEnd(s, p + m);
    var q := s[p..d + 3];
    assert forall k :: 0 <= k < |q| ==> q[k] == s[p + k];
    assert q[..4] == s[p..p + 4];
    assert s[d..d + 1][0] == s[d];
    assert q[|q| - 2..] == s[d + 1..][..2];
  }

  /** The documented example: "넷마블 4Q25 ..." gives the company "넷마블" and
      the quarter "4Q25". */
  lemma ExtractExample()
    ensures ExtractCompanyAndQuarter("넷마블 4Q25 실적 발표") == ("넷마블", "4Q25")
  {
    var t := "넷마블 4Q25 실적 발표";
    assert t == "넷마블" + " " + "4Q25" + " 실적 발표";
    MatchQuarterCodeExactly("넷마블", " ", "4Q25", " 실적 발표");
    assert Window(t) == t;
    QuarterCodeWins(t, 0);
  }

  /** The documented example for the second pattern: "넷마블 2025년 4분기"
      gives the company "넷마블" and the quarter "2025년 4분기". */
  lemma ExtractYearExample(transcript: string)
    requires transcript == "넷마블 2025년 4분기"
    ensures ExtractCompanyAndQuarter(transcript) == ("넷마블", "2025년 4분기")
  {
    YearExampleMatch(transcript);
    assert Window(transcript) == transcript;
    NoQuarterCodeWithoutQ(transcript);
    YearQuarterDecides(transcript);
  }

  lemma YearExampleMatch(transcript: string)
    requires transcript == "넷마블 2025년 4분기"
    ensures MatchAt(transcript, 0, YearQuarter) == Some(Groups("넷마블", Some("2025년 4분기")))
  {
    var name, q := "넷마블", "2025년 4분기";
    assert transcript == name + " " + q + "";
    assert q[..4] == "2025" && q[4] == '년';
    MatchYearQuarterExactly(name, " ", q, "");
  }

  /** With no quarter code anywhere in the window, a year and quarter at the
      start of the window decides both parts. */
  lemma YearQuarterDecides(transcript: string)
    requires var w := Window(transcript);
      Search(w, QuarterCode, 0).None? && MatchAt(w, 0, YearQuarter).Some?
    ensures var g := MatchAt(Window(transcript), 0, YearQuarter).value;
      ExtractCompanyAndQuarter(transcript) == (g.company, g.quarter.value)
  {
    var w := Window(transcript);
    ExtractInOrder(transcript);
    assert Search(w, YearQuarter, 0) == Some(Found(0, MatchAt(w, 0, YearQuarter).value));
  }

  /** Without a 'Q' the first pattern matches nowhere. */
  lemma NoQuarterCodeWithoutQ(s: string)
    requires 'Q' !in s
    ensures Search(s, QuarterCode, 0).None?
  {
    forall k | 0 <= k <= |s|
      ensures MatchAt(s, k, QuarterCode).None?
    {
      var p := SpaceEnd(s, RunEnd(s, k));
      if p + 2 < |s| {
        assert s[p + 2] in s;
      }
      if p + 1 < |s| {
        assert s[p + 1] in s;
      }
    }
  }

  /** `re.search` from position `i`: the leftmost position where the pattern
      matches. */
  function Search(s: string, pattern: Pattern, i: nat): (r: Option<Found>)
    requires i <= |s|
    ensures r.Some? ==> i <= r.value.start <= |s| && MatchAt(s, r.value.start, pattern) == Some(r.value.groups)
    ensures r.Some? ==> forall k :: i <= k < r.value.start ==> MatchAt(s, k, pattern).None?
    ensures r.None? ==> forall k :: i <= k <= |s| ==> MatchAt(s, k, pattern).None?
    decreases |s| - i
  {
    var m := MatchAt(s, i, pattern);
    if m.Some? then Some(Found(i, m.value))
    else if i == |s| then None
    else Search(s, pattern, i + 1)
  }

  /** The groups of the first pattern in the list that matches anywhere. */
  function FirstPattern(s: string, patterns: seq<Pattern>): Option<Groups> {
    if patterns == [] then None
    else
      var found := Search(s, patterns[0], 0);
      if found.Some? then Some(found.value.groups) else FirstPattern(s, patterns[1..])
  }

  /** The leading characters that are searched. */
  function Window(transcript: string): (w: string)
    ensures |w| <= SEARCH_WINDOW && |w| <= |transcript| && w == transcript[..|w|]
    ensures |transcript| <= SEARCH_WINDOW ==> w == transcript
    ensures |transcript| > SEARCH_WINDOW ==> |w| == SEARCH_WINDOW
  {
    if |transcript| <= SEARCH_WINDOW then transcript else transcript[..SEARCH_WINDOW]
  }

  /** A quarter as the two patterns write it: it starts with a digit, so it
      is never the default "분기". */
  predicate QuarterShaped(q: string) {
    q != [] && IsDigit(q[0])
  }

  /** extract_company_and_quarter. */
  function ExtractCompanyAndQuarter(transcript: string): (string, string) {
    var g := FirstPattern(Window(transcript), PATTERNS);
    if g.None? then (DEFAULT_COMPANY, DEFAULT_QUARTER) else Pick(g.value)
  }

  /** The company and quarter a match gives: the quarter stays the default
      for the one-group pattern. */
  function Pick(g: Groups): (string, string) {
    (g.company, if g.quarter.Some? then g.quarter.value else DEFAULT_QUARTER)
  }

  /** The patterns are tried in their order, each over the whole window: a
      later pattern is used only when no earlier one matches anywhere. */
  lemma ExtractInOrder(transcript: string)
    ensures var w := Window(transcript);
      var code := Search(w, QuarterCode, 0);
      var year := Search(w, YearQuarter, 0);
      var results := Search(w, Results, 0);
      ExtractCompanyAndQuarter(transcript)
        == if code.Some? then Pick(code.value.groups)
           else if year.Some? then Pick(year.value.groups)
           else if results.Some? then Pick(results.value.groups)
           else (DEFAULT_COMPANY, DEFAULT_QUARTER)
  {
    var w := Window(transcript);
    var code := Search(w, QuarterCode, 0);
    var year := Search(w, YearQuarter, 0);
    var results := Search(w, Results, 0);
    assert PATTERNS[1..] == [YearQuarter, Results];
    assert [YearQuarter, Results][1..] == [Results];
    assert [Results][1..] == [];
    assert FirstPattern(w, [Results]) == if results.Some? then Some(results.value.groups) else None;
    assert FirstPattern(w, [YearQuarter, Results])
      == if year.Some? then Some(year.value.groups) else FirstPattern(w, [Results]);
    assert FirstPattern(w, PATTERNS)
      == if code.Some? then Some(code.value.groups) else FirstPattern(w, [YearQuarter, Results]);
  }

  /** With no pattern matching anywhere in the window, both parts keep
      their defaults. */
  lemma ExtractDefault(transcript: string)
    requires var w := Window(transcript);
      forall p, k :: 0 <= k <= |w| ==> MatchAt(w, k, p).None?
    ensures ExtractCompanyAndQuarter(transcript) == (DEFAULT_COMPANY, DEFAULT_QUARTER)
  {
    ExtractInOrder(transcript);
  }

  /** The company is the default or a non-empty run of Hangul syllables and
      ASCII letters taken from the window. */
  lemma ExtractCompanyShape(transcript: string)
    ensures var c := ExtractCompanyAndQuarter(transcript).0;
      c == DEFAULT_COMPANY || (c != [] && forall k :: 0 <= k < |c| ==> IsNameChar(c[k]))
  {
    var w := Window(transcript);
    ExtractInOrder(transcript);
    var code := Search(w, QuarterCode, 0);
    var year := Search(w, YearQuarter, 0);
    var results := Search(w, Results, 0);
    if code.Some? {
      assert MatchAt(w, code.value.start, QuarterCode).Some?;
    } else if year.Some? {
      assert MatchAt(w, year.value.start, YearQuarter).Some?;
    } else if results.Some? {
      assert MatchAt(w, results.value.start, Results).Some?;
    }
  }

  /** Every quarter group a pattern produces starts with a digit. */
  lemma MatchQuarterShaped(s: string, i: nat, pattern: Pattern)
    requires i <= |s| && MatchAt(s, i, pattern).Some? && MatchAt(s, i, pattern).value.quarter.Some?
    ensures QuarterShaped(MatchAt(s, i, pattern).value.quarter.value)
  {
    var j := RunEnd(s, i);
    var p := SpaceEnd(s, j);
    if pattern == QuarterCode {
      assert DigitsAt(s, p, 1) by {
        if !DigitsAt(s, p, 2) {
        } else {
          assert s[p..p + 2][0] == s[p];
        }
      }
      assert s[p..p + 1][0] == s[p];
    } else {
      assert DigitsAt(s, p, 4);
      assert s[p..p + 4][0] == s[p];
    }
  }

  /** The first pattern with a quarter group wins over `실적`, wherever in the
      window the two occur: the quarter keeps its default exactly when neither
      quarter pattern matches anywhere in the window. */
  lemma QuarterFoundIff(transcript: string)
    ensures var w := Window(transcript);
      ExtractCompanyAndQuarter(transcript).1 != DEFAULT_QUARTER
      <==> exists k :: 0 <= k <= |w| && (MatchAt(w, k, QuarterCode).Some? || MatchAt(w, k, YearQuarter).Some?)
  {
    var w := Window(transcript);
    var code := Search(w, QuarterCode, 0);
    var year := Search(w, YearQuarter, 0);
    var results := Search(w, Results, 0);
    ExtractInOrder(transcript);
    assert DEFAULT_QUARTER[0] == '분';
    if code.Some? {
      MatchQuarterShaped(w, code.value.start, QuarterCode);
    } else if year.Some? {
      MatchQuarterShaped(w, year.value.start, YearQuarter);
    } else if results.Some? {
      assert MatchAt(w, results.value.start, Results).value.quarter.None?;
    }
  }

  /** The leftmost `\d{1,2}Q\d{2}` match decides both parts whenever there is
      one. */
  lemma QuarterCodeWins(transcript: string, k: nat)
    requires k <= |Window(transcript)| && MatchAt(Window(transcript), k, QuarterCode).Some?
    ensures var w := Window(transcript);
      var f := Search(w, QuarterCode, 0);
      f.Some? && f.value.start <= k
      && ExtractCompanyAndQuarter(transcript) == (f.value.groups.company, f.value.groups.quarter.value)
  {
    var w := Window(transcript);
    var f := Search(w, QuarterCode, 0);
    ExtractInOrder(transcript);
    assert MatchAt(w, f.value.start, QuarterCode).value.quarter.Some?;
  }

  // ---------------------------------------------------------------------------
  // send_to_telegram: shortening and the length cap
  // ---------------------------------------------------------------------------

  /** Summaries longer than this are shortened. */
  const SHORTEN_THRESHOLD: nat := 3500
  /** Telegram's limit on the text of one message. */
  const TELEGRAM_LIMIT: nat := 4096
  /** The line put after the Q&A heading when the summary is shortened. */
  const QA_NOTE: string := "(Q&A는 파일 참조)"

  predicate IsQaLine(line: string) {
    StartsWith(line, "Q&A")
  }

  predicate IsCommentLine(line: string) {
    StartsWith(line, "* Comment")
  }

  /** The index of the first Q&A line, or the number of lines. */
  function FirstQa(lines: seq<string>): (q: nat)
    ensures q <= |lines|
    ensures q < |lines| ==> IsQaLine(lines[q])
    ensures forall k :: 0 <= k < q ==> !IsQaLine(lines[k])
  {
    if lines == [] then 0
    else if IsQaLine(lines[0]) then 0
    else 1 + FirstQa(lines[1..])
  }

  /** The lines kept: up to and including the first Q&A line and then the
      note, or all of them when there is no Q&A line. */
  function ShortLines(lines: seq<string>): seq<string> {
    var q := FirstQa(lines);
    if q < |lines| then lines[..q + 1] + [QA_NOTE] else lines
  }

  /** The summary as sent: shortened only when over the threshold. */
  function Shortened(summary: string): string {
    if |summary| > SHORTEN_THRESHOLD then Join(ShortLines(Split(summary, '\n')), '\n') else summary
  }

  /** The shortening loop: lines are copied until the first Q&A line, which
      is kept and followed by the note. A `* Comment` line enters the branch
      but changes nothing. */
  method ShortenSummary(summary: string) returns (r: string)
    ensures r == Shortened(summary)
  {
    r := summary;
    if |summary| > SHORTEN_THRESHOLD {
      var lines := Split(summary, '\n');
      var short: seq<string> := [];
      var k := 0;
      while k < |lines|
        invariant k <= FirstQa(lines)
        invariant short == lines[..k]
      {
        short := short + [lines[k]];
        if IsCommentLine(lines[k]) || IsQaLine(lines[k]) {
          if IsQaLine(lines[k]) {
            assert k == FirstQa(lines);
            short := short + [QA_NOTE];
            assert short == ShortLines(lines);
            break;
          }
        }
        k := k + 1;
      }
      assert short == ShortLines(lines);
      r := Join(short, '\n');
    }
  }

  /** The first n lines joined are where the joined text begins. */
  lemma {:induction false} JoinPrefix(parts: seq<string>, n: nat, sep: char)
    requires 1 <= n <= |parts|
    ensures StartsWith(Join(parts, sep), Join(parts[..n], sep))
    decreases n
  {
    if n > 1 {
      JoinPrefix(parts[1..], n - 1, sep);
      assert parts[..n][1..] == parts[1..][..n - 1];
      var tail := Join(parts[1..], sep);
      var head := Join(parts[1..][..n - 1], sep);
      assert Join(parts, sep) == (parts[0] + [sep]) + tail;
      assert Join(parts[..n], sep) == (parts[0] + [sep]) + head;
      assert tail[..|head|] == head;
    } else {
      assert Join(parts[..1], sep) == parts[0];
      if |parts| > 1 {
        assert Join(parts, sep) == parts[0] + ([sep] + Join(parts[1..], sep));
      }
    }
  }

  /** Without a Q&A line the shortened summary is the summary itself. */
  lemma ShortenedWithoutQa(summary: string)
    requires forall k :: 0 <= k < |Split(summary, '\n')| ==> !IsQaLine(Split(summary, '\n')[k])
    ensures Shortened(summary) == summary
  {
    JoinSplit(summary, '\n');
  }

  /** With a Q&A line, a long summary is cut after it: what is sent is the
      summary's own beginning through that line, a newline and the note. */
  lemma ShortenedAtQa(summary: string)
    requires |summary| > SHORTEN_THRESHOLD
    requires FirstQa(Split(summary, '\n')) < |Split(summary, '\n')|
    ensures var lines := Split(summary, '\n');
      var head := Join(lines[..FirstQa(lines) + 1], '\n');
      StartsWith(summary, head) && Shortened(summary) == head + "\n" + QA_NOTE
  {
    var lines := Split(summary, '\n');
    var q := FirstQa(lines);
    JoinAppend(lines[..q + 1], QA_NOTE, '\n');
    JoinPrefix(lines, q + 1, '\n');
    JoinSplit(summary, '\n');
  }

  /** `📊 *{company} {quarter} 컨콜 요약*` and an empty line. */
  function TelegramHeader(company: string, quarter: string): string {
    "📊 *" + company + " " + quarter + " 컨콜 요약*\n\n"
  }

  /** `text[:4096]`. */
  function Cap(text: string): (r: string)
    ensures |r| == if |text| <= TELEGRAM_LIMIT then |text| else TELEGRAM_LIMIT
    ensures r == text[..|r|]
  {
    if |text| <= TELEGRAM_LIMIT then text else text[..TELEGRAM_LIMIT]
  }

  /** The text posted to Telegram: the header and the (possibly shortened)
      summary, cut to Telegram's limit. */
  method TelegramText(summary: string, company: string, quarter: string) returns (text: string)
    ensures text == Cap(TelegramHeader(company, quarter) + Shortened(summary))
  {
    var short := ShortenSummary(summary);
    text := Cap(TelegramHeader(company, quarter) + short);
  }

  /** The text starts with the header whenever the header fits, and is never
      over the limit. */
  lemma TelegramTextShape(summary: string, company: string, quarter: string)
    ensures var header := TelegramHeader(company, quarter);
      var text := Cap(header + Shortened(summary));
      |text| <= TELEGRAM_LIMIT
      && (|header| <= TELEGRAM_LIMIT ==> StartsWith(text, header))
      && (|header + Shortened(summary)| <= TELEGRAM_LIMIT ==> text == header + Shortened(summary))
  {
    var header := TelegramHeader(company, quarter);
    var full := header + Shortened(summary);
    var text := Cap(full);
    if |header| <= TELEGRAM_LIMIT {
      assert full[..|header|] == header;
      assert text[..|header|] == full[..|header|];
    }
  }

  // ---------------------------------------------------------------------------
  // save_to_docx: the style of each line
  // ---------------------------------------------------------------------------

  /** How a line is written: a bold heading at a point size, bold text, or
      a plain paragraph. */
  datatype Style = Heading(points: nat) | Bold | Plain

  datatype Paragraph = Paragraph(text: string, style: Style)

  /** The markers that make a line bold. */
  predicate Marked(line: string) {
    StartsWith(line, "< ") || StartsWith(line, "# ") || StartsWith(line, "* ") || StartsWith(line, "Q")
  }

  /** `< ` starts a 12-point heading and `# ` an 11-point one; `* ` and `Q`
      start bold text; anything else is plain. */
  function Classify(line: string): (st: Style)
    ensures st.Heading? ==> st.points == 11 || st.points == 12
    ensures st != Plain <==> Marked(line)
    ensures StartsWith(line, "< ") ==> st == Heading(12)
    ensures StartsWith(line, "# ") ==> st == Heading(11)
    ensures StartsWith(line, "* ") || StartsWith(line, "Q") ==> st == Bold
  {
    if StartsWith(line, "< ") then Heading(12)
    else if StartsWith(line, "# ") then Heading(11)
    else if StartsWith(line, "* ") || StartsWith(line, "Q") then Bold
    else Plain
  }

  /** The style depends only on the first two characters of a line. */
  lemma ClassifyByLead(line: string, other: string)
    requires |line| >= 2 && |other| >= 2 && line[..2] == other[..2]
    ensures Classify(line) == Classify(other)
  {
    assert line[..1] == line[..2][..1] && other[..1] == other[..2][..1];
  }

  /** One paragraph per line of the summary, in order. */
  function Paragraphs(summary: string): (r: seq<Paragraph>)
    ensures |r| == |Split(summary, '\n')|
  {
    var lines := Split(summary, '\n');
    seq(|lines|, k requires 0 <= k < |lines| => Paragraph(lines[k], Classify(lines[k])))
  }

  function Texts(paragraphs: seq<Paragraph>): (r: seq<string>)
    ensures |r| == |paragraphs|
  {
    seq(|paragraphs|, k requires 0 <= k < |paragraphs| => paragraphs[k].text)
  }

  /** The document loop: each line becomes a paragraph with its style. */
  method DocxParagraphs(summary: string) returns (paragraphs: seq<Paragraph>)
    ensures paragraphs == Paragraphs(summary)
  {
    var lines := Split(summary, '\n');
    paragraphs := [];
    for k := 0 to |lines|
      invariant |paragraphs| == k
      invariant forall i :: 0 <= i < k ==> paragraphs[i] == Paragraph(lines[i], Classify(lines[i]))
    {
      paragraphs := paragraphs + [Paragraph(lines[k], Classify(lines[k]))];
    }
  }

  /** No text is lost: the paragraphs, joined by newlines, are the summary. */
  lemma ParagraphsKeepText(summary: string)
    ensures Join(Texts(Paragraphs(summary)), '\n') == summary
  {
    assert Texts(Paragraphs(summary)) == Split(summary, '\n');
    JoinSplit(summary, '\n');
  }
}
