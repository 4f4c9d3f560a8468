/** The deterministic part of the news collector: cleaning the title and
    summary of a search result, naming the press from the link, dropping
    repeated titles, the press filter and request size of a search, the
    per-keyword messages and their delivery count, and the per-keyword sheet
    name. The search service, the message service, `html.unescape` and the
    date parser are parameters. */
module News {
  import opened Strings
  import opened Optional
  import opened Dedup

  // ---------------------------------------------------------------------------
  // clean_html_tags
  // ---------------------------------------------------------------------------

  /** `s[i..j + 1]` is a tag as the pattern `<[^>]+>` matches one: a '<', at
      least one character other than '>', then '>'. */
  predicate TagSpanAt(s: string, i: nat, j: nat)
    requires i < j < |s|
  {
    s[i] == '<' && s[j] == '>' && i + 1 < j && forall m :: i < m < j ==> s[m] != '>'
  }

  predicate NoTagSpan(s: string) {
    forall i, j :: 0 <= i < j < |s| ==> !TagSpanAt(s, i, j)
  }

  /** Every '<' is followed at once by '>' or by no '>' at all: the shape
      the tag removal leaves, which holds no tag. */
  predicate BracketsOpen(s: string) {
    forall i :: 0 <= i < |s| && s[i] == '<' ==> (i + 1 < |s| && s[i + 1] == '>') || '>' !in s[i + 1..]
  }

  lemma NoTagSpanOfBracketsOpen(s: string)
    requires BracketsOpen(s)
    ensures NoTagSpan(s)
  {
    forall i, j | 0 <= i < j < |s|
      ensures !TagSpanAt(s, i, j)
    {
      if s[i] == '<' && i + 1 < j && s[i + 1] != '>' {
        assert s[j] == s[i + 1..][j - i - 1];
      }
    }
  }

  /** Putting `c` in front of a text of that shape keeps the shape when `c`
      is not a '<' that a later '>' could close. */
  lemma BracketsOpenCons(c: char, t: string)
    requires BracketsOpen(t)
    requires c == '<' ==> (t != [] && t[0] == '>') || '>' !in t
    ensures BracketsOpen([c] + t)
  {
    var s := [c] + t;
    forall i | 0 <= i < |s| && s[i] == '<'
      ensures (i + 1 < |s| && s[i + 1] == '>') || '>' !in s[i + 1..]
    {
      if i == 0 {
        assert s[1..] == t;
      } else {
        assert s[i] == t[i - 1] && s[i + 1..] == t[i..];
      }
    }
  }

  /** `re.sub(r'<[^>]+>', '', s)`: scanning from the left, a '<' that some
      '>' closes after at least one other character starts a tag, which is
      dropped up to that first '>'; any other character is kept. */
  function RemoveTags(s: string): (r: string)
    ensures |r| <= |s|
    ensures forall c :: c in r ==> c in s
    ensures s != [] && s[0] == '>' ==> r != [] && r[0] == '>'
    ensures BracketsOpen(r)
    decreases |s|
  {
    if s == [] then []
    else
      var j := IndexOf(s[1..], '>');
      if s[0] == '<' && 1 <= j < |s| - 1 then
        var r := RemoveTags(s[j + 2..]);
        assert forall c :: c in s[j + 2..] ==> c in s;
        r
      else
        var rest := RemoveTags(s[1..]);
        assert forall c :: c in s[1..] ==> c in s;
        BracketsOpenCons(s[0], rest);
        [s[0]] + rest
  }

  /** Text holding no tag is left as it is, so removing tags twice is
      removing them once. */
  lemma {:induction false} RemoveTagsOpen(s: string)
    requires BracketsOpen(s)
    ensures RemoveTags(s) == s
    decreases |s|
  {
    if s != [] {
      BracketsOpenSuffix(s, 1);
      RemoveTagsOpen(s[1..]);
      assert [s[0]] + s[1..] == s;
    }
  }

  lemma RemoveTagsIdempotent(s: string)
    ensures RemoveTags(RemoveTags(s)) == RemoveTags(s)
  {
    RemoveTagsOpen(RemoveTags(s));
  }

  /** Text before the first '<' is kept as it stands. */
  lemma {:induction false} RemoveTagsKeepsPlain(a: string, t: string)
    requires '<' !in a
    ensures RemoveTags(a + t) == a + RemoveTags(t)
    decreases |a|
  {
    if a == [] {
      assert a + t == t;
    } else {
      var s, rest := a + t, RemoveTags(t);
      assert s[0] == a[0] && s[1..] == a[1..] + t;
      assert a[0] in a;
      RemoveTagsKeepsPlain(a[1..], t);
      AppendAssoc([a[0]], a[1..], rest);
      assert [a[0]] + a[1..] == a;
      assert RemoveTags(s) == [a[0]] + (a[1..] + rest);
    }
  }

  /** A tag `<u>` is dropped whole, and scanning goes on after its '>'. */
  lemma RemoveTagsDropsTag(u: string, t: string)
    requires u != [] && '>' !in u
    ensures RemoveTags("<" + u + ">" + t) == RemoveTags(t)
  {
    var s := "<" + u + ">" + t;
    var j := IndexOf(s[1..], '>');
    assert s[1..] == u + ">" + t;
    assert s[1..][|u|] == '>';
    assert forall k :: 0 <= k < |u| ==> s[1..][k] == u[k];
    assert j == |u|;
    assert s[j + 2..] == t;
  }

  /** A title with bold marks keeps its words: "<b>x</b>y" becomes "xy". */
  lemma RemoveTagsBold(x: string, y: string)
    requires '<' !in x && '<' !in y
    ensures RemoveTags("<b>" + x + "</b>" + y) == x + y
  {
    var closed := "</b>" + y;
    assert "<b>" + x + "</b>" + y == "<" + "b" + ">" + (x + closed);
    RemoveTagsClose(y);
    RemoveTagsKeepsPlain(x, closed);
    RemoveTagsDropsTag("b", x + closed);
  }

  lemma RemoveTagsClose(y: string)
    requires '<' !in y
    ensures RemoveTags("</b>" + y) == y
  {
    assert "</b>" + y == "<" + "/b" + ">" + y;
    assert y + [] == y;
    RemoveTagsKeepsPlain(y, []);
    RemoveTagsDropsTag("/b", y);
  }

  lemma RemoveTagsExample(title: string)
    requires title == "<b>삼성</b>전자"
    ensures RemoveTags(title) == "삼성전자"
  {
    var x, y := "삼성", "전자";
    assert title == "<b>" + x + "</b>" + y;
    assert x + y == "삼성전자";
    RemoveTagsBold(x, y);
  }

  /** No two whitespace characters next to each other. */
  predicate SingleSpaced(s: string) {
    forall k :: 0 <= k < |s| - 1 ==> !(IsSpace(s[k]) && IsSpace(s[k + 1]))
  }

  /** Every '<' of `s` stays of that shape in a suffix of `s`. */
  lemma BracketsOpenSuffix(s: string, n: nat)
    requires n <= |s| && BracketsOpen(s)
    ensures BracketsOpen(s[n..])
  {
    var t := s[n..];
    forall i | 0 <= i < |t| && t[i] == '<'
      ensures (i + 1 < |t| && t[i + 1] == '>') || '>' !in t[i + 1..]
    {
      assert t[i] == s[n + i];
      assert t[i + 1..] == s[n + i + 1..];
    }
  }

  /** `re.sub(r'\s+', ' ', s)`: every run of whitespace becomes one space. */
  function CollapseSpace(s: string): (r: string)
    ensures forall c :: c in r ==> c in s || c == ' '
    ensures forall k :: 0 <= k < |r| && IsSpace(r[k]) ==> r[k] == ' '
    ensures s != [] ==> r != [] && (IsSpace(s[0]) <==> IsSpace(r[0])) && (!IsSpace(s[0]) ==> r[0] == s[0])
    ensures SingleSpaced(r)
    decreases |s|
  {
    if s == [] then []
    else if IsSpace(s[0]) then
      var t := StripStart(s[1..]);
      StripStartFirst(s[1..]);
      StripStartSuffix(s[1..]);
      assert forall c :: c in t ==> c in s;
      [' '] + CollapseSpace(t)
    else
      assert forall c :: c in s[1..] ==> c in s;
      [s[0]] + CollapseSpace(s[1..])
  }

  /** A lone character is kept, or becomes one space; two texts that do
      not meet in whitespace collapse separately. */
  lemma CollapseSpaceAppend(a: string, b: string, c: char)
    requires a == [] || b == [] || !IsSpace(a[|a| - 1]) || !IsSpace(b[0])
    ensures CollapseSpace([c]) == if IsSpace(c) then " " else [c]
    ensures CollapseSpace(a + b) == CollapseSpace(a) + CollapseSpace(b)
  {
    assert [c][1..] == [];
    CollapseSpaceConcat(a, b);
  }

  lemma {:induction false} CollapseSpaceConcat(a: string, b: string)
    requires a == [] || b == [] || !IsSpace(a[|a| - 1]) || !IsSpace(b[0])
    ensures CollapseSpace(a + b) == CollapseSpace(a) + CollapseSpace(b)
    decreases |a|
  {
    if a == [] {
      assert a + b == b;
    } else if b == [] {
      assert a + b == a;
    } else {
      var s := a + b;
      assert s[0] == a[0] && s[1..] == a[1..] + b;
      if !IsSpace(a[0]) {
        CollapseSpaceConcat(a[1..], b);
      } else {
        CollapseSpaceLeading(a, b);
      }
    }
  }

  /** CollapseSpaceConcat when the first text starts with whitespace. */
  lemma {:induction false} CollapseSpaceLeading(a: string, b: string)
    requires a != [] && b != [] && IsSpace(a[0])
    requires !IsSpace(a[|a| - 1]) || !IsSpace(b[0])
    ensures CollapseSpace(a + b) == CollapseSpace(a) + CollapseSpace(b)
    decreases |a|, 0
  {
    var s := a + b;
    assert s[0] == a[0] && s[1..] == a[1..] + b;
    var a' := StripStart(a[1..]);
    StripStartAppend(a[1..], b);
    if a' == [] {
      StripStartAllSpace(a[1..]);
      assert IsSpace(a[|a| - 1]);
    } else {
      StripStartSuffix(a[1..]);
      assert a'[|a'| - 1] == a[|a| - 1];
      CollapseSpaceConcat(a', b);
    }
  }

  /** lstrip of a concatenation: the second text is reached only when the
      first is all whitespace. */
  lemma {:induction false} StripStartAppend(x: string, y: string)
    ensures StripStart(x + y) == if StripStart(x) == [] then StripStart(y) else StripStart(x) + y
    decreases |x|
  {
    if x == [] {
      assert x + y == y;
    } else {
      assert (x + y)[0] == x[0] && (x + y)[1..] == x[1..] + y;
      StripStartAppend(x[1..], y);
    }
  }

  /** When lstrip leaves nothing, the text ends in whitespace or is empty. */
  lemma {:induction false} StripStartAllSpace(x: string)
    requires StripStart(x) == []
    ensures x == [] || IsSpace(x[|x| - 1])
    decreases |x|
  {
    if x != [] && |x| > 1 {
      StripStartAllSpace(x[1..]);
    }
  }

  /** Collapsing whitespace creates no tag. */
  lemma {:induction false} CollapseSpaceBracketsOpen(s: string)
    requires BracketsOpen(s)
    ensures BracketsOpen(CollapseSpace(s))
    decreases |s|
  {
    if s != [] {
      if IsSpace(s[0]) {
        var t := StripStart(s[1..]);
        StripStartSuffix(s[1..]);
        BracketsOpenSuffix(s, |s| - |t|);
        CollapseSpaceBracketsOpen(t);
        BracketsOpenCons(' ', CollapseSpace(t));
      } else {
        var rest := CollapseSpace(s[1..]);
        BracketsOpenSuffix(s, 1);
        CollapseSpaceBracketsOpen(s[1..]);
        if s[0] == '<' && '>' in rest {
          assert '>' in s[1..];
        }
        BracketsOpenCons(s[0], rest);
      }
    }
  }

  /** What lstrip leaves is a suffix of its input. */
  lemma {:induction false} StripStartSuffix(s: string)
    ensures StripStart(s) == s[|s| - |StripStart(s)|..]
    decreases |s|
  {
    if s != [] && IsSpace(s[0]) {
      StripStartSuffix(s[1..]);
    }
  }

  /** What rstrip leaves is a prefix of its input. */
  lemma {:induction false} StripEndPrefix(s: string)
    ensures StripEnd(s) == s[..|StripEnd(s)|]
    decreases |s|
  {
    if s != [] && IsSpace(s[|s| - 1]) {
      StripEndPrefix(s[..|s| - 1]);
    }
  }

  /** strip() takes one slice of its input. */
  lemma StripSlice(s: string) returns (a: nat, b: nat)
    ensures a <= b <= |s| && Strip(s) == s[a..b]
  {
    var t := StripStart(s);
    StripStartSuffix(s);
    StripEndPrefix(t);
    a, b := |s| - |t|, |s| - |t| + |StripEnd(t)|;
  }

  /** A slice of a single-spaced text holding no tag holds no tag and is
      single-spaced. */
  lemma SliceClean(s: string, a: nat, b: nat)
    requires a <= b <= |s| && SingleSpaced(s) && NoTagSpan(s)
    ensures SingleSpaced(s[a..b]) && NoTagSpan(s[a..b])
  {
    var t := s[a..b];
    forall k | 0 <= k < |t| - 1
      ensures !(IsSpace(t[k]) && IsSpace(t[k + 1]))
    {
      assert t[k] == s[a + k] && t[k + 1] == s[a + k + 1];
    }
    forall i, j | 0 <= i < j < |t|
      ensures !TagSpanAt(t, i, j)
    {
      assert !TagSpanAt(s, a + i, a + j);
      if TagSpanAt(t, i, j) {
        forall m | a + i < m < a + j
          ensures s[m] != '>'
        {
          assert s[m] == t[m - a];
        }
      }
    }
  }

  /** clean_html_tags: empty text stays empty; otherwise entities are decoded
      (`unescape` is `html.unescape`), tags removed, whitespace runs
      collapsed and the ends trimmed. */
  function CleanHtmlTags(text: string, unescape: string -> string): string {
    if text == "" then "" else Strip(CollapseSpace(RemoveTags(unescape(text))))
  }

  /** The cleaned text has no whitespace at either end, no two whitespace
      characters together and no tag left. */
  lemma CleanHtmlTagsClean(text: string, unescape: string -> string)
    ensures var r := CleanHtmlTags(text, unescape);
      (r == [] || (!IsSpace(r[0]) && !IsSpace(r[|r| - 1]))) && SingleSpaced(r) && NoTagSpan(r)
  {
    if text != "" {
      var c := CollapseSpace(RemoveTags(unescape(text)));
      CollapseSpaceBracketsOpen(RemoveTags(unescape(text)));
      NoTagSpanOfBracketsOpen(c);
      StripEnds(c);
      var a, b := StripSlice(c);
      SliceClean(c, a, b);
    }
  }

  // ---------------------------------------------------------------------------
  // extract_press_name
  // ---------------------------------------------------------------------------

  /** Link domains and their press names, in the order they are tried. */
  const DOMAIN_PRESS: seq<(string, string)> := [
    ("chosun.com", "조선일보"), ("joongang.co.kr", "중앙일보"), ("donga.com", "동아일보"),
    ("hankyung.com", "한국경제"), ("mk.co.kr", "매일경제"), ("sedaily.com", "서울경제"),
    ("fnnews.com", "파이낸셜뉴스"), ("mt.co.kr", "머니투데이"), ("edaily.co.kr", "이데일리"),
    ("yna.co.kr", "연합뉴스"), ("ytn.co.kr", "YTN"), ("sbs.co.kr", "SBS"), ("kbs.co.kr", "KBS"),
    ("mbc.co.kr", "MBC"), ("news1.kr", "뉴스1"), ("newsis.com", "뉴시스"), ("etnews.com", "전자신문"),
    ("zdnet.co.kr", "ZDNet"), ("bloter.net", "블로터")]

  /** The press name when no domain matches. */
  const OTHER_PRESS: string := "기타"

  /** The press of the first domain in `table` that occurs in the link. */
  function PressFrom(link: string, table: seq<(string, string)>): string {
    if table == [] then OTHER_PRESS
    else if Contains(link, table[0].0) then table[0].1
    else PressFrom(link, table[1..])
  }

  /** extract_press_name: the title plays no part, so it is not a parameter. */
  function PressName(link: string): string {
    PressFrom(link, DOMAIN_PRESS)
  }

  /** The press is that of the first domain, in table order, found in the
      link, and the fallback name when none is. */
  lemma {:induction false} PressFromFirst(link: string, table: seq<(string, string)>)
    ensures (exists k :: 0 <= k < |table| && Contains(link, table[k].0) && PressFrom(link, table) == table[k].1
               && forall j :: 0 <= j < k ==> !Contains(link, table[j].0))
         || ((forall k :: 0 <= k < |table| ==> !Contains(link, table[k].0)) && PressFrom(link, table) == OTHER_PRESS)
    decreases |table|
  {
    if table != [] && !Contains(link, table[0].0) {
      PressFromFirst(link, table[1..]);
      if exists k :: 0 <= k < |table[1..]| && Contains(link, table[1..][k].0) && PressFrom(link, table[1..]) == table[1..][k].1
                     && forall j :: 0 <= j < k ==> !Contains(link, table[1..][j].0) {
        var k :| 0 <= k < |table[1..]| && Contains(link, table[1..][k].0) && PressFrom(link, table[1..]) == table[1..][k].1
                 && forall j :: 0 <= j < k ==> !Contains(link, table[1..][j].0);
        assert forall j :: 0 <= j < k + 1 ==> !Contains(link, table[j].0) by {
          forall j | 0 <= j < k + 1
            ensures !Contains(link, table[j].0)
          {
            if j > 0 {
              assert table[j] == table[1..][j - 1];
            }
          }
        }
        assert table[k + 1] == table[1..][k];
      } else {
        forall k | 0 <= k < |table|
          ensures !Contains(link, table[k].0)
        {
          if k > 0 {
            assert table[k] == table[1..][k - 1];
          }
        }
      }
    }
  }

  // ---------------------------------------------------------------------------
  // remove_duplicates
  // ---------------------------------------------------------------------------

  /** One row of the news frame. */
  datatype NewsItem = NewsItem(date: string, keyword: string, press: string, title: string,
                               summary: string, originalUrl: string)

  /** A character the pattern `\w` matches: a letter or digit, or '_'.
      Beyond ASCII the letters and digits are those of the blocks listed in
      LetterOrDigitBeyondAscii; every other character (punctuation, symbols,
      arrows, dashes, marks) is not a word character. */
  predicate IsWordChar(c: char) {
    ('a' <= c <= 'z') || ('A' <= c <= 'Z') || ('0' <= c <= '9') || c == '_'
    || LetterOrDigitBeyondAscii(c)
  }

  /** Letters and digits outside ASCII: Latin-1 and Latin Extended letters,
      the ordinal indicators, the micro sign, superscript digits and
      vulgar fractions; basic Greek and Cyrillic; Hangul jamo and
      syllables; kana; CJK ideographs; fullwidth letters and digits and
      halfwidth katakana. */
  predicate LetterOrDigitBeyondAscii(c: char) {
    c == '\U{AA}' || c == '\U{B2}' || c == '\U{B3}' || c == '\U{B5}' || c == '\U{B9}' || c == '\U{BA}'
    || ('\U{BC}' <= c <= '\U{BE}')
    || ('\U{C0}' <= c <= '\U{D6}') || ('\U{D8}' <= c <= '\U{F6}') || ('\U{F8}' <= c <= '\U{24F}')
    || ('\U{391}' <= c <= '\U{3A1}') || ('\U{3A3}' <= c <= '\U{3C9}')
    || ('\U{400}' <= c <= '\U{45F}')
    || ('\U{1100}' <= c <= '\U{11FF}') || ('\U{3131}' <= c <= '\U{318E}') || ('\U{AC00}' <= c <= '\U{D7A3}')
    || ('\U{3041}' <= c <= '\U{3096}') || ('\U{30A1}' <= c <= '\U{30FA}') || ('\U{30FC}' <= c <= '\U{30FF}')
    || ('\U{3400}' <= c <= '\U{4DBF}') || ('\U{4E00}' <= c <= '\U{9FFF}')
    || ('\U{FF10}' <= c <= '\U{FF19}') || ('\U{FF21}' <= c <= '\U{FF3A}') || ('\U{FF41}' <= c <= '\U{FF5A}')
    || ('\U{FF66}' <= c <= '\U{FF9F}')
  }

  /** `re.sub(r'[^\w\s]', '', s)`: only word characters and whitespace kept. */
  function WordsAndSpaces(s: string): (r: string)
    ensures forall c :: c in r ==> (IsWordChar(c) || IsSpace(c)) && c in s
  {
    if s == [] then []
    else
      assert forall c :: c in s[1..] ==> c in s;
      (if IsWordChar(s[0]) || IsSpace(s[0]) then [s[0]] else []) + WordsAndSpaces(s[1..])
  }

  /** The punctuation filter works character by character: a character
      is kept exactly when it is a word character or whitespace, and a
      concatenation is filtered piecewise. */
  lemma WordsAndSpacesFilters(a: string, b: string, c: char)
    ensures WordsAndSpaces([c]) == if IsWordChar(c) || IsSpace(c) then [c] else []
    ensures WordsAndSpaces(a + b) == WordsAndSpaces(a) + WordsAndSpaces(b)
  {
    assert [c][1..] == [];
    WordsAndSpacesAppend(a, b);
  }

  lemma {:induction false} WordsAndSpacesAppend(a: string, b: string)
    ensures WordsAndSpaces(a + b) == WordsAndSpaces(a) + WordsAndSpaces(b)
    decreases |a|
  {
    if a == [] {
      assert a + b == b;
    } else {
      var k := if IsWordChar(a[0]) || IsSpace(a[0]) then [a[0]] else [];
      var x, y := WordsAndSpaces(a[1..]), WordsAndSpaces(b);
      WordsAndSpacesAppend(a[1..], b);
      assert [a[0]] + a[1..] == a;
      AppendAssoc([a[0]], a[1..], b);
      WordsAndSpacesCons(a[0], a[1..] + b);
      WordsAndSpacesCons(a[0], a[1..]);
      assert WordsAndSpaces(a + b) == k + (x + y);
      assert WordsAndSpaces(a) == k + x;
      AppendAssoc(k, x, y);
    }
  }

  /** The filter of a character followed by a text. */
  lemma WordsAndSpacesCons(x: char, s: string)
    ensures WordsAndSpaces([x] + s)
            == (if IsWordChar(x) || IsSpace(x) then [x] else []) + WordsAndSpaces(s)
  {
    var t := [x] + s;
    assert t[0] == x && t[1..] == s;
  }

  /** Symbols, arrows and dashes are punctuation to the title key, while
      Hangul, accented Latin and fullwidth digits are word characters. */
  lemma WordCharExamples()
    ensures !IsWordChar('▲') && !IsWordChar('→') && !IsWordChar('—') && !IsWordChar('·') && !IsWordChar('…')
    ensures IsWordChar('삼') && IsWordChar('é') && IsWordChar('４') && IsWordChar('_')
  {
  }

  /** The comparison key of a title: lower-cased, punctuation removed. */
  function TitleKey(item: NewsItem): string {
    WordsAndSpaces(Lower(item.title))
  }

  /** Titles that differ only in letter case are duplicates. */
  lemma TitleKeyIgnoresCase(item: NewsItem)
    ensures TitleKey(item.(title := Upper(item.title))) == TitleKey(item)
  {
    assert Lower(Upper(item.title)) == Lower(item.title);
  }

  /** Titles that differ only by a punctuation mark are duplicates. */
  lemma {:induction false} TitleKeyIgnoresPunctuation(a: string, c: char, b: string)
    requires !IsWordChar(c) && !IsSpace(c)
    ensures WordsAndSpaces(Lower(a + [c] + b)) == WordsAndSpaces(Lower(a + b))
  {
    assert Lower(a + [c] + b) == Lower(a) + [c] + Lower(b);
    assert Lower(a + b) == Lower(a) + Lower(b);
    WordsAndSpacesSkips(Lower(a), c, Lower(b));
  }

  lemma {:induction false} WordsAndSpacesSkips(a: string, c: char, b: string)
    requires !IsWordChar(c) && !IsSpace(c)
    ensures WordsAndSpaces(a + [c] + b) == WordsAndSpaces(a + b)
    decreases |a|
  {
    var s := a + [c] + b;
    if a == [] {
      assert s[0] == c && s[1..] == b && a + b == b;
    } else {
      var t := a + b;
      assert s[0] == a[0] && s[1..] == a[1..] + [c] + b;
      assert t[0] == a[0] && t[1..] == a[1..] + b;
      WordsAndSpacesSkips(a[1..], c, b);
    }
  }

  /** remove_duplicates: the first row of each title key. */
  function RemoveDuplicates(items: seq<NewsItem>): seq<NewsItem> {
    FirstByKey(items, TitleKey)
  }

  /** The rows kept are rows of the input in their order, no two share a
      key, each is the first of its key, every key of the input is kept, and
      nothing comes from nothing. */
  lemma RemoveDuplicatesMeaning(items: seq<NewsItem>)
    ensures var r := RemoveDuplicates(items);
      IsSubsequence(r, items) && UniqueKeys(r, TitleKey)
      && (forall k :: 0 <= k < |r| ==> exists i :: 0 <= i < |items| && IsFirst(items, i, TitleKey) && r[k] == items[i])
      && (forall i :: 0 <= i < |items| ==> HasKey(r, TitleKey(items[i]), TitleKey))
      && (items == [] ==> r == [])
  {
    FirstByKeyIsSubsequence(items, TitleKey);
    forall k | 0 <= k < |RemoveDuplicates(items)|
      ensures exists i :: 0 <= i < |items| && IsFirst(items, i, TitleKey) && RemoveDuplicates(items)[k] == items[i]
    {
      FirstByKeyKeepsFirst(items, TitleKey, k);
    }
  }

  // ---------------------------------------------------------------------------
  // search_news
  // ---------------------------------------------------------------------------

  /** The largest request size the search service accepts. */
  const MAX_DISPLAY: int := 100

  /** The press filter entry that means every press. */
  const ALL_PRESS: string := "전체"

  /** One search result as the service returns it; an absent key is None. */
  datatype RawItem = RawItem(title: Option<string>, description: Option<string>, originallink: Option<string>,
                             link: Option<string>, pubDate: Option<string>)

  /** The outside world of a search: the search service (None when the
      request fails), `html.unescape`, and the parse of a publication date
      into 'YYYY-MM-DD' (None when it does not parse). */
  datatype Services = Services(search: (string, int) -> Option<seq<RawItem>>, unescape: string -> string,
                               parseDate: string -> Option<string>)

  /** The request size: `max_results`, but never more than 100. */
  function Display(maxResults: int): (r: int)
    ensures r <= MAX_DISPLAY && r <= maxResults
    ensures r == maxResults || r == MAX_DISPLAY
  {
    if maxResults < MAX_DISPLAY then maxResults else MAX_DISPLAY
  }

  /** A press passes the filter when there is no filter (None or an empty
      list), when the filter holds the every-press entry, or when it names
      the press. */
  predicate PassesFilter(press: string, filter: Option<seq<string>>) {
    filter.None? || filter.value == [] || ALL_PRESS in filter.value || press in filter.value
  }

  function GetOr(v: Option<string>, default: string): string {
    if v.Some? then v.value else default
  }

  /** The row of one result: cleaned title and summary, the original link
      (the plain link only when there is none), the parsed date or the search
      date, and the press of the link. */
  function ItemOf(keyword: string, raw: RawItem, searchDate: string, env: Services): (r: NewsItem)
    ensures r.keyword == keyword
    ensures r.press == PressName(r.originalUrl)
  {
    var url := if raw.originallink.Some? then raw.originallink.value else GetOr(raw.link, "");
    var date := match env.parseDate(GetOr(raw.pubDate, "")) case Some(d) => d case None => searchDate;
    NewsItem(date, keyword, PressName(url), CleanHtmlTags(GetOr(raw.title, ""), env.unescape),
             CleanHtmlTags(GetOr(raw.description, ""), env.unescape), url)
  }

  /** The rows of one keyword's results that pass the press filter, in order. */
  function KeywordNews(keyword: string, raws: seq<RawItem>, filter: Option<seq<string>>, searchDate: string,
                       env: Services): seq<NewsItem>
  {
    if raws == [] then []
    else
      var item := ItemOf(keyword, raws[|raws| - 1], searchDate, env);
      KeywordNews(keyword, raws[..|raws| - 1], filter, searchDate, env)
        + (if PassesFilter(item.press, filter) then [item] else [])
  }

  /** The rows of every keyword in turn, before duplicates are removed; a
      keyword whose request fails contributes nothing. */
  function Gathered(keywords: seq<string>, maxResults: int, filter: Option<seq<string>>, searchDate: string,
                    env: Services): seq<NewsItem>
  {
    if keywords == [] then []
    else
      var keyword := keywords[|keywords| - 1];
      Gathered(keywords[..|keywords| - 1], maxResults, filter, searchDate, env)
        + match env.search(keyword, Display(maxResults))
          case None => []
          case Some(raws) => KeywordNews(keyword, raws, filter, searchDate, env)
  }

  /** Every row of a keyword's results passes the filter and carries the
      keyword. */
  lemma {:induction false} KeywordNewsFiltered(keyword: string, raws: seq<RawItem>, filter: Option<seq<string>>,
                                               searchDate: string, env: Services)
    ensures forall x :: x in KeywordNews(keyword, raws, filter, searchDate, env) ==>
      x.keyword == keyword && PassesFilter(x.press, filter) && x.press == PressName(x.originalUrl)
    decreases |raws|
  {
    if raws != [] {
      KeywordNewsFiltered(keyword, raws[..|raws| - 1], filter, searchDate, env);
    }
  }

  lemma {:induction false} GatheredFiltered(keywords: seq<string>, maxResults: int, filter: Option<seq<string>>,
                                            searchDate: string, env: Services)
    ensures forall x :: x in Gathered(keywords, maxResults, filter, searchDate, env) ==>
      x.keyword in keywords && PassesFilter(x.press, filter) && x.press == PressName(x.originalUrl)
    decreases |keywords|
  {
    if keywords != [] {
      var keyword := keywords[|keywords| - 1];
      GatheredFiltered(keywords[..|keywords| - 1], maxResults, filter, searchDate, env);
      var raws := env.search(keyword, Display(maxResults));
      if raws.Some? {
        KeywordNewsFiltered(keyword, raws.value, filter, searchDate, env);
      }
    }
  }

  /** The inner loop of search_news over one keyword's results. */
  method KeywordRows(keyword: string, raws: seq<RawItem>, filter: Option<seq<string>>, searchDate: string,
                     env: Services)
    returns (rows: seq<NewsItem>)
    ensures rows == KeywordNews(keyword, raws, filter, searchDate, env)
  {
    rows := [];
    for j := 0 to |raws|
      invariant rows == KeywordNews(keyword, raws[..j], filter, searchDate, env)
    {
      assert raws[..j + 1][..j] == raws[..j];
      var item := ItemOf(keyword, raws[j], searchDate, env);
      if !PassesFilter(item.press, filter) {
        continue;
      }
      rows := rows + [item];
    }
    assert raws[..|raws|] == raws;
  }

  /** search_news: nothing without credentials; otherwise for each keyword a
      request of Display(maxResults) results, each kept as a row when its
      press passes the filter, and finally the duplicate titles removed. */
  method SearchNews(keywords: seq<string>, maxResults: int, filter: Option<seq<string>>, searchDate: string,
                    hasCredentials: bool, env: Services)
    returns (news: seq<NewsItem>)
    ensures news == if hasCredentials then RemoveDuplicates(Gathered(keywords, maxResults, filter, searchDate, env)) else []
  {
    if !hasCredentials {
      return [];
    }
    var all: seq<NewsItem> := [];
    for i := 0 to |keywords|
      invariant all == Gathered(keywords[..i], maxResults, filter, searchDate, env)
    {
      var keyword := keywords[i];
      assert keywords[..i + 1][..i] == keywords[..i];
      var response := env.search(keyword, Display(maxResults));
      if response.None? {
        continue;
      }
      var rows := KeywordRows(keyword, response.value, filter, searchDate, env);
      all := all + rows;
    }
    assert keywords[..|keywords|] == keywords;
    news := if all != [] then RemoveDuplicates(all) else all;
  }

  /** Every row found passes the press filter, belongs to a searched keyword
      and names the press of its link. */
  lemma SearchNewsFiltered(keywords: seq<string>, maxResults: int, filter: Option<seq<string>>, searchDate: string,
                           env: Services)
    ensures forall x :: x in RemoveDuplicates(Gathered(keywords, maxResults, filter, searchDate, env)) ==>
      x.keyword in keywords && PassesFilter(x.press, filter) && x.press == PressName(x.originalUrl)
  {
    GatheredFiltered(keywords, maxResults, filter, searchDate, env);
  }

  // ---------------------------------------------------------------------------
  // send_news_to_telegram
  // ---------------------------------------------------------------------------

  /** Messages longer than this are cut. */
  const MESSAGE_LIMIT: nat := 4000

  /** The keyword of every row, in order. */
  function Keywords(news: seq<NewsItem>): (r: seq<string>)
    ensures |r| == |news| && forall k :: 0 <= k < |news| ==> r[k] == news[k].keyword
  {
    seq(|news|, k requires 0 <= k < |news| => news[k].keyword)
  }

  /** `df['keyword'].unique()`: each keyword once, in order of first row. */
  function UniqueKeywords(news: seq<NewsItem>): seq<string> {
    FirstByKey(Keywords(news), (w: string) => w)
  }

  /** The rows whose keyword is in `wanted` (`isin`). */
  function OfKeywords(news: seq<NewsItem>, wanted: seq<string>): (r: seq<NewsItem>)
    ensures forall x {:trigger x in r} :: x in r <==> x in news && x.keyword in wanted
  {
    if news == [] then []
    else OfKeywords(news[..|news| - 1], wanted) + (if news[|news| - 1].keyword in wanted then [news[|news| - 1]] else [])
  }

  /** Selecting by keyword works row by row: a row is kept exactly when
      its keyword is wanted, and a concatenation is selected piecewise. */
  lemma OfKeywordsFilters(a: seq<NewsItem>, b: seq<NewsItem>, x: NewsItem, wanted: seq<string>)
    ensures OfKeywords([x], wanted) == if x.keyword in wanted then [x] else []
    ensures OfKeywords(a + b, wanted) == OfKeywords(a, wanted) + OfKeywords(b, wanted)
  {
    assert [x][..0] == [];
    OfKeywordsAppend(a, b, wanted);
  }

  lemma {:induction false} OfKeywordsAppend(a: seq<NewsItem>, b: seq<NewsItem>, wanted: seq<string>)
    ensures OfKeywords(a + b, wanted) == OfKeywords(a, wanted) + OfKeywords(b, wanted)
    decreases |b|
  {
    if b == [] {
      assert a + b == a;
    } else {
      var p := b[..|b| - 1];
      var y := b[|b| - 1];
      OfKeywordsAppend(a, p, wanted);
      assert a + b == (a + p) + [y];
      assert b == p + [y];
      OfKeywordsSnoc(a + p, y, wanted);
      OfKeywordsSnoc(p, y, wanted);
    }
  }

  /** The selection of rows followed by one more row. */
  lemma OfKeywordsSnoc(s: seq<NewsItem>, y: NewsItem, wanted: seq<string>)
    ensures OfKeywords(s + [y], wanted) == OfKeywords(s, wanted) + if y.keyword in wanted then [y] else []
  {
    var t := s + [y];
    assert t[..|t| - 1] == s && t[|t| - 1] == y;
  }

  /** The rows considered: all of them, or those of the keywords to send
      when that list is given and not empty. */
  function Selected(news: seq<NewsItem>, keywordsToSend: Option<seq<string>>): seq<NewsItem> {
    if keywordsToSend.Some? && keywordsToSend.value != [] then OfKeywords(news, keywordsToSend.value) else news
  }

  /** The rows of one keyword, in order. */
  function Group(news: seq<NewsItem>, keyword: string): (r: seq<NewsItem>)
    ensures forall x {:trigger x in r} :: x in r <==> x in news && x.keyword == keyword
  {
    if news == [] then []
    else Group(news[..|news| - 1], keyword) + (if news[|news| - 1].keyword == keyword then [news[|news| - 1]] else [])
  }

  /** Grouping works row by row: a row joins the group exactly when it has
      the keyword, and a concatenation is grouped piecewise. */
  lemma GroupFilters(a: seq<NewsItem>, b: seq<NewsItem>, x: NewsItem, keyword: string)
    ensures Group([x], keyword) == if x.keyword == keyword then [x] else []
    ensures Group(a + b, keyword) == Group(a, keyword) + Group(b, keyword)
  {
    assert [x][..0] == [];
    GroupAppend(a, b, keyword);
  }

  lemma {:induction false} GroupAppend(a: seq<NewsItem>, b: seq<NewsItem>, keyword: string)
    ensures Group(a + b, keyword) == Group(a, keyword) + Group(b, keyword)
    decreases |b|
  {
    if b == [] {
      assert a + b == a;
    } else {
      var p := b[..|b| - 1];
      var y := b[|b| - 1];
      GroupAppend(a, p, keyword);
      assert a + b == (a + p) + [y];
      assert b == p + [y];
      GroupSnoc(a + p, y, keyword);
      GroupSnoc(p, y, keyword);
    }
  }

  /** The group of rows followed by one more row. */
  lemma GroupSnoc(s: seq<NewsItem>, y: NewsItem, keyword: string)
    ensures Group(s + [y], keyword) == Group(s, keyword) + if y.keyword == keyword then [y] else []
  {
    var t := s + [y];
    assert t[..|t| - 1] == s && t[|t| - 1] == y;
  }

  /** pandas `head(n)`: the first n rows, or for a negative n all but the
      last -n rows. */
  function Head(rows: seq<NewsItem>, n: int): (r: seq<NewsItem>)
    ensures |r| <= |rows| && r == rows[..|r|]
    ensures 0 <= n ==> |r| == if n < |rows| then n else |rows|
    ensures n < 0 ==> |r| == if |rows| + n < 0 then 0 else |rows| + n
  {
    if 0 <= n then (if n < |rows| then rows[..n] else rows)
    else if |rows| + n < 0 then [] else rows[..|rows| + n]
  }

  /** The keyword and the rows of each message, in keyword order. */
  function Batches(news: seq<NewsItem>, maxNews: int, keywordsToSend: Option<seq<string>>)
    : (r: seq<(string, seq<NewsItem>)>)
    ensures |r| == |UniqueKeywords(Selected(news, keywordsToSend))|
  {
    var sel := Selected(news, keywordsToSend);
    var kws := UniqueKeywords(sel);
    seq(|kws|, k requires 0 <= k < |kws| => (kws[k], Head(Group(sel, kws[k]), maxNews)))
  }

  /** The header line of a keyword's message. */
  function Header(keyword: string, count: nat): string {
    "<b>📰 [" + keyword + "] 뉴스 (" + NatToString(count) + "건)</b>\n"
  }

  /** The line of one row: a link with the title, then the press when there
      is one. */
  function NewsLine(x: NewsItem): string {
    "• <a href='" + x.originalUrl + "'>" + x.title + "</a>" + (if x.press != "" then " (" + x.press + ")" else "")
  }

  function NewsLines(rows: seq<NewsItem>): (r: seq<string>)
    ensures |r| == |rows|
  {
    seq(|rows|, k requires 0 <= k < |rows| => NewsLine(rows[k]))
  }

  /** The header and one line per row, joined by newlines. */
  function Message(keyword: string, rows: seq<NewsItem>): string {
    Join([Header(keyword, |rows|)] + NewsLines(rows), '\n')
  }

  /** A message over the limit becomes its first 4000 characters and a
      newline with an ellipsis; a shorter one is sent as it is. */
  function Fit(message: string): (r: string)
    ensures |r| <= MESSAGE_LIMIT + 4
    ensures |message| <= MESSAGE_LIMIT ==> r == message
    ensures |message| > MESSAGE_LIMIT ==> r == message[..MESSAGE_LIMIT] + "\n..."
  {
    if |message| > MESSAGE_LIMIT then message[..MESSAGE_LIMIT] + "\n..." else message
  }

  /** The rows counted as sent among the first n batches: those of the
      batches whose message was delivered. */
  function SentTotal(batches: seq<(string, seq<NewsItem>)>, delivered: nat -> bool, n: nat): nat
    requires n <= |batches|
  {
    if n == 0 then 0
    else SentTotal(batches, delivered, n - 1) + (if delivered(n - 1) then |batches[n - 1].1| else 0)
  }

  /** The message of each batch, in order. */
  function Messages(batches: seq<(string, seq<NewsItem>)>): (r: seq<string>)
    ensures |r| == |batches|
  {
    if batches == [] then []
    else Messages(batches[..|batches| - 1]) + [Fit(Message(batches[|batches| - 1].0, batches[|batches| - 1].1))]
  }

  /** The k-th message is the header and lines of the k-th keyword's rows,
      cut to the limit. */
  lemma {:induction false} MessagesAt(batches: seq<(string, seq<NewsItem>)>, k: nat)
    requires k < |batches|
    ensures Messages(batches)[k] == Fit(Message(batches[k].0, batches[k].1))
    decreases |batches|
  {
    if k < |batches| - 1 {
      MessagesAt(batches[..|batches| - 1], k);
    }
  }

  /** The sending loop: one message per batch, cut to the limit; the k-th
      message reaches the chat when `delivered(k)`, and only then are its
      rows counted. */
  method SendBatches(batches: seq<(string, seq<NewsItem>)>, delivered: nat -> bool)
    returns (sentCount: nat, messages: seq<string>)
    ensures messages == Messages(batches) && sentCount == SentTotal(batches, delivered, |batches|)
  {
    sentCount, messages := 0, [];
    for k := 0 to |batches|
      invariant messages == Messages(batches[..k])
      invariant sentCount == SentTotal(batches, delivered, k)
    {
      var (keyword, rows) := batches[k];
      assert batches[..k + 1][..k] == batches[..k];
      messages := messages + [Fit(Message(keyword, rows))];
      if delivered(k) {
        sentCount := sentCount + |rows|;
      }
    }
    assert batches[..|batches|] == batches;
  }

  /** send_news_to_telegram: nothing for an empty frame, otherwise one
      message per keyword of the selected rows with at most `max_news` of
      that keyword's rows. */
  method SendNews(news: seq<NewsItem>, maxNews: int, keywordsToSend: Option<seq<string>>, delivered: nat -> bool)
    returns (sentCount: nat, messages: seq<string>)
    ensures var batches := Batches(news, maxNews, keywordsToSend);
      messages == Messages(batches) && sentCount == SentTotal(batches, delivered, |batches|)
  {
    if news == [] {
      return 0, [];
    }
    sentCount, messages := SendBatches(Batches(news, maxNews, keywordsToSend), delivered);
  }

  /** Each message is about a distinct keyword and carries only that
      keyword's rows, at most `max_news` of them, taken from the rows
      selected; with keywords to send, only those keywords appear. */
  lemma BatchesShape(news: seq<NewsItem>, maxNews: int, keywordsToSend: Option<seq<string>>)
    ensures var batches := Batches(news, maxNews, keywordsToSend);
      (forall i, j :: 0 <= i < j < |batches| ==> batches[i].0 != batches[j].0)
      && (forall k :: 0 <= k < |batches| ==> 0 <= maxNews ==> |batches[k].1| <= maxNews)
      && (forall k, x :: 0 <= k < |batches| && x in batches[k].1 ==> x in news && x.keyword == batches[k].0)
      && (keywordsToSend.Some? && keywordsToSend.value != [] ==>
            forall k :: 0 <= k < |batches| ==> batches[k].0 in keywordsToSend.value)
  {
    var sel := Selected(news, keywordsToSend);
    var kws := UniqueKeywords(sel);
    var batches := Batches(news, maxNews, keywordsToSend);
    forall k | 0 <= k < |batches|
      ensures keywordsToSend.Some? && keywordsToSend.value != [] ==> batches[k].0 in keywordsToSend.value
      ensures forall x :: x in batches[k].1 ==> x in news && x.keyword == batches[k].0
    {
      assert kws[k] in Keywords(sel);
      var i :| 0 <= i < |sel| && Keywords(sel)[i] == kws[k];
      assert sel[i] in sel;
      var group := Group(sel, kws[k]);
      forall x | x in batches[k].1
        ensures x in news && x.keyword == batches[k].0
      {
        assert batches[k].1 == group[..|batches[k].1|];
        assert x in group;
      }
    }
  }

  /** Every keyword of the rows considered gets its message. */
  lemma BatchesCover(news: seq<NewsItem>, maxNews: int, keywordsToSend: Option<seq<string>>, x: NewsItem)
    requires x in Selected(news, keywordsToSend)
    ensures var batches := Batches(news, maxNews, keywordsToSend);
      exists k :: 0 <= k < |batches| && batches[k].0 == x.keyword
  {
    var sel := Selected(news, keywordsToSend);
    var kws := UniqueKeywords(sel);
    var batches := Batches(news, maxNews, keywordsToSend);
    var i :| 0 <= i < |sel| && sel[i] == x;
    assert HasKey(kws, Keywords(sel)[i], (w: string) => w);
    var k :| 0 <= k < |kws| && kws[k] == x.keyword;
    assert batches[k].0 == x.keyword;
  }

  /** Batches of at most `limit` rows each: the delivered ones among the
      first n hold at most n * limit rows. */
  lemma {:induction false} SentTotalBound(batches: seq<(string, seq<NewsItem>)>, limit: nat, delivered: nat -> bool, n: nat)
    requires n <= |batches|
    requires forall k :: 0 <= k < |batches| ==> |batches[k].1| <= limit
    ensures SentTotal(batches, delivered, n) <= n * limit
  {
    if n > 0 {
      SentTotalBound(batches, limit, delivered, n - 1);
    }
  }

  /** The count returned never exceeds `max_news` per keyword. */
  lemma SentCountBound(news: seq<NewsItem>, maxNews: nat, keywordsToSend: Option<seq<string>>, delivered: nat -> bool)
    ensures var batches := Batches(news, maxNews, keywordsToSend);
      SentTotal(batches, delivered, |batches|) <= |batches| * maxNews
  {
    var batches := Batches(news, maxNews, keywordsToSend);
    BatchesShape(news, maxNews, keywordsToSend);
    SentTotalBound(batches, maxNews, delivered, |batches|);
  }

  // ---------------------------------------------------------------------------
  // save_to_excel: one sheet per keyword
  // ---------------------------------------------------------------------------

  /** Characters a sheet name may not hold. */
  predicate SheetForbidden(c: char) {
    c == '\\' || c == '/' || c == '*' || c == '?' || c == ':' || c == '[' || c == ']'
  }

  /** The keyword with every forbidden character removed. */
  function DropForbidden(s: string): (r: string)
    ensures |r| <= |s|
    ensures forall c :: c in r ==> !SheetForbidden(c) && c in s
  {
    if s == [] then []
    else
      assert forall c :: c in s[1..] ==> c in s;
      (if SheetForbidden(s[0]) then [] else [s[0]]) + DropForbidden(s[1..])
  }

  /** Dropping forbidden characters works character by character: a
      character is kept exactly when it is allowed, and a concatenation is
      cleaned piecewise. */
  lemma {:induction false} DropForbiddenFilters(a: string, b: string, c: char)
    ensures DropForbidden([c]) == if SheetForbidden(c) then [] else [c]
    ensures DropForbidden(a + b) == DropForbidden(a) + DropForbidden(b)
    decreases |a|
  {
    assert [c][1..] == [];
    if a == [] {
      assert a + b == b;
    } else {
      assert (a + b)[0] == a[0] && (a + b)[1..] == a[1..] + b;
      DropForbiddenFilters(a[1..], b, c);
    }
  }

  lemma {:induction false} DropForbiddenClean(s: string)
    requires forall c :: c in s ==> !SheetForbidden(c)
    ensures DropForbidden(s) == s
    decreases |s|
  {
    if s != [] {
      assert forall c :: c in s[1..] ==> c in s;
      DropForbiddenClean(s[1..]);
      assert [s[0]] + s[1..] == s;
    }
  }

  const SHEET_NAME_LIMIT: nat := 31

  /** The sheet name of a keyword: the forbidden characters dropped, then
      the first 31 characters. */
  function KeywordSheetName(keyword: string): (r: string)
    ensures |r| <= SHEET_NAME_LIMIT
    ensures forall c :: c in r ==> !SheetForbidden(c) && c in keyword
    ensures |r| == if |DropForbidden(keyword)| < SHEET_NAME_LIMIT then |DropForbidden(keyword)| else SHEET_NAME_LIMIT
    ensures r == DropForbidden(keyword)[..|r|]
  {
    var d := DropForbidden(keyword);
    if |d| <= SHEET_NAME_LIMIT then d else d[..SHEET_NAME_LIMIT]
  }

  /** A sheet name is its own sheet name. */
  lemma KeywordSheetNameStable(keyword: string)
    ensures KeywordSheetName(KeywordSheetName(keyword)) == KeywordSheetName(keyword)
  {
    DropForbiddenClean(KeywordSheetName(keyword));
  }
}
