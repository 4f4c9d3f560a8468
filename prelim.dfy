/** The preliminary-earnings (잠정실적) pipeline of the KIND script: cleaning
    of numeric and turnaround cells, scoring every table of a filing and
    selecting the earnings table, mapping its rows onto the fixed
    metric/scope vocabulary, and the wide summary ordered by that vocabulary.
    Tables arrive already extracted from the HTML, one `Cell` per value. */
module Prelim {
  import opened Strings
  import opened Optional
  import opened StableSort

  /** One value of a table as `pandas.read_html` gives it: NaN, a string, or
      a number together with its printed form `str(value)`. */
  datatype Cell = Missing | Text(s: string) | Num(value: Decimal, shown: string)

  // ---------------------------------------------------------------------------
  // clean_numeric
  // ---------------------------------------------------------------------------

  /** A number written in decimal, kept exact: `units / 10^scale`. */
  datatype Decimal = Decimal(units: int, scale: nat)

  /** The number `intPart.fracPart`. */
  function DecimalOf(intPart: string, fracPart: string): Decimal
    requires AllDigits(intPart) && AllDigits(fracPart)
  {
    AllDigitsConcat(intPart, fracPart);
    Decimal(DigitsValue(intPart + fracPart), |fracPart|)
  }

  /** An unsigned decimal literal: digits with at most one point and at
      least one digit ('12', '12.5', '.5', '5.'). */
  function ParseUnsigned(body: string): Option<Decimal> {
    var dot := IndexOf(body, '.');
    var intPart := body[..dot];
    var fracPart := if dot < |body| then body[dot + 1..] else "";
    if |intPart| + |fracPart| >= 1 && AllDigits(intPart) && AllDigits(fracPart) then
      Some(DecimalOf(intPart, fracPart))
    else None
  }

  function Negated(r: Option<Decimal>): Option<Decimal> {
    match r
    case None => None
    case Some(v) => Some(Decimal(-v.units, v.scale))
  }

  /** Python's `float(s)` on decimal literals: surrounding whitespace, an
      optional sign, then an unsigned literal. Anything else is None where
      Python raises ValueError. */
  function ParseDecimal(s: string): (r: Option<Decimal>)
    ensures r.Some? ==> Strip(s) != ""
  {
    var t := Strip(s);
    if |t| > 0 && t[0] == '-' then Negated(ParseUnsigned(t[1..]))
    else if |t| > 0 && t[0] == '+' then ParseUnsigned(t[1..])
    else ParseUnsigned(t)
  }

  lemma DigitsHaveNoPoint(d: string)
    requires AllDigits(d)
    ensures NoSpace(d) && '.' !in d
  {
    forall k | 0 <= k < |d| ensures !IsSpace(d[k]) && d[k] != '.' {
      assert IsDigit(d[k]);
    }
  }

  /** A non-empty run of digits is the number it denotes. */
  lemma ParseUnsignedDigits(d: string)
    requires AllDigits(d) && |d| >= 1
    ensures ParseUnsigned(d) == Some(Decimal(DigitsValue(d), 0))
  {
    DigitsHaveNoPoint(d);
    assert d[..|d|] == d;
    assert d + "" == d;
  }

  /** Digits, a point and digits are the decimal they write. */
  lemma ParseUnsignedPoint(intPart: string, fracPart: string)
    requires AllDigits(intPart) && AllDigits(fracPart) && |intPart| + |fracPart| >= 1
    ensures ParseUnsigned(intPart + "." + fracPart) == Some(DecimalOf(intPart, fracPart))
  {
    var b := intPart + "." + fracPart;
    DigitsHaveNoPoint(intPart);
    assert IndexOf(b, '.') == |intPart| by {
      forall k | 0 <= k < |intPart| ensures b[k] != '.' { assert b[k] == intPart[k]; }
    }
    assert b[..|intPart|] == intPart && b[|intPart| + 1..] == fracPart;
  }

  /** Text without whitespace that starts with a digit is parsed unsigned. */
  lemma ParseDecimalUnsigned(t: string)
    requires NoSpace(t) && |t| > 0 && IsDigit(t[0])
    ensures ParseDecimal(t) == ParseUnsigned(t)
  {
    StripNoSpace(t);
  }

  /** Text without whitespace that starts with `-` is parsed unsigned and
      negated. */
  lemma ParseDecimalMinus(t: string)
    requires NoSpace(t) && |t| > 0 && t[0] == '-'
    ensures ParseDecimal(t) == Negated(ParseUnsigned(t[1..]))
  {
    StripNoSpace(t);
  }

  /** A string of decimal digits parses as the number it denotes. */
  lemma ParseDecimalDigits(d: string)
    requires AllDigits(d) && |d| >= 1
    ensures ParseDecimal(d) == Some(Decimal(DigitsValue(d), 0))
  {
    DigitsHaveNoPoint(d);
    assert IsDigit(d[0]);
    ParseDecimalUnsigned(d);
    ParseUnsignedDigits(d);
  }

  /** A `-` followed by decimal digits parses as the negative of the number
      `n` they denote. */
  lemma ParseDecimalNegativeDigits(d: string, n: nat)
    requires AllDigits(d) && |d| >= 1 && n == DigitsValue(d)
    ensures ParseDecimal("-" + d) == Some(Decimal(-(n as int), 0))
  {
    var m := "-" + d;
    MinusDigits(d);
    assert m[0] == '-';
    ParseDecimalMinus(m);
    ParseUnsignedDigits(d);
    NegatedWhole(ParseUnsigned(d), n);
  }

  lemma NegatedWhole(r: Option<Decimal>, n: nat)
    requires r == Some(Decimal(n, 0))
    ensures Negated(r) == Some(Decimal(-(n as int), 0))
  {
  }

  /** A minus sign before digits: no whitespace, and the digits follow it. */
  lemma MinusDigits(d: string)
    requires AllDigits(d)
    ensures NoSpace("-" + d) && ("-" + d)[1..] == d
  {
    var m := "-" + d;
    assert m[1..] == d;
    forall k | 0 <= k < |m| ensures !IsSpace(m[k]) {
      if k > 0 { assert m[k] == d[k - 1]; }
    }
  }

  /** `'(x)'` becomes `'-x'`; everything else is left alone. */
  function Unparenthesise(t: string): string {
    if |t| >= 2 && StartsWith(t, "(") && EndsWith(t, ")") then "-" + t[1..|t| - 1] else t
  }

  /** The text clean_numeric hands to `float()`. */
  function NumericText(s: string): string {
    Unparenthesise(Ungrouped(Strip(s)))
  }

  /** clean_numeric: NaN, `''` and `'-'` are no number; otherwise the text is
      stripped, its `,` and `%` dropped, a parenthesised amount negated, and
      what does not parse as a decimal is no number. */
  function CleanNumeric(c: Cell): (r: Option<Decimal>)
    ensures c.Missing? ==> r.None?
    ensures c == Text("") || c == Text("-") ==> r.None?
    ensures c.Num? ==> r == Some(c.value)
  {
    match c
    case Missing => None
    case Num(v, _) => Some(v)
    case Text(s) =>
      if s == "-" || s == "" then None
      else ParseDecimal(NumericText(s))
  }

  lemma RemoveCharKeeps(s: string, c: char, x: char)
    requires x in s && x != c
    ensures x in RemoveChar(s, c)
  {
    if s[0] != x {
      RemoveCharKeeps(s[1..], c, x);
    }
  }

  lemma {:induction false} RemoveCharConcat(a: string, b: string, c: char)
    ensures RemoveChar(a + b, c) == RemoveChar(a, c) + RemoveChar(b, c)
    decreases |a|
  {
    if a != [] {
      assert (a + b)[0] == a[0];
      assert (a + b)[1..] == a[1..] + b;
      RemoveCharConcat(a[1..], b, c);
    } else {
      assert a + b == b;
    }
  }

  lemma {:induction false} RemoveCharAbsent(s: string, c: char)
    requires c !in s
    ensures RemoveChar(s, c) == s
    decreases |s|
  {
    if s != [] {
      RemoveCharAbsent(s[1..], c);
    }
  }

  /** The digits of a cell once its `,` and `%` are dropped. */
  function Ungrouped(s: string): string {
    RemoveChar(RemoveChar(s, ','), '%')
  }

  /** Text that is digits once its `,` and `%` are dropped is made of digits,
      commas and percent signs, so it has no whitespace, and it is neither
      empty nor a dash. */
  lemma OnlyDigitsCommasPercents(s: string)
    requires AllDigits(Ungrouped(s)) && |Ungrouped(s)| >= 1
    ensures NoSpace(s) && s != "" && s != "-"
  {
    var d := Ungrouped(s);
    forall k | 0 <= k < |s|
      ensures IsDigit(s[k]) || s[k] == ',' || s[k] == '%'
    {
      var x := s[k];
      if x != ',' && x != '%' {
        RemoveCharKeeps(s, ',', x);
        RemoveCharKeeps(RemoveChar(s, ','), '%', x);
        var j :| 0 <= j < |d| && d[j] == x;
        assert IsDigit(d[j]);
      }
    }
  }

  /** Any text that is digits once its thousands separators and percent
      signs are dropped ('1,234', '25%') cleans to the number of those
      digits. */
  lemma CleanNumericDigits(s: string)
    requires AllDigits(Ungrouped(s)) && |Ungrouped(s)| >= 1
    ensures CleanNumeric(Text(s)) == Some(Decimal(DigitsValue(Ungrouped(s)), 0))
  {
    OnlyDigitsCommasPercents(s);
    var d := Ungrouped(s);
    StripNoSpace(s);
    assert IsDigit(d[0]);
    assert NumericText(s) == d;
    ParseDecimalDigits(d);
  }

  lemma UnparenthesiseWrapped(q: string)
    requires |q| >= 2 && q[0] == '(' && q[|q| - 1] == ')'
    ensures Unparenthesise(q) == "-" + q[1..|q| - 1]
  {
    assert q[..1] == "(";
    assert q[|q| - 1..] == ")";
  }

  /** Text other than '' and '-' is cleaned by parsing its numeric text. */
  lemma CleanNumericText(s: string)
    requires s != "" && s != "-"
    ensures CleanNumeric(Text(s)) == ParseDecimal(NumericText(s))
  {
  }

  /** An amount in parentheses cleans to -n, where n is the number its
      digits denote once white space around it, `,` and `%` are dropped:
      '(1,234)', ' (500) ' and '(500)%' alike. */
  lemma CleanNumericParenthesised(s: string, d: string, n: nat)
    requires AllDigits(d) && |d| >= 1 && n == DigitsValue(d)
    requires Ungrouped(Strip(s)) == "(" + d + ")"
    ensures CleanNumeric(Text(s)) == Some(Decimal(-(n as int), 0))
  {
    NotBlankOrDash(s, "(" + d + ")");
    NumericTextWrapped(s, d);
    ParseDecimalNegativeDigits(d, n);
    CleanNumericText(s);
  }

  /** The first rule stated on the printed number `n`. */
  lemma CleanNumericNat(s: string, n: nat)
    requires Ungrouped(s) == NatToString(n)
    ensures CleanNumeric(Text(s)) == Some(Decimal(n, 0))
  {
    CleanNumericDigits(s);
  }

  /** A decimal literal `intPart.fracPart` has no whitespace and starts with
      neither a sign nor a parenthesis. */
  lemma PointLiteral(intPart: string, fracPart: string)
    requires AllDigits(intPart) && AllDigits(fracPart)
    ensures var t := intPart + "." + fracPart;
      NoSpace(t) && t[0] != '-' && t[0] != '+' && t[0] != '('
  {
    var t := intPart + "." + fracPart;
    forall k | 0 <= k < |t| ensures !IsSpace(t[k]) && (k == 0 ==> t[k] != '-' && t[k] != '+' && t[k] != '(') {
      if k < |intPart| { assert t[k] == intPart[k]; assert IsDigit(t[k]); }
      else if k > |intPart| { assert t[k] == fracPart[k - |intPart| - 1]; assert IsDigit(t[k]); }
    }
  }

  /** Text whose cleaned form has two characters or more is neither `''`
      nor `'-'`. */
  lemma NotBlankOrDash(s: string, t: string)
    requires Ungrouped(Strip(s)) == t && |t| >= 2
    ensures s != "" && s != "-"
  {
    StripNoSpace("-");
    RemoveCharAbsent("-", ',');
    RemoveCharAbsent("-", '%');
    assert Ungrouped(Strip("-")) == "-";
  }

  /** Any cell whose text, once stripped and freed of `,` and `%`, is a
      decimal literal ('12.5%', ' 3.0 ') cleans to the value of that literal. */
  lemma CleanNumericPoint(s: string, intPart: string, fracPart: string)
    requires AllDigits(intPart) && AllDigits(fracPart) && |intPart| + |fracPart| >= 1
    requires Ungrouped(Strip(s)) == intPart + "." + fracPart
    ensures CleanNumeric(Text(s)) == Some(DecimalOf(intPart, fracPart))
  {
    var t := intPart + "." + fracPart;
    PointLiteral(intPart, fracPart);
    NotBlankOrDash(s, t);
    assert NumericText(s) == t;
    StripNoSpace(t);
    ParseUnsignedPoint(intPart, fracPart);
  }

  /** Cleaned text in parentheses is handed to `float()` negated. */
  lemma NumericTextWrapped(s: string, t: string)
    requires Ungrouped(Strip(s)) == "(" + t + ")"
    ensures NumericText(s) == "-" + t
  {
    var q := "(" + t + ")";
    assert q[1..|q| - 1] == t;
    UnparenthesiseWrapped(q);
  }

  /** `-intPart.fracPart` parses as the negated decimal. */
  lemma ParseMinusPoint(intPart: string, fracPart: string)
    requires AllDigits(intPart) && AllDigits(fracPart) && |intPart| + |fracPart| >= 1
    ensures ParseDecimal("-" + (intPart + "." + fracPart))
            == Some(Decimal(-DecimalOf(intPart, fracPart).units, |fracPart|))
  {
    var t := intPart + "." + fracPart;
    PointLiteral(intPart, fracPart);
    MinusNoSpace(t);
    ParseDecimalMinus("-" + t);
    ParseUnsignedPoint(intPart, fracPart);
    NegatedPoint(ParseUnsigned(t), intPart, fracPart);
  }

  lemma NegatedPoint(r: Option<Decimal>, intPart: string, fracPart: string)
    requires AllDigits(intPart) && AllDigits(fracPart)
    requires r == Some(DecimalOf(intPart, fracPart))
    ensures Negated(r) == Some(Decimal(-DecimalOf(intPart, fracPart).units, |fracPart|))
  {
  }

  /** A minus sign before text without whitespace adds none. */
  lemma MinusNoSpace(t: string)
    requires NoSpace(t)
    ensures var m := "-" + t; NoSpace(m) && |m| > 0 && m[0] == '-' && m[1..] == t
  {
    var m := "-" + t;
    assert m[1..] == t;
    forall k | 0 <= k < |m| ensures !IsSpace(m[k]) {
      if k > 0 { assert m[k] == t[k - 1]; }
    }
  }

  /** A parenthesised decimal literal ('(1.5)', '(2.0%)') cleans to the
      negative of its value. */
  lemma CleanNumericParenthesisedPoint(s: string, intPart: string, fracPart: string)
    requires AllDigits(intPart) && AllDigits(fracPart) && |intPart| + |fracPart| >= 1
    requires Ungrouped(Strip(s)) == "(" + intPart + "." + fracPart + ")"
    ensures CleanNumeric(Text(s)) == Some(Decimal(-DecimalOf(intPart, fracPart).units, |fracPart|))
  {
    var t := intPart + "." + fracPart;
    assert "(" + intPart + "." + fracPart + ")" == "(" + t + ")";
    NotBlankOrDash(s, "(" + t + ")");
    NumericTextWrapped(s, t);
    ParseMinusPoint(intPart, fracPart);
  }

  // ---------------------------------------------------------------------------
  // standardize_turnaround
  // ---------------------------------------------------------------------------

  const TURNED_PROFIT := "흑자전환"
  const TURNED_LOSS := "적자전환"

  predicate MentionsProfit(t: string) {
    Contains(t, "흑자") || Contains(t, "흑전")
  }

  predicate MentionsLoss(t: string) {
    Contains(t, "적자") || Contains(t, "적전")
  }

  /** The label for the stripped text `t` of a turnaround cell. */
  function TurnaroundOfText(raw: string): (r: string)
    ensures var t := Strip(raw);
      && (r == TURNED_PROFIT <==> MentionsProfit(t))
      && (r == TURNED_LOSS <==> !MentionsProfit(t) && MentionsLoss(t))
      && (r == "-" <==> !MentionsProfit(t) && !MentionsLoss(t) && (t == "" || t == "-"))
      && (r != TURNED_PROFIT && r != TURNED_LOSS && r != "-" ==> r == t)
    ensures r != "" && Strip(r) == r
  {
    var t := Strip(raw);
    StripIdempotent(raw);
    assert Contains(TURNED_PROFIT, "흑자") by { assert StartsWith(TURNED_PROFIT, "흑자"); }
    assert Contains(TURNED_LOSS, "적자") by { assert StartsWith(TURNED_LOSS, "적자"); }
    assert NoSpace(TURNED_PROFIT) && NoSpace(TURNED_LOSS) && NoSpace("-");
    StripNoSpace(TURNED_PROFIT);
    StripNoSpace(TURNED_LOSS);
    StripNoSpace("-");
    if MentionsProfit(t) then TURNED_PROFIT
    else if MentionsLoss(t) then TURNED_LOSS
    else if t != "" && t != "-" then t
    else "-"
  }

  /** standardize_turnaround: NaN is `'-'`; otherwise the printed cell is
      stripped and classified by TurnaroundOfText. */
  function StandardizeTurnaround(c: Cell): (r: string)
    ensures c.Missing? ==> r == "-"
    ensures c.Text? ==> r == TurnaroundOfText(c.s)
    ensures c.Num? ==> r == TurnaroundOfText(c.shown)
  {
    match c
    case Missing => "-"
    case Text(s) => TurnaroundOfText(s)
    case Num(_, shown) => TurnaroundOfText(shown)
  }

  // ---------------------------------------------------------------------------
  // extract_earnings_table: scoring and selection
  // ---------------------------------------------------------------------------

  /** A table from `read_html`: its column labels and its rows. */
  datatype Table = Table(columns: seq<string>, rows: seq<seq<Cell>>)

  /** `df.empty`: no rows or no columns. */
  predicate IsEmptyTable(t: Table) {
    |t.rows| == 0 || |t.columns| == 0
  }

  function CellText(c: Cell): string {
    match c
    case Missing => "NaN"
    case Text(s) => s
    case Num(_, shown) => shown
  }

  /** Some string of `ss` contains `kw`. */
  predicate AnyContains(ss: seq<string>, kw: string) {
    ss != [] && (Contains(ss[0], kw) || AnyContains(ss[1..], kw))
  }

  /** Some printed cell of some row contains `kw`. */
  predicate AnyCellContains(rows: seq<seq<Cell>>, kw: string) {
    rows != [] && (AnyContains(seq(|rows[0]|, j requires 0 <= j < |rows[0]| => CellText(rows[0][j])), kw)
                   || AnyCellContains(rows[1..], kw))
  }

  /** `kw in df.to_string()` for a keyword without spaces: some column label
      or printed cell contains it. */
  predicate Mentions(t: Table, kw: string) {
    AnyContains(t.columns, kw) || AnyCellContains(t.rows, kw)
  }

  /** What the scorer looks for in a table. */
  datatype Signals = Signals(revenue: bool, operatingIncome: bool, netIncome: bool,
                             currentPeriod: bool, priorPeriod: bool, priorYear: bool, usualSize: bool)

  function SignalsOf(t: Table): Signals {
    Signals(Mentions(t, "매출액"), Mentions(t, "영업이익"), Mentions(t, "당기순이익"),
            Mentions(t, "당기") || Mentions(t, "당해"), Mentions(t, "전기"), Mentions(t, "전년동기"),
            3 <= |t.rows| <= 30 && 3 <= |t.columns| <= 15)
  }

  function Points(b: bool, w: nat): nat {
    if b then w else 0
  }

  /** Ten points per core metric, five per period keyword, five for size. */
  function Score(g: Signals): (score: nat)
    ensures score <= 50 && score % 5 == 0
    ensures score == 0 <==> g == Signals(false, false, false, false, false, false, false)
  {
    Points(g.revenue, 10) + Points(g.operatingIncome, 10) + Points(g.netIncome, 10)
    + Points(g.currentPeriod, 5) + Points(g.priorPeriod, 5) + Points(g.priorYear, 5)
    + Points(g.usualSize, 5)
  }

  function TableScore(t: Table): (score: nat)
    ensures score <= 50 && score % 5 == 0
  {
    Score(SignalsOf(t))
  }

  predicate SignalsBelow(a: Signals, b: Signals) {
    (a.revenue ==> b.revenue) && (a.operatingIncome ==> b.operatingIncome) && (a.netIncome ==> b.netIncome)
    && (a.currentPeriod ==> b.currentPeriod) && (a.priorPeriod ==> b.priorPeriod)
    && (a.priorYear ==> b.priorYear) && (a.usualSize ==> b.usualSize)
  }

  /** Finding more of what the scorer looks for never lowers the score, and
      finding strictly more raises it. */
  lemma ScoreMonotone(a: Signals, b: Signals)
    requires SignalsBelow(a, b)
    ensures Score(a) <= Score(b)
    ensures a != b ==> Score(a) < Score(b)
  {
  }

  /** The best table of `ts` is at `k`: the first non-empty table with the
      highest score, which is above zero. */
  predicate IsBestAt(ts: seq<Table>, k: int) {
    && 0 <= k < |ts| && !IsEmptyTable(ts[k]) && TableScore(ts[k]) > 0
    && (forall i :: 0 <= i < k && !IsEmptyTable(ts[i]) ==> TableScore(ts[i]) < TableScore(ts[k]))
    && (forall i :: k < i < |ts| && !IsEmptyTable(ts[i]) ==> TableScore(ts[i]) <= TableScore(ts[k]))
  }

  predicate AnyScores(ts: seq<Table>) {
    exists i :: 0 <= i < |ts| && !IsEmptyTable(ts[i]) && TableScore(ts[i]) > 0
  }

  lemma BestIsUnique(ts: seq<Table>, k1: int, k2: int)
    requires IsBestAt(ts, k1) && IsBestAt(ts, k2)
    ensures k1 == k2
  {
  }

  /** The best table among the first `n`, found as the loop of
      extract_earnings_table finds it: -1 while no non-empty table has
      scored above zero, otherwise the index of the first table with a
      strictly greater score than every earlier one. */
  function BestUpTo(ts: seq<Table>, n: nat): (b: int)
    requires n <= |ts|
    ensures -1 <= b < n
  {
    if n == 0 then -1
    else
      var b := BestUpTo(ts, n - 1);
      var bound := if b < 0 then 0 else TableScore(ts[b]);
      if !IsEmptyTable(ts[n - 1]) && TableScore(ts[n - 1]) > bound then n - 1 else b
  }

  function BestTable(ts: seq<Table>): int {
    BestUpTo(ts, |ts|)
  }

  lemma BestUpToMeaning(ts: seq<Table>, n: nat)
    requires n <= |ts|
    ensures BestUpTo(ts, n) < 0 ==> forall j :: 0 <= j < n && !IsEmptyTable(ts[j]) ==> TableScore(ts[j]) == 0
    ensures var b := BestUpTo(ts, n);
      b >= 0 ==>
        && !IsEmptyTable(ts[b]) && TableScore(ts[b]) > 0
        && (forall j :: 0 <= j < b && !IsEmptyTable(ts[j]) ==> TableScore(ts[j]) < TableScore(ts[b]))
        && (forall j :: b < j < n && !IsEmptyTable(ts[j]) ==> TableScore(ts[j]) <= TableScore(ts[b]))
  {
    BestUpToNone(ts, n);
    BestUpToSome(ts, n);
  }

  /** While the running best is -1, no non-empty table has scored. */
  lemma {:induction false} BestUpToNone(ts: seq<Table>, n: nat)
    requires n <= |ts|
    ensures BestUpTo(ts, n) < 0 ==> forall j :: 0 <= j < n && !IsEmptyTable(ts[j]) ==> TableScore(ts[j]) == 0
    decreases n
  {
    if n > 0 && BestUpTo(ts, n) < 0 {
      BestUpToNone(ts, n - 1);
      assert BestUpTo(ts, n - 1) < 0;
    }
  }

  /** A running best is the first table with the top score so far. */
  lemma {:induction false} BestUpToSome(ts: seq<Table>, n: nat)
    requires n <= |ts|
    ensures var b := BestUpTo(ts, n);
      b >= 0 ==>
        && !IsEmptyTable(ts[b]) && TableScore(ts[b]) > 0
        && (forall j :: 0 <= j < b && !IsEmptyTable(ts[j]) ==> TableScore(ts[j]) < TableScore(ts[b]))
        && (forall j :: b < j < n && !IsEmptyTable(ts[j]) ==> TableScore(ts[j]) <= TableScore(ts[b]))
    decreases n
  {
    if n > 0 {
      var b := BestUpTo(ts, n - 1);
      if BestUpTo(ts, n) == n - 1 {
        BestUpToNone(ts, n - 1);
        BestUpToSome(ts, n - 1);
        var top := TableScore(ts[n - 1]);
        assert top > (if b < 0 then 0 else TableScore(ts[b]));
        forall j | 0 <= j < n - 1 && !IsEmptyTable(ts[j])
          ensures TableScore(ts[j]) < top
        {
          if b >= 0 && j != b {
            assert TableScore(ts[j]) <= TableScore(ts[b]);
          }
        }
      } else {
        BestUpToSome(ts, n - 1);
        assert BestUpTo(ts, n) == b;
      }
    }
  }

  /** The reference best index exists exactly when some table scores, and
      it is then the best table. */
  lemma BestTableMeaning(ts: seq<Table>)
    ensures BestTable(ts) >= 0 <==> AnyScores(ts)
    ensures BestTable(ts) >= 0 ==> IsBestAt(ts, BestTable(ts))
  {
    BestUpToMeaning(ts, |ts|);
  }

  /** extract_earnings_table after parsing: `tables` is None when the
      document is empty or `read_html` fails or finds no table. Empty tables
      are skipped; a table replaces the best so far only on a strictly
      greater score, starting from zero. */
  method ExtractEarningsTable(tables: Option<seq<Table>>) returns (best: Option<Table>)
    ensures best.Some? <==> tables.Some? && AnyScores(tables.value)
    ensures best.Some? ==> exists k :: IsBestAt(tables.value, k) && best.value == tables.value[k]
  {
    if tables.None? || |tables.value| == 0 {
      return None;
    }
    var ts := tables.value;
    best := None;
    var bestScore := 0;
    ghost var at := -1;
    for i := 0 to |ts|
      invariant best.None? <==> at == -1
      invariant best.None? ==> bestScore == 0
      invariant best.None? ==> forall j :: 0 <= j < i && !IsEmptyTable(ts[j]) ==> TableScore(ts[j]) == 0
      invariant best.Some? ==> 0 <= at < i && best.value == ts[at] && !IsEmptyTable(ts[at])
      invariant best.Some? ==> bestScore == TableScore(ts[at]) > 0
      invariant best.Some? ==> forall j :: 0 <= j < at && !IsEmptyTable(ts[j]) ==> TableScore(ts[j]) < bestScore
      invariant best.Some? ==> forall j :: at < j < i && !IsEmptyTable(ts[j]) ==> TableScore(ts[j]) <= bestScore
    {
      if IsEmptyTable(ts[i]) {
        continue;
      }
      var score := TableScore(ts[i]);
      if score > bestScore {
        bestScore := score;
        best := Some(ts[i]);
        at := i;
      }
    }
    if best.Some? {
      assert IsBestAt(ts, at);
    }
  }

  // ---------------------------------------------------------------------------
  // normalize_earnings_table
  // ---------------------------------------------------------------------------

  const METRIC_ORDER: seq<string> := ["매출액", "영업이익", "법인세비용차감전계속사업이익", "당기순이익"]
  const SCOPE_ORDER: seq<string> := ["당해실적", "누계실적"]
  const CURRENT_SCOPE := "당해실적"
  const CUMULATIVE_SCOPE := "누계실적"

  /** The filing a table belongs to. */
  datatype Context = Context(corpName: string, stockCode: string, acptno: string, reportDate: string)

  /** One (metric, scope) observation: a row of `normalized_long`. */
  datatype LongRecord = LongRecord(
    corpName: string, stockCode: string, rcpNo: string, reportDate: string,
    metric: string, scope: string,
    valueCurrent: Option<Decimal>, valuePrev: Option<Decimal>, qoqChangePct: Option<Decimal>, qoqTurnaround: string,
    valueYoy: Option<Decimal>, yoyChangePct: Option<Decimal>, yoyTurnaround: string,
    unitValue: string, unitPct: string)

  /** `str(v).strip()` for a value that is not NaN, `''` for NaN. */
  function Label(c: Cell): string {
    match c
    case Missing => ""
    case Text(s) => Strip(s)
    case Num(_, shown) => Strip(shown)
  }

  /** The first of `names`, in list order, that occurs in `text`. */
  function FirstContained(names: seq<string>, text: string): (r: Option<string>)
    ensures r.None? <==> forall k :: 0 <= k < |names| ==> !Contains(text, names[k])
    ensures r.Some? ==> exists k :: 0 <= k < |names| && names[k] == r.value && Contains(text, r.value)
                                   && forall j :: 0 <= j < k ==> !Contains(text, names[j])
  {
    if names == [] then None
    else if Contains(text, names[0]) then Some(names[0])
    else
      var r := FirstContained(names[1..], text);
      assert forall k :: 1 <= k < |names| ==> names[k] == names[1..][k - 1];
      r
  }

  /** The scope of a row: `당해` in the second or first cell before `누계`. */
  function FindScope(col0: string, col1: string): (r: Option<string>)
    ensures r == Some(CURRENT_SCOPE) <==> Contains(col1, "당해") || Contains(col0, "당해")
    ensures r == Some(CUMULATIVE_SCOPE) <==> !(Contains(col1, "당해") || Contains(col0, "당해"))
                                             && (Contains(col1, "누계") || Contains(col0, "누계"))
    ensures r.None? <==> !Contains(col1, "당해") && !Contains(col0, "당해")
                         && !Contains(col1, "누계") && !Contains(col0, "누계")
  {
    if Contains(col1, "당해") || Contains(col0, "당해") then Some(CURRENT_SCOPE)
    else if Contains(col1, "누계") || Contains(col0, "누계") then Some(CUMULATIVE_SCOPE)
    else None
  }

  /** The value at position `k` of a row, NaN past its end. */
  function CellAt(row: seq<Cell>, k: nat): Cell {
    if k < |row| then row[k] else Missing
  }

  /** The row positions read as numbers (current, previous, QoQ %, year-ago,
      YoY %) and as turnaround labels (QoQ, YoY). */
  predicate IsNumberPosition(k: nat) {
    k == 2 || k == 3 || k == 4 || k == 6 || k == 7
  }

  predicate IsTurnaroundPosition(k: nat) {
    k == 5 || k == 8
  }

  /** The numeric field of a record filled from row position `k`. */
  function NumberAt(x: LongRecord, k: nat): Option<Decimal>
    requires IsNumberPosition(k)
  {
    if k == 2 then x.valueCurrent
    else if k == 3 then x.valuePrev
    else if k == 4 then x.qoqChangePct
    else if k == 6 then x.valueYoy
    else x.yoyChangePct
  }

  /** The turnaround field of a record filled from row position `k`. */
  function TurnaroundAt(x: LongRecord, k: nat): string
    requires IsTurnaroundPosition(k)
  {
    if k == 5 then x.qoqTurnaround else x.yoyTurnaround
  }

  /** The record of a row whose metric and scope were recognised: cells 2..8
      by position. */
  function MakeRecord(row: seq<Cell>, ctx: Context, metric: string, scope: string): (x: LongRecord)
    ensures x.metric == metric && x.scope == scope
    ensures x.corpName == ctx.corpName && x.stockCode == ctx.stockCode
    ensures x.rcpNo == ctx.acptno && x.reportDate == ctx.reportDate
    ensures forall k: nat :: IsNumberPosition(k) ==>
      NumberAt(x, k) == if k < |row| then CleanNumeric(row[k]) else None
    ensures forall k: nat :: IsTurnaroundPosition(k) ==>
      TurnaroundAt(x, k) == if k < |row| then StandardizeTurnaround(row[k]) else "-"
    ensures x.unitValue == "KRW_million" && x.unitPct == "percent"
  {
    LongRecord(ctx.corpName, ctx.stockCode, ctx.acptno, ctx.reportDate, metric, scope,
      CleanNumeric(CellAt(row, 2)), CleanNumeric(CellAt(row, 3)), CleanNumeric(CellAt(row, 4)),
      StandardizeTurnaround(CellAt(row, 5)),
      CleanNumeric(CellAt(row, 6)), CleanNumeric(CellAt(row, 7)),
      StandardizeTurnaround(CellAt(row, 8)),
      "KRW_million", "percent")
  }

  /** A row is kept when it has at least three cells, its first cell names a
      metric, and its first two cells name a scope. */
  function NormalizeRow(row: seq<Cell>, ctx: Context): (r: Option<LongRecord>)
    ensures r.Some? <==> |row| >= 3 && FirstContained(METRIC_ORDER, Label(row[0])).Some?
                                    && FindScope(Label(row[0]), Label(row[1])).Some?
    ensures r.Some? ==> r.value.metric in METRIC_ORDER && r.value.scope in SCOPE_ORDER
    ensures r.Some? ==> (r.value.metric == FirstContained(METRIC_ORDER, Label(row[0])).value
                         && r.value.scope == FindScope(Label(row[0]), Label(row[1])).value)
    ensures r.Some? ==> r.value == MakeRecord(row, ctx, r.value.metric, r.value.scope)
  {
    if |row| < 3 then None
    else
      var col0 := Label(row[0]);
      match FirstContained(METRIC_ORDER, col0)
      case None => None
      case Some(metric) =>
        match FindScope(col0, Label(row[1]))
        case None => None
        case Some(scope) => Some(MakeRecord(row, ctx, metric, scope))
  }

  /** A position past the end of a kept row reads as no number, or as the
      turnaround `'-'`; a number cell present in the row keeps its value. */
  lemma MissingPositions(row: seq<Cell>, ctx: Context, k: nat)
    requires NormalizeRow(row, ctx).Some?
    ensures var x := NormalizeRow(row, ctx).value;
      && (IsNumberPosition(k) && k >= |row| ==> NumberAt(x, k).None?)
      && (IsTurnaroundPosition(k) && k >= |row| ==> TurnaroundAt(x, k) == "-")
      && (IsNumberPosition(k) && k < |row| && row[k].Num? ==> NumberAt(x, k) == Some(row[k].value))
  {
  }

  /** The records of the rows that are kept, in row order. */
  function NormalizeRows(rows: seq<seq<Cell>>, ctx: Context): (r: seq<LongRecord>)
    ensures |r| <= |rows|
    ensures forall x :: x in r ==> x.metric in METRIC_ORDER && x.scope in SCOPE_ORDER
    ensures forall x :: x in r ==> x.rcpNo == ctx.acptno && x.corpName == ctx.corpName
  {
    if rows == [] then []
    else
      NormalizeRows(rows[..|rows| - 1], ctx)
      + match NormalizeRow(rows[|rows| - 1], ctx) case Some(x) => [x] case None => []
  }

  /** Rows are normalised one at a time: the records of two blocks of rows
      are those of the first block followed by those of the second. */
  lemma {:induction false} NormalizeRowsAppend(a: seq<seq<Cell>>, b: seq<seq<Cell>>, ctx: Context)
    ensures NormalizeRows(a + b, ctx) == NormalizeRows(a, ctx) + NormalizeRows(b, ctx)
    decreases |b|
  {
    if b == [] {
      assert a + b == a;
    } else {
      assert (a + b)[..|a + b| - 1] == a + b[..|b| - 1];
      NormalizeRowsAppend(a, b[..|b| - 1], ctx);
    }
  }

  /** A revenue row of the current period, as the earnings table of a
      filing shows it, becomes the record of its cells 2..8. */
  lemma NormalizeRevenueRow(row: seq<Cell>, ctx: Context)
    requires |row| >= 3 && row[0] == Text("매출액") && row[1] == Text("당해실적")
    ensures NormalizeRow(row, ctx) == Some(MakeRecord(row, ctx, "매출액", CURRENT_SCOPE))
  {
    assert NoSpace("매출액") && NoSpace("당해실적");
    StripNoSpace("매출액");
    StripNoSpace("당해실적");
    assert StartsWith("매출액", "매출액");
    assert FirstContained(METRIC_ORDER, "매출액") == Some("매출액");
    assert StartsWith("당해실적", "당해");
    assert FindScope("매출액", "당해실적") == Some(CURRENT_SCOPE);
  }

  /** normalize_earnings_table: no table or an empty one gives two empty
      results; otherwise the rows are normalised in order and the wide
      summary is derived from the records. */
  method NormalizeEarningsTable(t: Option<Table>, ctx: Context) returns (long: seq<LongRecord>, wide: seq<WideRow>)
    ensures t.None? || IsEmptyTable(t.value) ==> long == [] && wide == []
    ensures t.Some? && !IsEmptyTable(t.value) ==> long == NormalizeRows(t.value.rows, ctx)
    ensures wide == WideSummary(long)
  {
    if t.None? || IsEmptyTable(t.value) {
      return [], [];
    }
    var rows := t.value.rows;
    long := [];
    for i := 0 to |rows|
      invariant long == NormalizeRows(rows[..i], ctx)
    {
      var row := rows[i];
      assert rows[..i + 1][..i] == rows[..i];
      if |row| < 3 {
        continue;
      }
      var col0 := Label(row[0]);
      var metric := FirstContained(METRIC_ORDER, col0);
      if metric.None? {
        continue;
      }
      var scope := FindScope(col0, Label(row[1]));
      if scope.None? {
        continue;
      }
      long := long + [MakeRecord(row, ctx, metric.value, scope.value)];
    }
    assert rows[..|rows|] == rows;
    if long != [] {
      wide := WideSummary(long);
    } else {
      wide := [];
    }
  }

  // ---------------------------------------------------------------------------
  // Wide summary
  // ---------------------------------------------------------------------------

  /** A row of `wide_summary`: the long record without the filing columns. */
  datatype WideRow = WideRow(
    metric: string, scope: string,
    valueCurrent: Option<Decimal>, valuePrev: Option<Decimal>, valueYoy: Option<Decimal>,
    qoqChangePct: Option<Decimal>, yoyChangePct: Option<Decimal>,
    qoqTurnaround: string, yoyTurnaround: string)

  function Project(x: LongRecord): WideRow {
    WideRow(x.metric, x.scope, x.valueCurrent, x.valuePrev, x.valueYoy,
            x.qoqChangePct, x.yoyChangePct, x.qoqTurnaround, x.yoyTurnaround)
  }

  function ProjectAll(long: seq<LongRecord>): (r: seq<WideRow>)
    ensures |r| == |long| && forall i :: 0 <= i < |long| ==> r[i] == Project(long[i])
  {
    seq(|long|, i requires 0 <= i < |long| => Project(long[i]))
  }

  /** `names.index(x)` when `x` is listed, 99 otherwise. */
  function OrderIndex(names: seq<string>, x: string): (r: nat)
    requires |names| < 99
    ensures x in names ==> r < |names| && names[r] == x
    ensures x !in names ==> r == 99
  {
    if names == [] then 99
    else if names[0] == x then 0
    else
      var r := OrderIndex(names[1..], x);
      assert x in names <==> x in names[1..];
      if r == 99 then 99 else assert names[r + 1] == names[1..][r]; r + 1
  }

  /** The sort key (m_order, s_order) as one number: scope indices stay
      below 100, so comparing ranks compares the pairs lexicographically. */
  function Rank(w: WideRow): nat {
    OrderIndex(METRIC_ORDER, w.metric) * 100 + OrderIndex(SCOPE_ORDER, w.scope)
  }

  lemma RankIsLexicographic(a: WideRow, b: WideRow)
    ensures Rank(a) <= Rank(b) <==>
      OrderIndex(METRIC_ORDER, a.metric) < OrderIndex(METRIC_ORDER, b.metric)
      || (OrderIndex(METRIC_ORDER, a.metric) == OrderIndex(METRIC_ORDER, b.metric)
          && OrderIndex(SCOPE_ORDER, a.scope) <= OrderIndex(SCOPE_ORDER, b.scope))
  {
    var ma, mb := OrderIndex(METRIC_ORDER, a.metric), OrderIndex(METRIC_ORDER, b.metric);
    var sa, sb := OrderIndex(SCOPE_ORDER, a.scope), OrderIndex(SCOPE_ORDER, b.scope);
    assert sa < 100 && sb < 100;
    if ma < mb {
      assert ma * 100 + 100 <= mb * 100;
    } else if ma > mb {
      assert mb * 100 + 100 <= ma * 100;
    }
  }

  /** The wide summary of a filing's records: their projections sorted by
      metric and then scope. */
  function WideSummary(long: seq<LongRecord>): (r: seq<WideRow>)
    ensures |r| == |long|
  {
    var p := ProjectAll(long);
    var r := SortBy(p, Rank);
    assert |r| == |multiset(r)| == |multiset(p)| == |p|;
    r
  }

  /** The wide summary holds exactly the projected records, ordered by
      metric and then scope, the records of one metric and scope in their
      original order. */
  lemma WideSummaryMeaning(long: seq<LongRecord>)
    ensures multiset(WideSummary(long)) == multiset(ProjectAll(long))
    ensures SortedBy(WideSummary(long), Rank)
    ensures forall k: nat :: WithRank(WideSummary(long), Rank, k) == WithRank(ProjectAll(long), Rank, k)
  {
    forall k: nat ensures WithRank(WideSummary(long), Rank, k) == WithRank(ProjectAll(long), Rank, k) {
      SortByStable(ProjectAll(long), Rank, k);
    }
  }

  // ---------------------------------------------------------------------------
  // The rows format_telegram_message reports
  // ---------------------------------------------------------------------------

  const HEADLINE_METRICS: seq<string> := ["매출액", "영업이익", "당기순이익"]

  /** The first current-period record of `metric`. */
  function FirstCurrent(long: seq<LongRecord>, metric: string): (r: Option<LongRecord>)
    ensures r.Some? ==> r.value in long && r.value.scope == CURRENT_SCOPE && r.value.metric == metric
    ensures r.None? <==> forall x :: x in long ==> x.scope != CURRENT_SCOPE || x.metric != metric
    ensures r.Some? ==>
      exists i :: 0 <= i < |long| && long[i] == r.value
        && forall j :: 0 <= j < i ==> long[j].scope != CURRENT_SCOPE || long[j].metric != metric
  {
    if long == [] then None
    else if long[0].scope == CURRENT_SCOPE && long[0].metric == metric then Some(long[0])
    else
      var r := FirstCurrent(long[1..], metric);
      assert forall i :: 1 <= i < |long| ==> long[i] == long[1..][i - 1];
      r
  }

  /** For each metric of `metrics` in order, its first current-period
      record, when there is one. */
  function Headlines(long: seq<LongRecord>, metrics: seq<string>): (r: seq<LongRecord>)
    ensures |r| <= |metrics|
    ensures forall x :: x in r ==> x in long && x.scope == CURRENT_SCOPE && x.metric in metrics
    ensures forall i :: 0 <= i < |r| ==> FirstCurrent(long, r[i].metric) == Some(r[i])
    ensures forall m :: m in metrics && FirstCurrent(long, m).Some? ==> FirstCurrent(long, m).value in r
  {
    if metrics == [] then []
    else
      var first := FirstCurrent(long, metrics[0]);
      var rest := Headlines(long, metrics[1..]);
      assert forall m :: m in metrics ==> m == metrics[0] || m in metrics[1..];
      (if first.Some? then [first.value] else []) + rest
  }

  /** One metric gives its first current-period record, or nothing. */
  lemma HeadlinesOne(long: seq<LongRecord>, m: string)
    ensures Headlines(long, [m]) == HeadlineOf(long, m)
  {
    assert [m][1..] == [];
  }

  /** The metrics are reported in order: the lines of two lists of metrics
      are those of the first list followed by those of the second. */
  lemma {:induction false} HeadlinesAppend(long: seq<LongRecord>, a: seq<string>, b: seq<string>)
    ensures Headlines(long, a + b) == Headlines(long, a) + Headlines(long, b)
    decreases |a|
  {
    if a == [] {
      assert a + b == b;
    } else {
      assert (a + b)[0] == a[0];
      assert (a + b)[1..] == a[1..] + b;
      HeadlinesAppend(long, a[1..], b);
    }
  }

  /** The records the notification reports: revenue, operating income and
      net income, each from its first current-period record. */
  function HeadlineRows(long: seq<LongRecord>): seq<LongRecord> {
    Headlines(long, HEADLINE_METRICS)
  }

  /** The first current-period record, as a list of at most one line. */
  function HeadlineOf(long: seq<LongRecord>, m: string): seq<LongRecord> {
    if FirstCurrent(long, m).Some? then [FirstCurrent(long, m).value] else []
  }

  /** The notification reports revenue, then operating income, then net
      income, each exactly when a current-period record of it exists. */
  lemma HeadlineRowsExact(long: seq<LongRecord>)
    ensures HeadlineRows(long)
            == HeadlineOf(long, "매출액") + HeadlineOf(long, "영업이익") + HeadlineOf(long, "당기순이익")
  {
    assert HEADLINE_METRICS == ["매출액"] + ["영업이익"] + ["당기순이익"];
    HeadlinesAppend(long, ["매출액"] + ["영업이익"], ["당기순이익"]);
    HeadlinesAppend(long, ["매출액"], ["영업이익"]);
    HeadlinesOne(long, "매출액");
    HeadlinesOne(long, "영업이익");
    HeadlinesOne(long, "당기순이익");
  }
}
