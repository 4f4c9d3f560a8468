/** Wall-clock values as the scripts write them: `strftime('%Y-%m-%d %H:%M:%S')`
    for the cache stamp and `strftime('%Y%m%d')` for today's date, the parse
    `strptime(s, '%Y-%m-%d %H:%M:%S')`, and the difference of two times in
    seconds. The clock itself is never read here: "now" is always a parameter. */
module Clock {
  import opened Strings
  import opened Optional

  datatype Timestamp = Timestamp(year: nat, month: nat, day: nat, hour: nat, minute: nat, second: nat)

  predicate IsLeap(y: nat) {
    (y % 4 == 0 && y % 100 != 0) || y % 400 == 0
  }

  function DaysInMonth(y: nat, m: nat): nat {
    if m == 2 then (if IsLeap(y) then 29 else 28)
    else if m == 4 || m == 6 || m == 9 || m == 11 then 30
    else 31
  }

  /** A moment `datetime` can hold with a four-digit year (as `datetime.now()`
      always gives here). */
  predicate ValidStamp(t: Timestamp) {
    1000 <= t.year <= 9999 && 1 <= t.month <= 12 && 1 <= t.day <= DaysInMonth(t.year, t.month)
    && t.hour < 24 && t.minute < 60 && t.second < 60
  }

  /** `a`, `x`, `b`, `y`, `c` written one after the other. */
  function Fields3(a: string, x: char, b: string, y: char, c: string): string {
    a + [x] + b + [y] + c
  }

  /** `strftime('%Y-%m-%d')`. */
  function DatePart(t: Timestamp): (r: string)
    requires ValidStamp(t)
    ensures |r| == 10
  {
    Fields3(PadNat(t.year, 4), '-', PadNat(t.month, 2), '-', PadNat(t.day, 2))
  }

  /** `strftime('%H:%M:%S')`. */
  function TimePart(t: Timestamp): (r: string)
    requires ValidStamp(t)
    ensures |r| == 8
  {
    Fields3(PadNat(t.hour, 2), ':', PadNat(t.minute, 2), ':', PadNat(t.second, 2))
  }

  /** `strftime('%Y-%m-%d %H:%M:%S')`. */
  function FormatStamp(t: Timestamp): (r: string)
    requires ValidStamp(t)
    ensures |r| == 19
  {
    DatePart(t) + " " + TimePart(t)
  }

  /** `strftime('%Y%m%d')`: the date prefix every KIND acptno starts with. */
  function Date8(t: Timestamp): (r: string)
    requires ValidStamp(t)
    ensures |r| == 8 && AllDigits(r)
    ensures DigitsValue(r) == t.year * 10000 + t.month * 100 + t.day
  {
    Date8Digits(t);
    PadNat(t.year, 4) + PadNat(t.month, 2) + PadNat(t.day, 2)
  }

  lemma Date8Digits(t: Timestamp)
    requires ValidStamp(t)
    ensures var r := PadNat(t.year, 4) + PadNat(t.month, 2) + PadNat(t.day, 2);
      |r| == 8 && AllDigits(r) && DigitsValue(r) == t.year * 10000 + t.month * 100 + t.day
  {
    var y, m, d := PadNat(t.year, 4), PadNat(t.month, 2), PadNat(t.day, 2);
    assert |y| == 4 && |m| == 2 && |d| == 2;
    assert Pow10(2) == 100;
    DigitsValueAppend(y, m);
    var ym := y + m;
    assert DigitsValue(ym) == t.year * 100 + t.month;
    DigitsValueAppend(ym, d);
    assert DigitsValue(ym + d) == DigitsValue(ym) * 100 + t.day;
    Regroup(t.year, t.month, t.day);
  }

  lemma Regroup(a: int, b: int, c: int)
    ensures (a * 100 + b) * 100 + c == a * 10000 + b * 100 + c
  {
  }

  /** The number in `s[lo..hi]` when that slice is all digits. */
  function FieldAt(s: string, lo: nat, hi: nat): Option<nat>
    requires lo <= hi <= |s|
  {
    if AllDigits(s[lo..hi]) then Some(DigitsValue(s[lo..hi])) else None
  }

  /** Three numbers of widths `wa`, 2 and 2 separated by `x` and `y`. */
  function ParseFields3(s: string, wa: nat, x: char, y: char): Option<(nat, nat, nat)> {
    if |s| != wa + 6 || s[wa] != x || s[wa + 3] != y then None
    else
      match (FieldAt(s, 0, wa), FieldAt(s, wa + 1, wa + 3), FieldAt(s, wa + 4, wa + 6))
      case (Some(a), Some(b), Some(c)) => Some((a, b, c))
      case _ => None
  }

  /** `strptime(s, '%Y-%m-%d %H:%M:%S')` on the zero-padded form that
      FormatStamp writes: None for anything else or for an impossible date. */
  function ParseStamp(s: string): (r: Option<Timestamp>)
    ensures r.Some? ==> ValidStamp(r.value)
  {
    if |s| != 19 || s[10] != ' ' then None
    else
      match (ParseFields3(s[..10], 4, '-', '-'), ParseFields3(s[11..], 2, ':', ':'))
      case (Some((y, mo, d)), Some((h, mi, se))) =>
        var t := Timestamp(y, mo, d, h, mi, se);
        if ValidStamp(t) then Some(t) else None
      case _ => None
  }

  /** A field written with PadNat reads back as its number. */
  lemma FieldOfPad(s: string, lo: nat, n: nat, width: nat)
    requires lo + width <= |s| && s[lo..lo + width] == PadNat(n, width)
    ensures FieldAt(s, lo, lo + width) == Some(n)
  {
  }

  /** Where each piece of Fields3 sits. */
  lemma Fields3Pieces(a: string, x: char, b: string, y: char, c: string)
    ensures var s := Fields3(a, x, b, y, c);
      s[|a|] == x && s[|a| + 1 + |b|] == y && s[0..|a|] == a
      && s[|a| + 1..|a| + 1 + |b|] == b && s[|a| + 2 + |b|..|s|] == c
  {
    var s := Fields3(a, x, b, y, c);
    assert s == (((a + [x]) + b) + [y]) + c;
  }

  /** Three padded numbers at their places read back. */
  lemma ParseFields3OfPads(s: string, wa: nat, x: char, y: char, a: nat, b: nat, c: nat)
    requires |s| == wa + 6 && s[wa] == x && s[wa + 3] == y
    requires s[0..wa] == PadNat(a, wa) && s[wa + 1..wa + 3] == PadNat(b, 2) && s[wa + 4..wa + 6] == PadNat(c, 2)
    ensures ParseFields3(s, wa, x, y) == Some((a, b, c))
  {
    FieldOfPad(s, 0, a, wa);
    FieldOfPad(s, wa + 1, b, 2);
    FieldOfPad(s, wa + 4, c, 2);
  }

  /** Three padded numbers written with Fields3 read back. */
  lemma Fields3RoundTrip(a: nat, wa: nat, x: char, b: nat, y: char, c: nat)
    requires |PadNat(a, wa)| == wa && |PadNat(b, 2)| == 2 && |PadNat(c, 2)| == 2
    ensures ParseFields3(Fields3(PadNat(a, wa), x, PadNat(b, 2), y, PadNat(c, 2)), wa, x, y) == Some((a, b, c))
  {
    var s := Fields3(PadNat(a, wa), x, PadNat(b, 2), y, PadNat(c, 2));
    Fields3Pieces(PadNat(a, wa), x, PadNat(b, 2), y, PadNat(c, 2));
    ParseFields3OfPads(s, wa, x, y, a, b, c);
  }

  /** Parsing what was formatted gives the same moment back. */
  lemma FormatThenParse(t: Timestamp)
    requires ValidStamp(t)
    ensures ParseStamp(FormatStamp(t)) == Some(t)
  {
    var s := FormatStamp(t);
    assert s[..10] == DatePart(t) && s[10] == ' ' && s[11..] == TimePart(t);
    Fields3RoundTrip(t.year, 4, '-', t.month, '-', t.day);
    Fields3RoundTrip(t.hour, 2, ':', t.minute, ':', t.second);
  }

  function DaysBeforeYear(y: nat): nat {
    if y == 0 then 0 else 365 * (y - 1) + (y - 1) / 4 - (y - 1) / 100 + (y - 1) / 400
  }

  function DaysBeforeMonth(y: nat, m: nat): nat
    decreases m
  {
    if m <= 1 then 0 else DaysBeforeMonth(y, m - 1) + DaysInMonth(y, m - 1)
  }

  /** Seconds since 0001-01-01 00:00:00, so that the difference of two
      moments is what `datetime` subtraction gives. */
  function EpochSeconds(t: Timestamp): int {
    var days := DaysBeforeYear(t.year) + DaysBeforeMonth(t.year, t.month) + t.day - 1;
    days * 86400 + t.hour * 3600 + t.minute * 60 + t.second
  }
}
