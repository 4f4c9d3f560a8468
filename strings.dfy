/** Character classes and string operations shared by the scripts: Python's
    whitespace test, strip(), substring tests, ASCII case mapping, decimal
    digits, and split/join on a single separator character. */
module Strings {

  /** Python's str.isspace(), which is also what `\s` matches in a str
      regular expression. */
  predicate IsSpace(c: char) {
    c == ' ' || c == '\t' || c == '\n' || c == '\r' || c == '\U{B}' || c == '\U{C}'
    || ('\U{1C}' <= c <= '\U{1F}') || c == '\U{85}' || c == '\U{A0}' || c == '\U{1680}'
    || ('\U{2000}' <= c <= '\U{200A}') || c == '\U{2028}' || c == '\U{2029}'
    || c == '\U{202F}' || c == '\U{205F}' || c == '\U{3000}'
  }

  predicate NoSpace(s: string) {
    forall k :: 0 <= k < |s| ==> !IsSpace(s[k])
  }

  predicate IsDigit(c: char) {
    '0' <= c <= '9'
  }

  predicate AllDigits(s: string) {
    forall k :: 0 <= k < |s| ==> IsDigit(s[k])
  }

  predicate StartsWith(s: string, prefix: string) {
    |prefix| <= |s| && s[..|prefix|] == prefix
  }

  predicate EndsWith(s: string, suffix: string) {
    |suffix| <= |s| && s[|s| - |suffix|..] == suffix
  }

  /** Python's `sub in s`. */
  predicate Contains(s: string, sub: string)
    decreases |s|
  {
    StartsWith(s, sub) || (|s| > 0 && Contains(s[1..], sub))
  }

  lemma {:induction false} ContainsAt(s: string, sub: string, i: nat)
    requires i + |sub| <= |s| && s[i..i + |sub|] == sub
    ensures Contains(s, sub)
    decreases i
  {
    if i > 0 {
      assert s[1..][i - 1..i - 1 + |sub|] == sub;
      ContainsAt(s[1..], sub, i - 1);
    }
  }

  lemma {:induction false} ContainsWitness(s: string, sub: string) returns (i: nat)
    requires Contains(s, sub)
    ensures i + |sub| <= |s| && s[i..i + |sub|] == sub
    decreases |s|
  {
    if StartsWith(s, sub) {
      i := 0;
    } else {
      var j := ContainsWitness(s[1..], sub);
      i := j + 1;
      assert s[1..][j..j + |sub|] == s[i..i + |sub|];
    }
  }

  /** A character that occurs in a string is contained in it. */
  lemma CharContained(s: string, c: char)
    ensures Contains(s, [c]) <==> c in s
  {
    if Contains(s, [c]) {
      var i := ContainsWitness(s, [c]);
      assert s[i] == c;
    }
    if c in s {
      var i :| 0 <= i < |s| && s[i] == c;
      assert s[i..i + 1] == [c];
      ContainsAt(s, [c], i);
    }
  }

  /** `s` without its leading whitespace (Python's str.lstrip()). */
  function StripStart(s: string): (r: string)
    ensures |r| <= |s|
  {
    if s != [] && IsSpace(s[0]) then StripStart(s[1..]) else s
  }

  /** `s` without its trailing whitespace (Python's str.rstrip()). */
  function StripEnd(s: string): (r: string)
    ensures |r| <= |s|
  {
    if s != [] && IsSpace(s[|s| - 1]) then StripEnd(s[..|s| - 1]) else s
  }

  /** Python's str.strip() with no argument. */
  function Strip(s: string): (r: string)
    ensures |r| <= |s|
  {
    StripEnd(StripStart(s))
  }

  /** Concatenation is associative (stated once, so that proofs need not
      compare sequences element by element). */
  lemma AppendAssoc<T>(x: seq<T>, y: seq<T>, z: seq<T>)
    ensures x + (y + z) == (x + y) + z
  {
  }

  /** Text without whitespace is its own strip. */
  lemma StripNoSpace(s: string)
    requires NoSpace(s)
    ensures Strip(s) == s
  {
    assert s == [] || !IsSpace(s[0]);
    assert s == [] || !IsSpace(s[|s| - 1]);
  }

  lemma {:induction false} StripStartFirst(s: string)
    ensures StripStart(s) == [] || !IsSpace(StripStart(s)[0])
    decreases |s|
  {
    if s != [] && IsSpace(s[0]) {
      StripStartFirst(s[1..]);
    }
  }

  lemma {:induction false} StripEndLast(s: string)
    ensures StripEnd(s) == [] || !IsSpace(StripEnd(s)[|StripEnd(s)| - 1])
    ensures StripEnd(s) != [] ==> StripEnd(s)[0] == s[0]
    decreases |s|
  {
    if s != [] && IsSpace(s[|s| - 1]) {
      StripEndLast(s[..|s| - 1]);
    }
  }

  /** The strip of `s` neither starts nor ends with whitespace. */
  lemma StripEnds(s: string)
    ensures Strip(s) == [] || (!IsSpace(Strip(s)[0]) && !IsSpace(Strip(s)[|Strip(s)| - 1]))
  {
    StripStartFirst(s);
    StripEndLast(StripStart(s));
  }

  /** Text made only of whitespace strips to nothing. */
  lemma {:induction false} StripAllSpace(s: string)
    requires forall k :: 0 <= k < |s| ==> IsSpace(s[k])
    ensures Strip(s) == ""
    decreases |s|
  {
    if s != [] {
      assert forall k :: 0 <= k < |s[1..]| ==> IsSpace(s[1..][k]) by {
        forall k | 0 <= k < |s[1..]| ensures IsSpace(s[1..][k]) { assert s[1..][k] == s[k + 1]; }
      }
      StripAllSpace(s[1..]);
    }
  }

  /** Stripping twice is stripping once. */
  lemma StripIdempotent(s: string)
    ensures Strip(Strip(s)) == Strip(s)
  {
    StripEnds(s);
    StripTrimmed(Strip(s));
  }

  /** Text that neither starts nor ends with whitespace is its own strip. */
  lemma StripTrimmed(s: string)
    requires s == [] || (!IsSpace(s[0]) && !IsSpace(s[|s| - 1]))
    ensures Strip(s) == s
  {
    if s != [] {
      assert StripStart(s) == s;
      assert StripEnd(s) == s;
    }
  }

  /** The leading run of characters that are not whitespace. */
  function NonSpaceRun(s: string): (r: string)
    ensures |r| <= |s| && r == s[..|r|] && NoSpace(r)
    ensures |r| < |s| ==> IsSpace(s[|r|])
  {
    if s != [] && !IsSpace(s[0]) then [s[0]] + NonSpaceRun(s[1..]) else []
  }

  lemma {:induction false} NonSpaceRunOf(w: string, rest: string)
    requires NoSpace(w) && (rest == [] || IsSpace(rest[0]))
    ensures NonSpaceRun(w + rest) == w
    decreases |w|
  {
    if w == [] {
      assert w + rest == rest;
    } else {
      assert (w + rest)[1..] == w[1..] + rest;
      NonSpaceRunOf(w[1..], rest);
    }
  }

  /** Python's s.split() with no argument: the maximal runs of characters
      that are not whitespace, in order. */
  function Words(s: string): (ws: seq<string>)
    ensures forall k :: 0 <= k < |ws| ==> ws[k] != [] && NoSpace(ws[k])
    decreases |s|
  {
    var t := StripStart(s);
    StripStartFirst(s);
    if t == [] then []
    else
      var w := NonSpaceRun(t);
      [w] + Words(t[|w|..])
  }

  /** A word followed by whitespace (or nothing) is the first word. */
  lemma WordsOfLeading(w: string, rest: string)
    requires w != [] && NoSpace(w) && (rest == [] || IsSpace(rest[0]))
    ensures Words(w + rest) == [w] + Words(rest)
  {
    var s := w + rest;
    assert StripStart(s) == s;
    NonSpaceRunOf(w, rest);
    assert s[|w|..] == rest;
  }

  /** Leading whitespace does not make a word. */
  lemma WordsSkipSpace(c: char, rest: string)
    requires IsSpace(c)
    ensures Words([c] + rest) == Words(rest)
  {
    assert ([c] + rest)[1..] == rest;
    assert StripStart([c] + rest) == StripStart(rest);
  }

  /** Two words separated by one space split into those two words. */
  lemma WordsOfPair(a: string, b: string)
    requires a != [] && NoSpace(a) && b != [] && NoSpace(b)
    ensures Words(a + " " + b) == [a, b]
  {
    assert a + " " + b == a + ([' '] + b);
    WordsOfLeading(a, [' '] + b);
    WordsSkipSpace(' ', b);
    assert b == b + [];
    WordsOfLeading(b, []);
  }

  /** Every character of `s` except `c`, in order (Python's s.replace(c, '')). */
  function RemoveChar(s: string, c: char): (r: string)
    ensures c !in r
    ensures |r| <= |s|
    ensures forall x :: x in r ==> x in s
  {
    if s == [] then []
    else (if s[0] == c then [] else [s[0]]) + RemoveChar(s[1..], c)
  }

  /** Every character of `s` whose occurrence `c` is replaced by `d`
      (Python's s.replace(c, d) for one-character strings). */
  function ReplaceChar(s: string, c: char, d: char): (r: string)
    ensures |r| == |s|
    ensures forall k :: 0 <= k < |s| ==> r[k] == (if s[k] == c then d else s[k])
  {
    seq(|s|, k requires 0 <= k < |s| => if s[k] == c then d else s[k])
  }

  function ToUpperChar(c: char): char {
    if 'a' <= c <= 'z' then (c as int - 32) as char else c
  }

  function ToLowerChar(c: char): char {
    if 'A' <= c <= 'Z' then (c as int + 32) as char else c
  }

  /** Python's str.upper() on the ASCII letters. */
  function Upper(s: string): (r: string)
    ensures |r| == |s|
    ensures forall k :: 0 <= k < |s| ==> r[k] == ToUpperChar(s[k])
  {
    seq(|s|, k requires 0 <= k < |s| => ToUpperChar(s[k]))
  }

  /** Upper-casing twice is upper-casing once. */
  lemma UpperIdempotent(s: string)
    ensures Upper(Upper(s)) == Upper(s)
  {
  }

  /** Upper-casing neither creates nor removes whitespace. */
  lemma UpperKeepsSpace(s: string)
    ensures forall k :: 0 <= k < |s| ==> (IsSpace(Upper(s)[k]) <==> IsSpace(s[k]))
  {
  }

  /** Python's str.lower() on the ASCII letters. */
  function Lower(s: string): (r: string)
    ensures |r| == |s|
    ensures forall k :: 0 <= k < |s| ==> r[k] == ToLowerChar(s[k])
  {
    seq(|s|, k requires 0 <= k < |s| => ToLowerChar(s[k]))
  }

  // ---------------------------------------------------------------------------
  // Decimal digits
  // ---------------------------------------------------------------------------

  lemma AllDigitsConcat(a: string, b: string)
    requires AllDigits(a) && AllDigits(b)
    ensures AllDigits(a + b)
  {
    forall k | 0 <= k < |a + b| ensures IsDigit((a + b)[k]) {
      if k >= |a| { assert (a + b)[k] == b[k - |a|]; }
    }
  }

  function DigitChar(d: nat): (c: char)
    requires d < 10
    ensures IsDigit(c)
  {
    ('0' as int + d) as char
  }

  function DigitValue(c: char): (d: nat)
    requires IsDigit(c)
    ensures d < 10
  {
    c as int - '0' as int
  }

  /** The number a string of decimal digits denotes (most significant first). */
  function DigitsValue(s: string): nat
    requires AllDigits(s)
  {
    if s == [] then 0 else DigitsValue(s[..|s| - 1]) * 10 + DigitValue(s[|s| - 1])
  }

  /** Python's str(n) for a non-negative int. */
  function NatToString(n: nat): (r: string)
    ensures |r| >= 1 && AllDigits(r)
    ensures DigitsValue(r) == n
    ensures n < 10 ==> |r| == 1
    ensures 10 <= n < 100 ==> |r| == 2
    ensures 1000 <= n < 10000 ==> |r| == 4
  {
    if n < 10 then [DigitChar(n)]
    else
      var r := NatToString(n / 10) + [DigitChar(n % 10)];
      assert r[..|r| - 1] == NatToString(n / 10);
      r
  }

  function Zeros(k: nat): (r: string)
    ensures |r| == k && AllDigits(r)
    ensures forall i :: 0 <= i < k ==> r[i] == '0'
  {
    seq(k, i => '0')
  }

  /** Ten to the power n. */
  function Pow10(n: nat): (r: nat)
    ensures r >= 1
  {
    if n == 0 then 1 else 10 * Pow10(n - 1)
  }

  /** Digits written after digits: the first part's value moves up by as
      many places as the second part has digits. */
  lemma {:induction false} DigitsValueAppend(a: string, b: string)
    requires AllDigits(a) && AllDigits(b)
    ensures AllDigits(a + b) && DigitsValue(a + b) == DigitsValue(a) * Pow10(|b|) + DigitsValue(b)
    decreases |b|
  {
    if b == [] {
      assert a + b == a;
    } else {
      var p := b[..|b| - 1];
      DigitsValueAppend(a, p);
      assert (a + b)[..|a + b| - 1] == a + p;
      assert (a + b)[|a + b| - 1] == b[|b| - 1];
      ShiftByOne(DigitsValue(a), Pow10(|p|), DigitsValue(p), DigitValue(b[|b| - 1]));
    }
  }

  /** One more digit at the end moves the earlier digits up one place. */
  lemma ShiftByOne(x: nat, p: nat, y: nat, e: nat)
    ensures (x * p + y) * 10 + e == x * (10 * p) + (y * 10 + e)
  {
  }

  /** Leading zeros do not change the value of a digit string. */
  lemma {:induction false} DigitsValueZeros(k: nat, s: string)
    requires AllDigits(s)
    ensures AllDigits(Zeros(k) + s) && DigitsValue(Zeros(k) + s) == DigitsValue(s)
    decreases |s|
  {
    var z := Zeros(k) + s;
    if s == [] {
      ZerosValue(k);
      assert z == Zeros(k);
    } else {
      assert z[..|z| - 1] == Zeros(k) + s[..|s| - 1];
      DigitsValueZeros(k, s[..|s| - 1]);
    }
  }

  lemma {:induction false} ZerosValue(k: nat)
    ensures DigitsValue(Zeros(k)) == 0
  {
    if k > 0 {
      assert Zeros(k)[..k - 1] == Zeros(k - 1);
      ZerosValue(k - 1);
    }
  }

  /** `n` written with at least `width` digits, padded with zeros on the left
      (the `%02d` / `%04d` of strftime). */
  function PadNat(n: nat, width: nat): (r: string)
    ensures AllDigits(r) && DigitsValue(r) == n
    ensures |r| == if |NatToString(n)| >= width then |NatToString(n)| else width
  {
    var d := NatToString(n);
    if |d| >= width then d
    else
      DigitsValueZeros(width - |d|, d);
      Zeros(width - |d|) + d
  }

  // ---------------------------------------------------------------------------
  // split / join on one separator character
  // ---------------------------------------------------------------------------

  /** Index of the first `c` in `s`, or |s| when there is none. */
  function IndexOf(s: string, c: char): (i: nat)
    ensures i <= |s|
    ensures i < |s| ==> s[i] == c
    ensures forall k :: 0 <= k < i ==> s[k] != c
    ensures i == |s| <==> c !in s
  {
    if s == [] then 0 else if s[0] == c then 0 else 1 + IndexOf(s[1..], c)
  }

  /** Python's s.split(sep) for a one-character separator. */
  function Split(s: string, sep: char): (parts: seq<string>)
    ensures |parts| >= 1
    ensures forall k :: 0 <= k < |parts| ==> sep !in parts[k]
    decreases |s|
  {
    var i := IndexOf(s, sep);
    if i == |s| then [s] else [s[..i]] + Split(s[i + 1..], sep)
  }

  /** Python's sep.join(parts) for a one-character separator. */
  function Join(parts: seq<string>, sep: char): string {
    if parts == [] then ""
    else if |parts| == 1 then parts[0]
    else parts[0] + [sep] + Join(parts[1..], sep)
  }

  /** Splitting and joining again on the same separator gives the text back. */
  lemma {:induction false} JoinSplit(s: string, sep: char)
    ensures Join(Split(s, sep), sep) == s
    decreases |s|
  {
    var i := IndexOf(s, sep);
    if i < |s| {
      var rest := Split(s[i + 1..], sep);
      JoinSplit(s[i + 1..], sep);
      assert Split(s, sep) == [s[..i]] + rest;
      assert ([s[..i]] + rest)[1..] == rest;
      assert Join(Split(s, sep), sep) == s[..i] + [sep] + Join(rest, sep);
      assert s == s[..i] + [sep] + s[i + 1..];
    }
  }

  lemma {:induction false} JoinAppend(parts: seq<string>, last: string, sep: char)
    requires parts != []
    ensures Join(parts + [last], sep) == Join(parts, sep) + [sep] + last
    decreases |parts|
  {
    if |parts| > 1 {
      assert (parts + [last])[1..] == parts[1..] + [last];
      JoinAppend(parts[1..], last, sep);
    }
  }
}
