/** The .NET character classes and the `Int32` parser the service relies on:
    whitespace as `char.IsWhiteSpace` and `string.IsNullOrWhiteSpace` see it,
    the decimal digits of the regular-expression class `\d`, and the grammar
    that `int.Parse` and `int.TryParse` accept for configuration values. */
module Text {
  import opened Wrappers

  /** `char.IsWhiteSpace`: U+0009..U+000D, U+0085 and the Unicode space,
      line and paragraph separators. */
  predicate IsWhiteSpace(c: char) {
    var u := c as int;
    (0x0009 <= u <= 0x000D) || u == 0x0020 || u == 0x0085 || u == 0x00A0
    || u == 0x1680 || (0x2000 <= u <= 0x200A) || u == 0x2028 || u == 0x2029
    || u == 0x202F || u == 0x205F || u == 0x3000
  }

  /** `string.IsNullOrWhiteSpace` on a non-null string: every character is whitespace. */
  predicate IsNullOrWhiteSpace(s: string) {
    forall i :: 0 <= i < |s| ==> IsWhiteSpace(s[i])
  }

  predicate IsAsciiDigit(c: char) { '0' <= c <= '9' }
  predicate IsAsciiLower(c: char) { 'a' <= c <= 'z' }
  predicate IsAsciiUpper(c: char) { 'A' <= c <= 'Z' }
  predicate IsAsciiLetter(c: char) { IsAsciiLower(c) || IsAsciiUpper(c) }
  predicate IsAsciiLetterOrDigit(c: char) { IsAsciiLetter(c) || IsAsciiDigit(c) }

  /** The first code point of each run of ten decimal digits (Unicode
      category Nd) in the Basic Multilingual Plane. */
  const DigitZeros: seq<int> := [
    0x0030, 0x0660, 0x06F0, 0x07C0, 0x0966, 0x09E6, 0x0A66, 0x0AE6, 0x0B66,
    0x0BE6, 0x0C66, 0x0CE6, 0x0D66, 0x0DE6, 0x0E50, 0x0ED0, 0x0F20, 0x1040,
    0x1090, 0x17E0, 0x1810, 0x1946, 0x19D0, 0x1A80, 0x1A90, 0x1B50, 0x1BB0,
    0x1C40, 0x1C50, 0xA620, 0xA8D0, 0xA900, 0xA9D0, 0xA9F0, 0xAA50, 0xABF0,
    0xFF10]

  /** The regular-expression class `\d`, which .NET matches against any
      decimal digit, not only 0-9. */
  predicate IsDecimalDigit(c: char) {
    exists k :: 0 <= k < |DigitZeros| && DigitZeros[k] <= c as int < DigitZeros[k] + 10
  }

  lemma AsciiDigitIsDecimalDigit(c: char)
    requires IsAsciiDigit(c)
    ensures IsDecimalDigit(c)
  {
    assert DigitZeros[0] <= c as int < DigitZeros[0] + 10;
  }

  // ---------------------------------------------------------------------
  // Int32 parsing and formatting
  // ---------------------------------------------------------------------

  const MinInt32: int := -0x8000_0000
  const MaxInt32: int := 0x7FFF_FFFF

  /** The whitespace that `NumberStyles.Integer` allows around a number. */
  predicate IsNumberWhite(c: char) { c == ' ' || (0x0009 <= c as int <= 0x000D) }

  predicate AllAsciiDigits(s: string) {
    forall i :: 0 <= i < |s| ==> IsAsciiDigit(s[i])
  }

  function DigitValue(c: char): nat
    requires IsAsciiDigit(c)
  {
    c as int - '0' as int
  }

  /** The value of a string of decimal digits, read left to right. */
  function DigitsValue(s: string): nat
    requires AllAsciiDigits(s)
  {
    if s == [] then 0 else 10 * DigitsValue(s[..|s| - 1]) + DigitValue(s[|s| - 1])
  }

  function TrimStartNumberWhite(s: string): (r: string)
    ensures |r| <= |s| && r == s[|s| - |r|..]
    ensures r == [] || !IsNumberWhite(r[0])
  {
    if |s| > 0 && IsNumberWhite(s[0]) then TrimStartNumberWhite(s[1..]) else s
  }

  function TrimEndNumberWhite(s: string): (r: string)
    ensures |r| <= |s| && r == s[..|r|]
    ensures r == [] || !IsNumberWhite(r[|r| - 1])
  {
    if |s| > 0 && IsNumberWhite(s[|s| - 1]) then TrimEndNumberWhite(s[..|s| - 1]) else s
  }

  /** `int.Parse` / `int.TryParse` with the invariant sign symbols: optional
      surrounding whitespace, an optional sign and at least one digit, in the
      range of `Int32`. `None` is where `int.Parse` throws and
      `int.TryParse` returns false. */
  function ParseInt32(s: string): (r: Option<int>)
    ensures r.Some? ==> MinInt32 <= r.value <= MaxInt32
  {
    ParseSignedDigits(TrimEndNumberWhite(TrimStartNumberWhite(s)))
  }

  /** An optional sign followed by at least one digit, in the range of `Int32`. */
  function ParseSignedDigits(t: string): (r: Option<int>)
    ensures r.Some? ==> MinInt32 <= r.value <= MaxInt32
  {
    if t == [] then None
    else
      var digits := if t[0] == '-' || t[0] == '+' then t[1..] else t;
      if digits == [] || !AllAsciiDigits(digits) then None
      else
        var v: int := if t[0] == '-' then -(DigitsValue(digits) as int) else DigitsValue(digits);
        if MinInt32 <= v <= MaxInt32 then Some(v) else None
  }

  function DigitChar(d: nat): (c: char)
    requires d < 10
    ensures IsAsciiDigit(c) && DigitValue(c) == d
  {
    ('0' as int + d) as char
  }

  /** The decimal digits of `n`, most significant first, without leading zeros. */
  function FormatNat(n: nat): (s: string)
    ensures |s| > 0 && AllAsciiDigits(s)
  {
    if n < 10 then [DigitChar(n)] else FormatNat(n / 10) + [DigitChar(n % 10)]
  }

  /** `Int32.ToString()` with the invariant culture. */
  function FormatInt(n: int): string {
    if n < 0 then "-" + FormatNat(-n) else FormatNat(n)
  }

  lemma {:induction false} DigitsValueOfFormatNat(n: nat)
    ensures DigitsValue(FormatNat(n)) == n
  {
    if n >= 10 {
      var s := FormatNat(n);
      DigitsValueOfFormatNat(n / 10);
      assert s[..|s| - 1] == FormatNat(n / 10);
    }
  }

  /** Trimming leaves a string alone when neither end is whitespace. */
  lemma TrimKeepsUnpadded(s: string)
    requires s != [] && !IsNumberWhite(s[0]) && !IsNumberWhite(s[|s| - 1])
    ensures TrimEndNumberWhite(TrimStartNumberWhite(s)) == s
  {
  }

  /** The printed form of a number starts with a sign or a digit and ends in a digit. */
  lemma FormatIntEnds(n: int)
    ensures var s := FormatInt(n);
            s != [] && !IsNumberWhite(s[0]) && IsAsciiDigit(s[|s| - 1])
  {
    var m: nat := if n < 0 then -n else n;
    var digits := FormatNat(m);
    assert IsAsciiDigit(digits[0]) && IsAsciiDigit(digits[|digits| - 1]);
    if n < 0 {
      assert FormatInt(n) == "-" + digits;
    }
  }

  /** Parsing what `FormatInt` prints gives the number back, for every value
      of `Int32`. */
  lemma {:induction false} ParseFormatRoundTrip(n: int)
    requires MinInt32 <= n <= MaxInt32
    ensures ParseSignedDigits(FormatInt(n)) == Some(n)
    ensures ParseInt32(FormatInt(n)) == Some(n)
  {
    var s := FormatInt(n);
    var m: nat := if n < 0 then -n else n;
    var digits := FormatNat(m);
    DigitsValueOfFormatNat(m);
    if n < 0 {
      assert s == "-" + digits && s[1..] == digits;
      assert ParseSignedDigits(s) == Some(n);
    } else {
      assert s == digits;
      assert IsAsciiDigit(digits[0]);
      assert ParseSignedDigits(s) == Some(n);
    }
    FormatIntEnds(n);
    TrimKeepsUnpadded(s);
  }

  lemma TrimStartSkipsWhite(c: char, t: string)
    requires IsNumberWhite(c)
    ensures TrimStartNumberWhite([c] + t) == TrimStartNumberWhite(t)
  {
    assert ([c] + t)[1..] == t;
  }

  lemma TrimEndSkipsWhite(t: string, c: char)
    requires IsNumberWhite(c)
    ensures TrimEndNumberWhite(t + [c]) == TrimEndNumberWhite(t)
  {
    assert (t + [c])[..|t|] == t;
  }

  predicate AllNumberWhite(s: string) {
    forall i :: 0 <= i < |s| ==> IsNumberWhite(s[i])
  }

  /** Leading whitespace of any length is trimmed away. */
  lemma {:induction false} TrimStartSkipsPadding(p: string, t: string)
    requires AllNumberWhite(p)
    ensures TrimStartNumberWhite(p + t) == TrimStartNumberWhite(t)
    decreases |p|
  {
    if p != [] {
      assert p + t == [p[0]] + (p[1..] + t);
      TrimStartSkipsWhite(p[0], p[1..] + t);
      TrimStartSkipsPadding(p[1..], t);
    } else {
      assert p + t == t;
    }
  }

  /** Trailing whitespace of any length is trimmed away. */
  lemma {:induction false} TrimEndSkipsPadding(t: string, q: string)
    requires AllNumberWhite(q)
    ensures TrimEndNumberWhite(t + q) == TrimEndNumberWhite(t)
    decreases |q|
  {
    if q != [] {
      var front := q[..|q| - 1];
      assert t + q == (t + front) + [q[|q| - 1]];
      TrimEndSkipsWhite(t + front, q[|q| - 1]);
      TrimEndSkipsPadding(t, front);
    } else {
      assert t + q == t;
    }
  }

  /** A value that `ParseInt32` accepts may be surrounded by any amount of
      the whitespace `NumberStyles.Integer` allows. */
  lemma {:induction false} ParseIgnoresSurroundingWhite(n: int, p: string, q: string)
    requires MinInt32 <= n <= MaxInt32
    requires AllNumberWhite(p) && AllNumberWhite(q)
    ensures ParseInt32(p + FormatInt(n) + q) == Some(n)
  {
    var s := FormatInt(n);
    FormatIntEnds(n);
    ParseFormatRoundTrip(n);
    assert p + s + q == p + (s + q);
    TrimStartSkipsPadding(p, s + q);
    assert (s + q)[0] == s[0];
    assert TrimStartNumberWhite(s + q) == s + q;
    TrimEndSkipsPadding(s, q);
    TrimKeepsUnpadded(s);
  }

  /** The case of a leading space and a trailing carriage return and line feed. */
  lemma PaddedNumberVector()
    ensures ParseInt32(" 42\r\n") == Some(42)
  {
    assert FormatInt(42) == "42";
    assert " 42\r\n" == " " + FormatInt(42) + "\r\n";
    ParseIgnoresSurroundingWhite(42, " ", "\r\n");
  }
}
