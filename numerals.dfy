/** `str.isdigit`, `str(int)`, `str.zfill`, and `int(...)` / `float(...)` on the plain decimal forms the scripts read. */
module Numerals {
  import opened Wrappers


  predicate IsAsciiDigit(c: char) {
    '0' <= c <= '9'
  }

  /** Python `str.isdigit` on one character of Latin-1 (the superscripts count). */
  predicate IsDigitChar(c: char) {
    IsAsciiDigit(c) || c == '\U{B2}' || c == '\U{B3}' || c == '\U{B9}'
  }

  /** Python `s.isdigit()`: non-empty and made of digit characters. */
  predicate IsDigitString(s: string) {
    |s| > 0 && forall i | 0 <= i < |s| :: IsDigitChar(s[i])
  }

  predicate AllAsciiDigits(s: string) {
    forall i | 0 <= i < |s| :: IsAsciiDigit(s[i])
  }

  function DigitChar(d: nat): (c: char)
    requires d < 10
    ensures IsAsciiDigit(c)
  {
    ('0' as int + d) as char
  }

  /** The value of a run of ASCII digits, most significant first. */
  function DigitsValue(s: string): nat
    requires AllAsciiDigits(s)
  {
    if |s| == 0 then 0
    else DigitsValue(s[..|s| - 1]) * 10 + (s[|s| - 1] as int - '0' as int)
  }

  /** Python `str(n)` for a natural number. */
  function NatToString(n: nat): (s: string)
    ensures |s| > 0 && AllAsciiDigits(s)
  {
    if n < 10 then [DigitChar(n)] else NatToString(n / 10) + [DigitChar(n % 10)]
  }

  lemma {:induction false} NatToStringRoundTrip(n: nat)
    ensures DigitsValue(NatToString(n)) == n
  {
    var s := NatToString(n);
    if n >= 10 {
      NatToStringRoundTrip(n / 10);
      assert s[..|s| - 1] == NatToString(n / 10);
    }
  }

  /** Python `str(i)`. */
  function IntToString(i: int): string {
    if i < 0 then "-" + NatToString(-i) else NatToString(i)
  }

  /** Python `s.zfill(width)`: zeros after an optional sign up to `width` characters. */
  function ZFill(s: string, width: nat): (r: string)
    ensures |r| == if |s| >= width then |s| else width
  {
    if |s| >= width then s
    else
      var zeros := seq(width - |s|, _ => '0');
      if |s| > 0 && (s[0] == '+' || s[0] == '-') then [s[0]] + zeros + s[1..]
      else zeros + s
  }

  /** Zeros in front of a run of digits do not change its value. */
  lemma {:induction false} DigitsValueLeadingZeros(z: string, d: string)
    requires forall i | 0 <= i < |z| :: z[i] == '0'
    requires AllAsciiDigits(d)
    ensures AllAsciiDigits(z + d) && DigitsValue(z + d) == DigitsValue(d)
    decreases |z| + |d|
  {
    if |d| > 0 {
      DigitsValueLeadingZeros(z, d[..|d| - 1]);
      assert (z + d)[..|z + d| - 1] == z + d[..|d| - 1];
    } else if |z| > 0 {
      DigitsValueLeadingZeros(z[..|z| - 1], d);
      assert (z + d)[..|z + d| - 1] == z[..|z| - 1] + d;
    } else {
      assert z + d == "";
    }
  }

  /** `int(s)` on stripped text: an optional sign followed by ASCII digits; `None` is the ValueError. */
  function ParseInt(s: string): Option<int> {
    if |s| > 0 && (s[0] == '-' || s[0] == '+') then
      var d := s[1..];
      if |d| > 0 && AllAsciiDigits(d) then
        var v: int := DigitsValue(d);
        Some(if s[0] == '-' then -v else v)
      else None
    else if |s| > 0 && AllAsciiDigits(s) then Some(DigitsValue(s))
    else None
  }

  /** `int` reads back an unsigned or a '-'-signed run of ASCII digits. */
  lemma ParseIntOfDigits(d: string)
    requires |d| > 0 && AllAsciiDigits(d)
    ensures ParseInt(d) == Some(DigitsValue(d) as int)
    ensures ParseInt("-" + d) == Some(-(DigitsValue(d) as int))
  {
    assert IsAsciiDigit(d[0]);
    assert ("-" + d)[1..] == d;
  }

  /** `int(str(i)) == i`. */
  lemma IntRoundTrip(i: int)
    ensures ParseInt(IntToString(i)) == Some(i)
  {
    var n: nat := if i < 0 then -i else i;
    NatToStringRoundTrip(n);
    ParseIntOfDigits(NatToString(n));
  }

  function Pow10(n: nat): (p: nat)
    ensures p >= 1
  {
    if n == 0 then 1 else 10 * Pow10(n - 1)
  }

  /** Index of the first '.' in `s`, or |s|. */
  function DotIndex(s: string): (k: nat)
    ensures k <= |s| && (k == |s| || s[k] == '.')
    ensures forall i | 0 <= i < k :: s[i] != '.'
  {
    if |s| == 0 || s[0] == '.' then 0 else 1 + DotIndex(s[1..])
  }

  /** An unsigned decimal numeral `ddd`, `ddd.ddd`, `.ddd` or `ddd.`. */
  function ParseUnsignedDecimal(s: string): Option<real> {
    var k := DotIndex(s);
    var whole := s[..k];
    var frac := if k < |s| then s[k + 1..] else "";
    if |whole| + |frac| > 0 && AllAsciiDigits(whole) && AllAsciiDigits(frac) then
      Some(DigitsValue(whole) as real + DigitsValue(frac) as real / Pow10(|frac|) as real)
    else None
  }

  /** `float(s)` on stripped decimal text; `None` is the ValueError. */
  function ParseDecimal(s: string): Option<real> {
    if |s| > 0 && (s[0] == '-' || s[0] == '+') then
      match ParseUnsignedDecimal(s[1..])
      case Some(v) => Some(if s[0] == '-' then -v else v)
      case None => None
    else ParseUnsignedDecimal(s)
  }

  /** `float(str(i)) == i` for integers. */
  lemma DecimalOfIntString(i: int)
    ensures ParseDecimal(IntToString(i)) == Some(i as real)
  {
    var n: nat := if i < 0 then -i else i;
    var d := NatToString(n);
    assert DotIndex(d) == |d|;
    assert d[..|d|] == d;
    NatToStringRoundTrip(n);
    if i < 0 {
      assert IntToString(i)[1..] == d;
    }
  }
}
