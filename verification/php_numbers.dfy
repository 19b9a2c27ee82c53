/**
 PHP's numeric conversions as the services use them, in exact arithmetic:
 `floatval` and `intval` of a string (leading-numeric prefix, 0 when there is
 none), `round` (half away from zero) and the decimal rendering of integers and
 of one-decimal floats inside string interpolation.
 */
module PhpNumbers {
  import opened Wrappers
  import opened PhpText

  function DigitValue(c: char): (d: nat)
    requires IsDigit(c)
    ensures d < 10
  {
    c as int - '0' as int
  }

  function DigitChar(d: nat): (c: char)
    requires d < 10
    ensures IsDigit(c) && DigitValue(c) == d
  {
    ('0' as int + d) as char
  }

  function Pow10(n: nat): (r: nat)
    ensures r >= 1
  {
    if n == 0 then 1 else 10 * Pow10(n - 1)
  }

  /** The number a string of decimal digits denotes. */
  function DigitsValue(s: string): nat
    requires AllDigits(s)
  {
    if |s| == 0 then 0 else 10 * DigitsValue(s[..|s| - 1]) + DigitValue(s[|s| - 1])
  }

  lemma {:induction false} DigitsValueBound(s: string)
    requires AllDigits(s)
    ensures DigitsValue(s) < Pow10(|s|)
  {
    if |s| > 0 {
      DigitsValueBound(s[..|s| - 1]);
    }
  }

  /** The longest prefix of decimal digits. */
  function LeadingDigits(s: string): (r: string)
    ensures AllDigits(r) && |r| <= |s| && r == s[..|r|]
    ensures |r| < |s| ==> !IsDigit(s[|r|])
  {
    if |s| > 0 && IsDigit(s[0]) then [s[0]] + LeadingDigits(s[1..]) else ""
  }

  /** The longest suffix of decimal digits. */
  function TrailingDigits(s: string): (r: string)
    ensures AllDigits(r) && |r| <= |s| && r == s[|s| - |r|..]
    ensures |r| < |s| ==> !IsDigit(s[|s| - |r| - 1])
  {
    if |s| > 0 && IsDigit(s[|s| - 1]) then TrailingDigits(s[..|s| - 1]) + [s[|s| - 1]] else ""
  }

  lemma {:induction false} LeadingDigitsOf(x: string, t: string)
    requires AllDigits(x)
    requires |t| == 0 || !IsDigit(t[0])
    ensures LeadingDigits(x + t) == x
    decreases |x|
  {
    if |x| == 0 {
      assert x + t == t;
    } else {
      assert (x + t)[1..] == x[1..] + t;
      LeadingDigitsOf(x[1..], t);
    }
  }

  lemma {:induction false} TrailingDigitsOf(t: string, x: string)
    requires AllDigits(x)
    requires |t| == 0 || !IsDigit(t[|t| - 1])
    ensures TrailingDigits(t + x) == x
    decreases |x|
  {
    if |x| == 0 {
      assert t + x == t;
    } else {
      assert (t + x)[..|t + x| - 1] == t + x[..|x| - 1];
      TrailingDigitsOf(t, x[..|x| - 1]);
    }
  }

  /** Whitespace a PHP numeric string may start with. */
  predicate IsNumericSpace(c: char) {
    c == ' ' || c == '\t' || c == '\n' || c == '\r' || c == '\U{B}' || c == '\U{C}'
  }

  /** What is left after the leading whitespace and an optional `+`. */
  function NumericBody(s: string): string {
    var t := TrimStart(s, IsNumericSpace);
    if |t| > 0 && t[0] == '+' then t[1..] else t
  }

  /**
   `floatval($s)` for the strings reaching it here: the value of the leading
   `digits[.digits]` prefix, 0 when there is none. A `-` sign never reaches
   it, because the callers split on `-` or have checked for its absence.
   */
  function FloatVal(s: string): (r: real)
    ensures r >= 0.0
  {
    var t := NumericBody(s);
    var whole := LeadingDigits(t);
    var rest := t[|whole|..];
    if |rest| > 0 && rest[0] == '.' then
      DigitsValue(whole) as real + Fraction(LeadingDigits(rest[1..]))
    else
      DigitsValue(whole) as real
  }

  /** The value of the digits after a decimal point. */
  function Fraction(digits: string): (r: real)
    requires AllDigits(digits)
    ensures 0.0 <= r < 1.0
  {
    DigitsValueBound(digits);
    Ratio(DigitsValue(digits), Pow10(|digits|))
  }

  function Ratio(a: nat, b: nat): (r: real)
    requires a < b
    ensures 0.0 <= r < 1.0
  {
    a as real / b as real
  }

  /** `intval($s)`: the value of the leading digits, 0 when there are none. */
  function IntVal(s: string): nat {
    DigitsValue(LeadingDigits(NumericBody(s)))
  }

  /** `intval` truncates what `floatval` reads: it is its floor. */
  lemma IntValIsFloorOfFloatVal(s: string)
    ensures IntVal(s) == FloatVal(s).Floor
  {
    var t := NumericBody(s);
    var whole := LeadingDigits(t);
    var rest := t[|whole|..];
    if |rest| > 0 && rest[0] == '.' {
      FloorOfIntPlusFraction(DigitsValue(whole), Fraction(LeadingDigits(rest[1..])));
    }
  }

  lemma FloorOfIntPlusFraction(n: int, f: real)
    requires 0.0 <= f < 1.0
    ensures (n as real + f).Floor == n
  {
  }

  /** A string of digits reads back as its value under both conversions. */
  lemma FloatValOfDigits(x: string)
    requires AllDigits(x)
    ensures FloatVal(x) == DigitsValue(x) as real
    ensures IntVal(x) == DigitsValue(x)
  {
    if |x| > 0 {
      TrimStartNoop(x, IsNumericSpace);
      assert NumericBody(x) == x;
    } else {
      assert NumericBody(x) == x;
    }
    LeadingDigitsOf(x, "");
    assert x + "" == x;
  }

  /** A value that does not start like a number converts to 0. */
  lemma NonNumericIsZero(s: string)
    requires |s| > 0 && !IsDigit(s[0]) && !IsNumericSpace(s[0]) && s[0] != '+' && s[0] != '.'
    ensures FloatVal(s) == 0.0 && IntVal(s) == 0
  {
    TrimStartNoop(s, IsNumericSpace);
  }

  /**
   PHP `round($x)`: to the nearest integer, halves away from zero.
   */
  function RoundHalfAway(x: real): (r: int)
    ensures x >= 0.0 ==> r >= 0 && r as real - 0.5 <= x < r as real + 0.5
    ensures x < 0.0 ==> r <= 0 && r as real - 0.5 < x <= r as real + 0.5
  {
    if x >= 0.0 then (x + 0.5).Floor else -((-x + 0.5).Floor)
  }

  lemma RoundHalfAwayOfInt(n: int)
    ensures RoundHalfAway(n as real) == n
  {
  }

  lemma RoundHalfAwayMonotone(x: real, y: real)
    requires x <= y
    ensures RoundHalfAway(x) <= RoundHalfAway(y)
  {
  }

  /** Exactly representable to one decimal. */
  predicate IsTenths(x: real) {
    (x * 10.0).Floor as real == x * 10.0
  }

  /** Exactly representable to two decimals. */
  predicate IsHundredths(x: real) {
    (x * 100.0).Floor as real == x * 100.0
  }

  /** `round($x, 1)`. */
  function RoundToTenth(x: real): (r: real)
    ensures IsTenths(r)
    ensures -0.05 <= r - x <= 0.05
    ensures x >= 0.0 ==> r - 0.05 <= x < r + 0.05
    ensures x < 0.0 ==> r - 0.05 < x <= r + 0.05
  {
    var n := RoundHalfAway(x * 10.0);
    TenthsOf(n);
    n as real / 10.0
  }

  /** `round($x, 2)`. */
  function RoundToHundredth(x: real): (r: real)
    ensures IsHundredths(r)
    ensures -0.005 <= r - x <= 0.005
  {
    var n := RoundHalfAway(x * 100.0);
    HundredthsOf(n);
    n as real / 100.0
  }

  lemma TenthsOf(n: int)
    ensures IsTenths(n as real / 10.0)
  {
    assert (n as real / 10.0) * 10.0 == n as real;
  }

  lemma HundredthsOf(n: int)
    ensures IsHundredths(n as real / 100.0)
  {
    assert (n as real / 100.0) * 100.0 == n as real;
  }

  lemma RoundToTenthFixes(x: real)
    requires IsTenths(x)
    ensures RoundToTenth(x) == x
  {
    RoundHalfAwayOfInt((x * 10.0).Floor);
  }

  lemma RoundToHundredthFixes(x: real)
    requires IsHundredths(x)
    ensures RoundToHundredth(x) == x
  {
    RoundHalfAwayOfInt((x * 100.0).Floor);
  }

  lemma RoundToTenthMonotone(x: real, y: real)
    requires x <= y
    ensures RoundToTenth(x) <= RoundToTenth(y)
  {
    RoundHalfAwayMonotone(x * 10.0, y * 10.0);
  }

  /** Decimal rendering of a natural number, without leading zeros. */
  function NatToString(n: nat): (r: string)
    ensures |r| >= 1 && AllDigits(r)
    ensures DigitsValue(r) == n
    ensures |r| > 1 ==> r[0] != '0'
  {
    if n < 10 then [DigitChar(n)]
    else
      var r := NatToString(n / 10) + [DigitChar(n % 10)];
      assert r[..|r| - 1] == NatToString(n / 10);
      r
  }

  /** Digits as `"{$n}"` writes a natural number: at least one, and no leading zero. */
  predicate IsNumeral(s: string) {
    |s| > 0 && AllDigits(s) && (|s| == 1 || s[0] != '0')
  }

  lemma NatToStringIsNumeral(n: nat)
    ensures IsNumeral(NatToString(n))
  {
  }

  lemma {:induction false} NumeralPositive(s: string)
    requires IsNumeral(s) && |s| > 1
    ensures DigitsValue(s) >= 10
  {
    var front := s[..|s| - 1];
    if |front| > 1 {
      assert front[0] == s[0];
      NumeralPositive(front);
    } else {
      assert front[0] == s[0] && DigitValue(s[0]) >= 1;
      assert DigitsValue(front) == DigitValue(front[0]) by {
        assert front[..0] == "";
      }
    }
  }

  /** A numeral is the one rendering of its value. */
  lemma {:induction false} NumeralIsNatToString(s: string)
    requires IsNumeral(s)
    ensures NatToString(DigitsValue(s)) == s
  {
    var v := DigitsValue(s);
    if |s| == 1 {
      assert s[..0] == "";
      assert DigitChar(DigitValue(s[0])) == s[0];
    } else {
      var front := s[..|s| - 1];
      NumeralPositive(s);
      assert front[0] == s[0];
      NumeralIsNatToString(front);
      assert v / 10 == DigitsValue(front) && v % 10 == DigitValue(s[|s| - 1]);
      assert DigitChar(DigitValue(s[|s| - 1])) == s[|s| - 1];
      assert s == front + [s[|s| - 1]];
    }
  }

  /** `"{$n}"` for an integer. */
  function IntToString(n: int): (r: string)
    ensures |r| >= 1 && '_' !in r
  {
    if n < 0 then "-" + NatToString(-n) else NatToString(n)
  }

  /** Reads back the rendering of an integer. */
  function ParseInt(s: string): Option<int> {
    if |s| > 1 && s[0] == '-' && AllDigits(s[1..]) then Some(0 - DigitsValue(s[1..]) as int)
    else if |s| > 0 && AllDigits(s) then Some(DigitsValue(s))
    else None
  }

  lemma ParseIntToString(n: int)
    ensures ParseInt(IntToString(n)) == Some(n)
  {
    if n < 0 {
      assert IntToString(n)[1..] == NatToString(-n);
    }
  }

  /**
   `"{$x}"` for a float holding a one-decimal value: the integer part, then
   `.d` only when the tenths digit is not 0 (85.0 prints as `85`).
   */
  function FormatTenths(x: real): string
    requires IsTenths(x)
  {
    var k := (x * 10.0).Floor;
    if k < 0 then "-" + FormatTenthsNat(-k) else FormatTenthsNat(k)
  }

  function FormatTenthsNat(k: nat): string {
    NatToString(k / 10) + (if k % 10 == 0 then "" else "." + [DigitChar(k % 10)])
  }

  /** `floatval` reads back the rendering of a non-negative one-decimal value. */
  lemma FloatValOfFormatTenths(x: real)
    requires IsTenths(x) && x >= 0.0
    ensures FloatVal(FormatTenths(x)) == x
  {
    var k: nat := (x * 10.0).Floor;
    var q, d := k / 10, k % 10;
    TenthsSplit(x, k);
    assert FormatTenths(x) == FormatTenthsNat(k);
    if d == 0 {
      assert FormatTenthsNat(k) == NatToString(q);
      FloatValOfDigits(NatToString(q));
    } else {
      assert FormatTenthsNat(k) == NatToString(q) + "." + [DigitChar(d)];
      FloatValOfDecimal(q, d);
    }
  }

  lemma TenthsSplit(x: real, k: int)
    requires k >= 0 && k as real == x * 10.0
    ensures x == (k / 10) as real + (k % 10) as real / 10.0
  {
    assert k == (k / 10) * 10 + k % 10;
  }

  lemma FloatValOfDecimal(a: nat, d: nat)
    requires 0 < d < 10
    ensures FloatVal(NatToString(a) + "." + [DigitChar(d)]) == a as real + d as real / 10.0
  {
    var whole := NatToString(a);
    var digit := [DigitChar(d)];
    var s := whole + "." + digit;
    TrimStartNoop(s, IsNumericSpace);
    assert NumericBody(s) == s;
    assert s == whole + ("." + digit);
    LeadingDigitsOf(whole, "." + digit);
    assert s[|whole|..] == "." + digit;
    assert ("." + digit)[1..] == digit;
    LeadingDigitsOf(digit, "");
    assert digit + "" == digit;
    assert DigitsValue(digit) == d;
    assert Fraction(digit) == d as real / 10.0;
  }
}
