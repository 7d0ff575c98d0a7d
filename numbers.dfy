/**
 * Exact decimal numbers and the text forms the catalogue reads and writes:
 * Python's `float(text)` and `int(text)` on plain decimal literals, `str(n)` for
 * integers, and the positional rendering of a `decimal.Decimal`.
 */
module Numbers {
  import opened Wrappers
  import Text

  /** `mantissa / 10^exp`, exactly: the value `Decimal(str(x))` holds. */
  datatype Decimal = Decimal(mantissa: int, exp: nat)

  function Pow10(n: nat): (p: nat)
    ensures p >= 1
  {
    if n == 0 then 1 else 10 * Pow10(n - 1)
  }

  /** `x / 10^e`, one division by ten at a time. */
  function Scale(x: real, e: nat): real {
    if e == 0 then x else Scale(x, e - 1) / 10.0
  }

  function Value(d: Decimal): real {
    Scale(d.mantissa as real, d.exp)
  }

  predicate IsDigit(c: char) {
    '0' <= c <= '9'
  }

  predicate AllDigits(s: string) {
    forall i :: 0 <= i < |s| ==> IsDigit(s[i])
  }

  function DigitChar(d: nat): (c: char)
    requires d < 10
    ensures IsDigit(c)
  {
    ('0' as int + d) as char
  }

  /** The number a string of decimal digits denotes (leading zeros allowed). */
  function DigitsValue(s: string): nat
    requires AllDigits(s)
  {
    if s == [] then 0 else DigitsValue(s[..|s| - 1]) * 10 + (s[|s| - 1] as int - '0' as int)
  }

  /** `str(n)` for a natural number: its shortest decimal digits. */
  function NatToString(n: nat): (s: string)
    ensures s != [] && AllDigits(s)
  {
    if n < 10 then [DigitChar(n)] else NatToString(n / 10) + [DigitChar(n % 10)]
  }

  /** `text` behind a minus sign. */
  function Minus(text: string): (r: string)
    ensures |r| == |text| + 1 && r[0] == '-' && r[1..] == text
  {
    ['-'] + text
  }

  /** `str(i)` for an integer. */
  function IntToString(i: int): string {
    if i < 0 then Minus(NatToString(-i)) else NatToString(i)
  }

  function Zeros(n: nat): (s: string)
    ensures |s| == n && AllDigits(s)
  {
    if n == 0 then [] else Zeros(n - 1) + ['0']
  }

  /** `s` padded on the left with zeros to `width` characters. */
  function PadZeros(s: string, width: nat): (r: string)
    requires AllDigits(s)
    ensures |r| >= width && |r| >= |s| && AllDigits(r)
  {
    if |s| < width then Zeros(width - |s|) + s else s
  }

  /**
   * The positional text of `a / 10^e` for a natural `a`: the digits of `a`, padded with
   * zeros so that at least one digit precedes the point, and the point placed `e` digits
   * from the right (no point when `e` is 0).
   */
  function UnsignedText(a: nat, e: nat): string {
    if e == 0 then WholeDigits(a, e) else WholeDigits(a, e) + "." + FracDigits(a, e)
  }

  /** The digits of `a`, zero-padded to more than `e` of them. */
  function PaddedDigits(a: nat, e: nat): (ds: string)
    ensures |ds| > e && AllDigits(ds)
  {
    PadZeros(NatToString(a), e + 1)
  }

  /** The padded digits before the point. */
  function WholeDigits(a: nat, e: nat): string {
    PaddedDigits(a, e)[..|PaddedDigits(a, e)| - e]
  }

  /** The last `e` padded digits, after the point. */
  function FracDigits(a: nat, e: nat): string {
    PaddedDigits(a, e)[|PaddedDigits(a, e)| - e..]
  }

  /** The absolute value of the mantissa. */
  function Magnitude(d: Decimal): nat {
    if d.mantissa < 0 then -d.mantissa else d.mantissa
  }

  /**
   * The positional text of a decimal with exactly `exp` digits after the point. This is
   * what `str(Decimal)` writes unless the adjusted exponent is below -6 (`1E-7`); the
   * decimals of positionally printed floats never reach that range.
   */
  function Render(d: Decimal): string {
    var u := UnsignedText(Magnitude(d), d.exp);
    if d.mantissa < 0 then Minus(u) else u
  }

  /** The number of leading decimal digits of `s`. */
  function LeadingDigits(s: string): (k: nat)
    ensures k <= |s| && AllDigits(s[..k])
    ensures k < |s| ==> !IsDigit(s[k])
  {
    if s != [] && IsDigit(s[0]) then 1 + LeadingDigits(s[1..]) else 0
  }

  /** An unsigned decimal literal: digits, optionally a point and more digits, at least one digit in all. */
  function ParseUnsigned(s: string): Option<real> {
    var k := LeadingDigits(s);
    var whole, rest := s[..k], s[k..];
    if rest == [] then
      if k > 0 then Some(DigitsValue(whole) as real) else None
    else if rest[0] == '.' && AllDigits(rest[1..]) && (k > 0 || |rest| > 1) then
      Some(Scale(DigitsValue(whole + rest[1..]) as real, |rest| - 1))
    else
      None
  }

  /** Python's `float(text)` on a plain decimal literal: surrounding whitespace, an optional sign, a literal. */
  function ParseDecimal(s: string): Option<real> {
    var t := Text.Strip(s);
    if t != [] && (t[0] == '+' || t[0] == '-') then
      match ParseUnsigned(t[1..])
      case None => None
      case Some(v) => Some(if t[0] == '-' then -v else v)
    else
      ParseUnsigned(t)
  }

  /** Python's `int(text)`: surrounding whitespace, an optional sign, one or more decimal digits. */
  function ParseInt(s: string): Option<int> {
    var t := Text.Strip(s);
    var neg := t != [] && t[0] == '-';
    var body := if t != [] && (t[0] == '+' || t[0] == '-') then t[1..] else t;
    if body != [] && AllDigits(body) then
      Some(if neg then -(DigitsValue(body) as int) else DigitsValue(body) as int)
    else
      None
  }

  // ---------------------------------------------------------------------------
  // Round trips

  lemma {:induction false} NatToStringValue(n: nat)
    ensures DigitsValue(NatToString(n)) == n
  {
    if n >= 10 {
      NatToStringValue(n / 10);
      var s := NatToString(n);
      assert s[..|s| - 1] == NatToString(n / 10);
    }
  }

  lemma {:induction false} DigitsValueZeroPrefix(s: string)
    requires AllDigits(s)
    ensures DigitsValue(['0'] + s) == DigitsValue(s)
  {
    if s != [] {
      var t := ['0'] + s;
      assert t[..|t| - 1] == ['0'] + s[..|s| - 1];
      DigitsValueZeroPrefix(s[..|s| - 1]);
    }
  }

  lemma {:induction false} DigitsValueZeros(n: nat, s: string)
    requires AllDigits(s)
    ensures DigitsValue(Zeros(n) + s) == DigitsValue(s)
  {
    if n == 0 {
      assert Zeros(n) + s == s;
    } else {
      assert Zeros(n) + s == Zeros(n - 1) + (['0'] + s);
      DigitsValueZeros(n - 1, ['0'] + s);
      DigitsValueZeroPrefix(s);
      calc {
        DigitsValue(Zeros(n) + s);
        DigitsValue(Zeros(n - 1) + (['0'] + s));
        DigitsValue(['0'] + s);
        DigitsValue(s);
      }
    }
  }

  lemma {:induction false} LeadingDigitsOf(a: string, b: string)
    requires AllDigits(a) && (b == [] || !IsDigit(b[0]))
    ensures LeadingDigits(a + b) == |a|
  {
    if a != [] {
      assert (a + b)[1..] == a[1..] + b;
      LeadingDigitsOf(a[1..], b);
    } else {
      assert a + b == b;
    }
  }

  lemma {:induction false} PadZerosValue(s: string, width: nat)
    requires AllDigits(s)
    ensures DigitsValue(PadZeros(s, width)) == DigitsValue(s)
  {
    if |s| < width {
      DigitsValueZeros(width - |s|, s);
    }
  }

  lemma {:induction false} ScaleNeg(x: real, e: nat)
    ensures Scale(-x, e) == -Scale(x, e)
  {
    if e > 0 {
      ScaleNeg(x, e - 1);
    }
  }

  /** A rendering holds no whitespace at either end, so `float()` sees it unchanged. */
  lemma StripDigitsText(s: string)
    requires s != [] && (s[0] == '-' || IsDigit(s[0])) && IsDigit(s[|s| - 1])
    ensures Text.Strip(s) == s
  {
  }

  /** `float()` of digits alone. */
  lemma ParseWhole(whole: string)
    requires whole != [] && AllDigits(whole)
    ensures ParseUnsigned(whole) == Some(DigitsValue(whole) as real)
  {
    LeadingDigitsOf(whole, "");
    assert whole + "" == whole;
    assert whole[..|whole|] == whole;
  }

  /** `float()` of digits, a point and digits. */
  lemma ParsePoint(s: string, whole: string, frac: string, n: nat)
    requires whole != [] && AllDigits(whole) && AllDigits(frac)
    requires s == whole + "." + frac && DigitsValue(whole + frac) == n
    ensures ParseUnsigned(s) == Some(Value(Decimal(n, |frac|)))
  {
    PointShape(s, whole, frac);
  }

  /** Where the digits before the point end, and what follows them. */
  lemma PointShape(s: string, whole: string, frac: string)
    requires AllDigits(whole) && s == whole + "." + frac
    ensures LeadingDigits(s) == |whole| && s[..|whole|] == whole
    ensures s[|whole|..] == "." + frac && s[|whole|..][1..] == frac
  {
    assert s == whole + ("." + frac);
    LeadingDigitsOf(whole, "." + frac);
  }

  /** Reading back the unsigned part of a rendering gives the magnitude over `10^exp`. */
  lemma UnsignedTextValue(a: nat, e: nat)
    ensures ParseUnsigned(UnsignedText(a, e)) == Some(Value(Decimal(a, e)))
  {
    if e == 0 {
      UnsignedTextWhole(a);
    } else {
      UnsignedTextPoint(a, e);
    }
  }

  lemma UnsignedTextWhole(a: nat)
    ensures ParseUnsigned(UnsignedText(a, 0)) == Some(Value(Decimal(a, 0)))
  {
    NatToStringValue(a);
    assert UnsignedText(a, 0) == NatToString(a);
    ParseWhole(NatToString(a));
  }

  lemma UnsignedTextPoint(a: nat, e: nat)
    requires e > 0
    ensures ParseUnsigned(UnsignedText(a, e)) == Some(Value(Decimal(a, e)))
  {
    NatToStringValue(a);
    PadZerosValue(NatToString(a), e + 1);
    assert WholeDigits(a, e) + FracDigits(a, e) == PaddedDigits(a, e);
    ParsePoint(UnsignedText(a, e), WholeDigits(a, e), FracDigits(a, e), a);
  }

  /** A rendering starts and ends with a digit. */
  lemma UnsignedTextDigits(a: nat, e: nat)
    ensures UnsignedText(a, e) != [] && IsDigit(UnsignedText(a, e)[0])
    ensures IsDigit(UnsignedText(a, e)[|UnsignedText(a, e)| - 1])
  {
    assert WholeDigits(a, e)[0] == PaddedDigits(a, e)[0];
  }

  /** `float()` of an unsigned literal that starts and ends with a digit. */
  lemma ParsePlain(u: string, x: real)
    requires u != [] && IsDigit(u[0]) && IsDigit(u[|u| - 1]) && ParseUnsigned(u) == Some(x)
    ensures ParseDecimal(u) == Some(x)
  {
    StripDigitsText(u);
  }

  /** `float()` of the same literal behind a minus sign. */
  lemma ParseMinus(s: string, u: string, x: real)
    requires u != [] && IsDigit(u[0]) && IsDigit(u[|u| - 1]) && ParseUnsigned(u) == Some(x)
    requires s == Minus(u)
    ensures ParseDecimal(s) == Some(-x)
  {
    StripDigitsText(Minus(u));
  }

  /** The value of a decimal is its sign applied to the value of its magnitude. */
  lemma ValueSign(d: Decimal)
    // Stated under `Some`, the form in which the round trip uses it.
    ensures d.mantissa < 0 ==> Some(Value(d)) == Some(-Value(Decimal(Magnitude(d), d.exp)))
    ensures d.mantissa >= 0 ==> Some(Value(d)) == Some(Value(Decimal(Magnitude(d), d.exp)))
  {
    if d.mantissa < 0 {
      ScaleNeg(Magnitude(d) as real, d.exp);
    } else {
      assert d == Decimal(Magnitude(d), d.exp);
    }
  }

  /** Reading back the rendering of an exact decimal gives its value. */
  lemma RenderRoundTrip(d: Decimal)
    ensures ParseDecimal(Render(d)) == Some(Value(d))
  {
    if d.mantissa < 0 {
      RenderRoundTripNegative(d);
    } else {
      RenderRoundTripNonNegative(d);
    }
  }

  lemma RenderRoundTripNegative(d: Decimal)
    requires d.mantissa < 0
    ensures ParseDecimal(Render(d)) == Some(Value(d))
  {
    RenderNegativeText(d);
    ValueSign(d);
  }

  /** A negative decimal's rendering reads back as minus the value of its magnitude. */
  lemma RenderNegativeText(d: Decimal)
    requires d.mantissa < 0
    ensures ParseDecimal(Render(d)) == Some(-Value(Decimal(Magnitude(d), d.exp)))
  {
    UnsignedTextValue(Magnitude(d), d.exp);
    UnsignedTextDigits(Magnitude(d), d.exp);
    ParseMinus(Render(d), UnsignedText(Magnitude(d), d.exp), Value(Decimal(Magnitude(d), d.exp)));
  }

  lemma RenderRoundTripNonNegative(d: Decimal)
    requires d.mantissa >= 0
    ensures ParseDecimal(Render(d)) == Some(Value(d))
  {
    ValueSign(d);
    UnsignedTextValue(Magnitude(d), d.exp);
    UnsignedTextDigits(Magnitude(d), d.exp);
    ParsePlain(Render(d), Value(Decimal(Magnitude(d), d.exp)));
  }

  /** Text that starts with something other than whitespace, a sign, a point or a digit is no number. */
  lemma ParseDecimalRejects(s: string)
    requires s != [] && !Text.IsSpace(s[0]) && !IsDigit(s[0]) && s[0] !in "+-."
    ensures ParseDecimal(s) == None
  {
    assert Text.LStrip(s) == s;
    assert Text.Strip(s)[0] == s[0];
  }

  /** Reading back `str(i)` with `int()` gives `i`. */
  lemma IntToStringRoundTrip(i: int)
    ensures ParseInt(IntToString(i)) == Some(i)
  {
    if i < 0 {
      IntToStringNegative(i);
    } else {
      NatToStringValue(i);
      StripDigitsText(IntToString(i));
    }
  }

  lemma IntToStringNegative(i: int)
    requires i < 0
    ensures ParseInt(IntToString(i)) == Some(i)
  {
    NatToStringValue(-i);
    StripDigitsText(IntToString(i));
  }
}
