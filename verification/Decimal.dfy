/**
 Decimal numbers: what the rule language writes and reads. A number is
 mantissa / 10^scale in lowest terms, so equal numbers are equal values.
 Exact decimals stand for Go's binary64.
 */
module Decimal {
  import opened RuleText
  import opened Wrappers

  datatype Raw = Raw(mantissa: nat, scale: nat)

  type Dec = d: Raw | Normal(d) witness Raw(0, 0)

  predicate Normal(d: Raw) {
    d.scale == 0 || d.mantissa % 10 != 0
  }

  function Normalize(mantissa: nat, scale: nat): (d: Dec)
    decreases scale
  {
    if scale > 0 && mantissa % 10 == 0 then Normalize(mantissa / 10, scale - 1)
    else Raw(mantissa, scale)
  }

  function Pow10(n: nat): (r: nat)
    ensures r > 0
  {
    if n == 0 then 1 else 10 * Pow10(n - 1)
  }

  function Value(d: Raw): real {
    d.mantissa as real / Pow10(d.scale) as real
  }

  function Div100(d: Dec): Dec {
    Normalize(d.mantissa, d.scale + 2)
  }

  function Mul100(d: Dec): Dec {
    if d.scale >= 2 then Raw(d.mantissa, d.scale - 2)
    else if d.scale == 1 then Raw(10 * d.mantissa, 0)
    else Raw(100 * d.mantissa, 0)
  }

  /** A percentage survives being stored as a ratio and printed as a percentage. */
  lemma Div100OfMul100(d: Dec)
    ensures Div100(Mul100(d)) == d
  {
    if d.scale == 1 {
      assert Normalize(10 * d.mantissa, 2) == Normalize(d.mantissa, 1);
    } else if d.scale == 0 {
      assert Normalize(100 * d.mantissa, 2) == Normalize(10 * d.mantissa, 1) == Normalize(d.mantissa, 0);
    }
  }

  /** Normalizing keeps the number. */
  lemma {:induction false} NormalizeKeepsValue(mantissa: nat, scale: nat)
    ensures Value(Normalize(mantissa, scale)) == mantissa as real / Pow10(scale) as real
  {
    if scale > 0 && mantissa % 10 == 0 {
      NormalizeKeepsValue(mantissa / 10, scale - 1);
      var p := Pow10(scale - 1) as real;
      var m := (mantissa / 10) as real;
      assert mantissa as real == 10.0 * m && Pow10(scale) as real == 10.0 * p;
      CancelTen(m, p);
    }
  }

  lemma CancelTen(m: real, p: real)
    requires p > 0.0
    ensures 10.0 * m / (10.0 * p) == m / p
  {
    var q := m / p;
    assert q * p == m;
    assert q * (10.0 * p) == 10.0 * (q * p);
  }

  // ----- digit strings -----

  function DigitChar(d: nat): (c: char)
    requires d < 10
    ensures IsDigit(c)
  {
    (d + '0' as int) as char
  }

  /** The number a digit string spells; the empty string spells zero. */
  function DigitsValue(s: string): nat
    requires AllOf(s, IsDigit)
  {
    if s == "" then 0
    else 10 * DigitsValue(s[..|s| - 1]) + (s[|s| - 1] as int - '0' as int)
  }

  function Digits(n: nat): (s: string)
    ensures s != "" && AllOf(s, IsDigit)
  {
    if n < 10 then [DigitChar(n)] else Digits(n / 10) + [DigitChar(n % 10)]
  }

  lemma {:induction false} DigitsValueOfDigits(n: nat)
    ensures DigitsValue(Digits(n)) == n
  {
    if n >= 10 {
      DigitsValueOfDigits(n / 10);
      assert Digits(n)[..|Digits(n)| - 1] == Digits(n / 10);
    } else {
      assert Digits(n)[..0] == "";
    }
  }

  function PadZeros(s: string, n: nat): (r: string)
    requires AllOf(s, IsDigit)
    ensures |r| >= n && |r| >= |s| && AllOf(r, IsDigit)
    decreases n - |s|
  {
    if |s| >= n then s else PadZeros("0" + s, n)
  }

  lemma {:induction false} LeadingZero(s: string)
    requires AllOf(s, IsDigit)
    ensures AllOf("0" + s, IsDigit) && DigitsValue("0" + s) == DigitsValue(s)
  {
    if s == "" {
      assert ("0" + s)[..0] == "";
    } else {
      LeadingZero(s[..|s| - 1]);
      assert ("0" + s)[..|s|] == "0" + s[..|s| - 1];
    }
  }

  lemma {:induction false} PaddedValue(s: string, n: nat)
    requires AllOf(s, IsDigit)
    ensures DigitsValue(PadZeros(s, n)) == DigitsValue(s)
    decreases n - |s|
  {
    if |s| < n {
      LeadingZero(s);
      PaddedValue("0" + s, n);
    }
  }

  // ----- printing -----

  /** Plain decimal notation without trailing zeros. */
  function Print(d: Dec): (s: string)
    ensures s != "" && AllOf(s, IsNumberPart) && IsDigit(s[0])
  {
    if d.scale == 0 then Digits(d.mantissa)
    else
      var s := PadZeros(Digits(d.mantissa), d.scale + 1);
      s[..|s| - d.scale] + "." + s[|s| - d.scale..]
  }

  // ----- parsing -----

  /** Digits with at most one point and at least one digit. */
  function ParseMantissa(s: string): (r: Option<Raw>)
  {
    var dot := RunEnd(s, 0, IsDigit);
    if dot == |s| then
      if s == "" then None else Some(Raw(DigitsValue(s), 0))
    else
      var whole, fraction := s[..dot], s[dot + 1..];
      if s[dot] != '.' || !AllOf(fraction, IsDigit) || whole + fraction == "" then None
      else Some(Raw(DigitsValue(whole + fraction), |fraction|))
  }

  predicate NotExponentMark(c: char) {
    !IsExponentMark(c)
  }

  function ParseExponent(s: string): Option<int> {
    var digits := if s != "" && IsSign(s[0]) then s[1..] else s;
    if digits == "" || !AllOf(digits, IsDigit) then None
    else
      var v: int := DigitsValue(digits);
      Some(if s[0] == '-' then -v else v)
  }

  function Scaled(r: Raw, exponent: int): Dec {
    if exponent <= r.scale then Normalize(r.mantissa, r.scale - exponent)
    else Normalize(r.mantissa * Pow10(exponent - r.scale), 0)
  }

  /** strconv.ParseFloat on the texts the lexer lets through, without its range limit. */
  function Parse(s: string): Option<Dec> {
    var mark := RunEnd(s, 0, NotExponentMark);
    var mantissa := ParseMantissa(s[..mark]);
    if mantissa.None? then None
    else if mark == |s| then Some(Scaled(mantissa.value, 0))
    else
      var exponent := ParseExponent(s[mark + 1..]);
      if exponent.None? then None else Some(Scaled(mantissa.value, exponent.value))
  }

  /** Reading back what was printed gives the same number. */
  lemma ParseOfPrint(d: Dec)
    ensures Parse(Print(d)) == Some(d)
  {
    var s := Print(d);
    RunEndIs(s, 0, NotExponentMark, |s|);
    assert s[..|s|] == s;
    MantissaOfPrint(d);
    assert Scaled(Raw(d.mantissa, d.scale), 0) == d;
  }

  lemma MantissaOfPrint(d: Dec)
    ensures ParseMantissa(Print(d)) == Some(Raw(d.mantissa, d.scale))
  {
    var digits := Digits(d.mantissa);
    DigitsValueOfDigits(d.mantissa);
    if d.scale == 0 {
      RunEndIs(digits, 0, IsDigit, |digits|);
    } else {
      var s := PadZeros(digits, d.scale + 1);
      PaddedValue(digits, d.scale + 1);
      assert s[..|s| - d.scale] + s[|s| - d.scale..] == s;
      MantissaOfParts(s[..|s| - d.scale], s[|s| - d.scale..]);
    }
  }

  lemma MantissaOfParts(whole: string, fraction: string)
    requires AllOf(whole, IsDigit) && AllOf(fraction, IsDigit) && whole != ""
    ensures AllOf(whole + fraction, IsDigit)
    ensures ParseMantissa(whole + "." + fraction) == Some(Raw(DigitsValue(whole + fraction), |fraction|))
  {
    var text := whole + "." + fraction;
    RunEndIs(text, 0, IsDigit, |whole|);
    assert text[..|whole|] == whole && text[|whole| + 1..] == fraction;
  }
}
