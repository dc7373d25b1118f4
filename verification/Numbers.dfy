/**
 * Finite numbers as exact decimals. A double is identified with the shortest decimal that
 * denotes it, which is the value that ECMA-262 prints (section 6.1.6.1.20, Number::toString).
 */
module Numbers {
  import opened Text

  /** coefficient * 10^exponent */
  datatype Decimal = Decimal(coefficient: int, exponent: int)

  /** Every value has one representation: no trailing zero in the coefficient, one zero. */
  predicate Canonical(d: Decimal) {
    if d.coefficient == 0 then d.exponent == 0 else d.coefficient % 10 != 0
  }

  type Number = d: Decimal | Canonical(d) witness Decimal(0, 0)

  function Reduced(coefficient: nat, exponent: int): (d: Number)
    ensures d.coefficient >= 0
  {
    if coefficient == 0 then Decimal(0, 0)
    else if coefficient % 10 == 0 then Reduced(coefficient / 10, exponent + 1)
    else Decimal(coefficient, exponent)
  }

  lemma {:induction false} ReducedScaled(m: nat, zeros: nat, exponent: int)
    requires m % 10 != 0
    ensures Reduced(m * Pow10(zeros), exponent) == Decimal(m, exponent + zeros)
  {
    if zeros > 0 {
      var p := m * Pow10(zeros - 1);
      assert m * Pow10(zeros) == 10 * p;
      assert p > 0;
      ReducedScaled(m, zeros - 1, exponent + 1);
    }
  }

  function Negate(d: Number): Number {
    Decimal(-d.coefficient, d.exponent)
  }

  function Abs(n: int): nat {
    if n < 0 then -n else n
  }

  /** How many digits of the shortest decimal stand left of the point: `n` in ECMA-262. */
  function PointPosition(d: Number): int {
    |Digits(Abs(d.coefficient))| + d.exponent
  }

  function ExponentText(e: int): string {
    (if e < 0 then "e-" else "e+") + Digits(Abs(e))
  }

  /** Number::toString for a value that is not negative. */
  function UnsignedText(d: Number): string
    requires d.coefficient >= 0
  {
    if d.coefficient == 0 then "0" else
    var ds, n := Digits(d.coefficient), PointPosition(d);
    if |ds| <= n <= 21 then ds + Zeros(n - |ds|)
    else if 0 < n <= 21 then ds[..n] + "." + ds[n..]
    else if -6 < n <= 0 then "0." + Zeros(-n) + ds
    else if |ds| == 1 then ds + ExponentText(n - 1)
    else ds[..1] + "." + ds[1..] + ExponentText(n - 1)
  }

  /** Number::toString, which is also what JSON.stringify writes for a finite number. */
  function NumberText(d: Number): string {
    if d.coefficient < 0 then "-" + UnsignedText(Negate(d)) else UnsignedText(d)
  }

  function ParseExponent(s: string): Option<int> {
    if s == [] then None else
    var digits := if s[0] == '-' || s[0] == '+' then s[1..] else s;
    if digits == [] || !AllDigits(digits) then None
    else
      var n: int := Value(digits);
      Some(if s[0] == '-' then -n else n)
  }

  /** Digits before and after the point; None when there are two points or none before the first. */
  function ParseMantissa(s: string): (r: Option<(string, string)>)
    ensures r.Some? ==> AllDigits(r.value.0) && AllDigits(r.value.1)
  {
    var p := Find(s, '.');
    var whole, fraction := s[..p], if p == |s| then "" else s[p + 1..];
    if whole == [] || !AllDigits(whole) || !AllDigits(fraction) then None else Some((whole, fraction))
  }

  function Scaled(whole: string, fraction: string, exponent: int): (d: Number)
    requires AllDigits(whole) && AllDigits(fraction)
    ensures d.coefficient >= 0
  {
    Reduced(Value(whole + fraction), exponent - |fraction|)
  }

  /**
   * Number(text) for text of digits, points and an exponent; None is NaN. Text with two points,
   * or with no digit before the point, is not read.
   */
  function ParseUnsigned(s: string): (r: Option<Number>)
    ensures r.Some? ==> r.value.coefficient >= 0
  {
    var e := Find(s, 'e');
    Combine(ParseMantissa(s[..e]), if e == |s| then Some(0) else ParseExponent(s[e + 1..]))
  }

  function Combine(mantissa: Option<(string, string)>, exponent: Option<int>): (r: Option<Number>)
    requires mantissa.Some? ==> AllDigits(mantissa.value.0) && AllDigits(mantissa.value.1)
    ensures r.Some? ==> r.value.coefficient >= 0
  {
    if mantissa.None? || exponent.None? then None
    else Some(Scaled(mantissa.value.0, mantissa.value.1, exponent.value))
  }

  function ParseNumber(s: string): Option<Number> {
    if s != [] && s[0] == '-' then
      match ParseUnsigned(s[1..])
      case None => None
      case Some(d) => Some(Negate(d))
    else ParseUnsigned(s)
  }

  function MantissaText(whole: string, fraction: string): string {
    if fraction == [] then whole else whole + "." + fraction
  }

  lemma ParseMantissaText(whole: string, fraction: string)
    requires whole != [] && AllDigits(whole) && AllDigits(fraction)
    ensures ParseMantissa(MantissaText(whole, fraction)) == Some((whole, fraction))
    ensures 'e' !in MantissaText(whole, fraction)
  {
    var s := MantissaText(whole, fraction);
    if fraction == [] {
      FindNone(whole, '.');
      assert s[..|whole|] == whole;
    } else {
      FindFirst(whole, '.', fraction);
      assert s == whole + ['.'] + fraction;
      assert s[..|whole|] == whole && s[|whole| + 1..] == fraction;
    }
  }

  lemma ParseExponentText(e: int)
    ensures ParseExponent(ExponentText(e)[1..]) == Some(e)
  {
    ValueOfDigits(Abs(e));
    assert ExponentText(e)[1..][1..] == Digits(Abs(e));
  }

  lemma ParseFixed(whole: string, fraction: string)
    requires whole != [] && AllDigits(whole) && AllDigits(fraction)
    ensures ParseUnsigned(MantissaText(whole, fraction)) == Some(Scaled(whole, fraction, 0))
  {
    var s := MantissaText(whole, fraction);
    ParseMantissaText(whole, fraction);
    FindNone(s, 'e');
    assert s[..|s|] == s;
  }

  lemma SplitAtExponent(m: string, e: int)
    requires 'e' !in m
    ensures ParseUnsigned(m + ExponentText(e)) == Combine(ParseMantissa(m), Some(e))
  {
    ParseExponentText(e);
    var tail := ExponentText(e)[1..];
    var s := m + ExponentText(e);
    assert s == m + ['e'] + tail;
    FindFirst(m, 'e', tail);
    assert s[..|m|] == m && s[|m| + 1..] == tail;
  }

  lemma ParseScientific(whole: string, fraction: string, e: int)
    requires whole != [] && AllDigits(whole) && AllDigits(fraction)
    ensures ParseUnsigned(MantissaText(whole, fraction) + ExponentText(e)) == Some(Scaled(whole, fraction, e))
  {
    ParseMantissaText(whole, fraction);
    SplitAtExponent(MantissaText(whole, fraction), e);
  }

  /** Splitting the digits of a canonical coefficient at the point loses nothing. */
  lemma ScaledSplit(d: Number, at: nat, e: int)
    requires d.coefficient > 0 && at <= |Digits(d.coefficient)|
    requires e - (|Digits(d.coefficient)| - at) == d.exponent
    ensures Scaled(Digits(d.coefficient)[..at], Digits(d.coefficient)[at..], e) == d
  {
    var ds := Digits(d.coefficient);
    assert ds[..at] + ds[at..] == ds;
    ValueOfDigits(d.coefficient);
  }

  lemma ParseUnsignedText(d: Number)
    requires d.coefficient > 0
    ensures ParseUnsigned(UnsignedText(d)) == Some(d)
  {
    hide ParseUnsigned, ExponentText, Scaled;
    var ds, n := Digits(d.coefficient), PointPosition(d);
    if |ds| <= n <= 21 {
      ParseIntegerText(d);
    } else if 0 < n <= 21 {
      ParseFixed(ds[..n], ds[n..]);
      ScaledSplit(d, n, 0);
    } else if -6 < n <= 0 {
      ParseFractionText(d);
    } else {
      ParseScientificText(d);
    }
  }

  lemma ParseScientificText(d: Number)
    requires d.coefficient > 0
    ensures ParseUnsigned(MantissaText(Digits(d.coefficient)[..1], Digits(d.coefficient)[1..]) + ExponentText(PointPosition(d) - 1))
         == Some(d)
    ensures |Digits(d.coefficient)| == 1 ==> Digits(d.coefficient)[..1] == Digits(d.coefficient)
  {
    hide ParseUnsigned, ExponentText, MantissaText, Scaled;
    var ds := Digits(d.coefficient);
    ParseScientific(ds[..1], ds[1..], PointPosition(d) - 1);
    ScaledSplit(d, 1, PointPosition(d) - 1);
  }

  lemma ParseIntegerText(d: Number)
    requires d.coefficient > 0 && d.exponent >= 0
    ensures ParseUnsigned(Digits(d.coefficient) + Zeros(d.exponent)) == Some(d)
  {
    var ds := Digits(d.coefficient);
    var whole := ds + Zeros(d.exponent);
    ParseFixed(whole, "");
    assert whole + "" == whole;
    ValueOfDigits(d.coefficient);
    ValueWithTrailingZeros(ds, d.exponent);
    ReducedScaled(d.coefficient, d.exponent, 0);
  }

  lemma ZerosConcat(m: nat, n: nat, s: string)
    ensures Zeros(m) + (Zeros(n) + s) == Zeros(m + n) + s
  {}

  lemma ScaledValue(whole: string, fraction: string, v: nat)
    requires AllDigits(whole) && AllDigits(fraction) && Value(whole + fraction) == v
    ensures Scaled(whole, fraction, 0) == Reduced(v, 0 - |fraction|)
  {}

  lemma FractionValue(whole: nat, zeros: nat, ds: string)
    requires AllDigits(ds)
    ensures Value(Zeros(whole) + (Zeros(zeros) + ds)) == Value(ds)
  {
    ValueWithLeadingZeros(whole + zeros, ds);
    ZerosConcat(whole, zeros, ds);
  }

  lemma FractionText(ds: string, zeros: nat)
    requires ds != []
    ensures "0." + Zeros(zeros) + ds == MantissaText(Zeros(1), Zeros(zeros) + ds)
  {
    assert Zeros(1) == "0";
    assert "0" + "." == "0.";
  }

  lemma ParseFractionText(d: Number)
    requires d.coefficient > 0 && PointPosition(d) <= 0
    ensures ParseUnsigned("0." + Zeros(-PointPosition(d)) + Digits(d.coefficient)) == Some(d)
  {
    var ds, zeros := Digits(d.coefficient), -PointPosition(d);
    ValueOfDigits(d.coefficient);
    FractionValue(1, zeros, ds);
    ScaledValue(Zeros(1), Zeros(zeros) + ds, d.coefficient);
    FractionText(ds, zeros);
    assert Scaled(Zeros(1), Zeros(zeros) + ds, 0) == d;
    ParseFixed(Zeros(1), Zeros(zeros) + ds);
  }

  lemma ParseZero()
    ensures ParseUnsigned("0") == Some(Decimal(0, 0))
  {
    ParseFixed("0", "");
    ValueOfDigits(0);
    assert "0" + "" == Digits(0);
  }

  lemma UnsignedTextStartsWithDigit(d: Number)
    requires d.coefficient >= 0
    ensures UnsignedText(d) != [] && IsDigit(UnsignedText(d)[0])
  {}

  /** Number text reads back as the number it was printed from. */
  lemma ParseNumberText(d: Number)
    ensures ParseNumber(NumberText(d)) == Some(d)
  {
    if d.coefficient < 0 {
      ParseUnsignedText(Negate(d));
      assert NumberText(d)[1..] == UnsignedText(Negate(d));
    } else if d.coefficient == 0 {
      ParseZero();
    } else {
      ParseUnsignedText(d);
      UnsignedTextStartsWithDigit(d);
    }
  }

  predicate IsNumberChar(c: char) {
    IsDigit(c) || c == '-' || c == '+' || c == '.' || c == 'e'
  }

  predicate NumberChars(s: string) {
    forall i | 0 <= i < |s| :: IsNumberChar(s[i])
  }

  lemma NumberCharsConcat(s: string, t: string)
    requires NumberChars(s) && NumberChars(t)
    ensures NumberChars(s + t)
  {}

  lemma DigitsAreNumberChars(s: string)
    requires AllDigits(s)
    ensures NumberChars(s)
  {}

  lemma UnsignedTextChars(d: Number)
    requires d.coefficient >= 0
    ensures NumberChars(UnsignedText(d))
  {
    var ds, n := Digits(d.coefficient), PointPosition(d);
    DigitsAreNumberChars(ds);
    if d.coefficient != 0 && !(-6 < n <= 21) {
      assert NumberChars(ExponentText(n - 1)) by {
        DigitsAreNumberChars(Digits(Abs(n - 1)));
        NumberCharsConcat(if n - 1 < 0 then "e-" else "e+", Digits(Abs(n - 1)));
      }
      NumberCharsConcat(ds, ExponentText(n - 1));
      NumberCharsConcat(ds[..1], ".");
      NumberCharsConcat(ds[..1] + ".", ds[1..]);
      NumberCharsConcat(ds[..1] + "." + ds[1..], ExponentText(n - 1));
    }
  }

  lemma NumberTextChars(d: Number)
    ensures NumberText(d) != []
    ensures IsDigit(NumberText(d)[0]) || NumberText(d)[0] == '-'
    ensures NumberChars(NumberText(d))
  {
    var u := if d.coefficient < 0 then Negate(d) else d;
    UnsignedTextChars(u);
    UnsignedTextStartsWithDigit(u);
    NumberCharsConcat("-", UnsignedText(u));
  }

  function Min(a: int, b: int): int {
    if a < b then a else b
  }

  /** Numeric order: both sides scaled to the smaller exponent. */
  predicate Less(a: Number, b: Number) {
    var e := Min(a.exponent, b.exponent);
    a.coefficient * Pow10(a.exponent - e) < b.coefficient * Pow10(b.exponent - e)
  }
}
