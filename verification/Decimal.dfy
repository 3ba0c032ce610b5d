/** Decimal text and the number it denotes, shared by both amount renderers. */
module Decimal {
  import opened Numerals

  predicate IsDigitChar(c: char) {
    '0' <= c <= '9'
  }

  ghost predicate AllDigits(text: string) {
    forall i :: 0 <= i < |text| ==> IsDigitChar(text[i])
  }

  function CharDigit(c: char): nat {
    if IsDigitChar(c) then c as nat - '0' as nat else 0
  }

  /** `int_to_number_char` on a digit */
  function DigitChar(digit: nat): char
    requires digit < 10
  {
    '0' + digit as char
  }

  lemma DigitsInOrder(digit: nat)
    requires digit < 10
    ensures DigitChar(digit) == "0123456789"[digit] && CharDigit("0123456789"[digit]) == digit
  {
  }

  function DigitValues(text: string): (digits: seq<nat>)
    ensures |digits| == |text|
  {
    seq(|text|, i requires 0 <= i < |text| => CharDigit(text[i]))
  }

  function NumeralValue(text: string): nat {
    Value(10, DigitValues(text))
  }

  /** The numeral of `n`; as in the C code, zero has no digits. */
  function Numeral(n: nat): (text: string)
    ensures AllDigits(text)
  {
    if n == 0 then "" else Numeral(n / 10) + [DigitChar(n % 10)]
  }

  function Repeat(c: char, count: nat): (text: string)
    ensures |text| == count && forall i :: 0 <= i < count ==> text[i] == c
  {
    seq(count, _ => c)
  }

  // ---------- What a decimal text denotes ----------

  function PointIndex(text: string): (index: nat)
    ensures index <= |text|
    ensures forall i :: 0 <= i < index ==> text[i] != '.'
    ensures index < |text| ==> text[index] == '.'
  {
    if text == "" || text[0] == '.' then 0 else 1 + PointIndex(text[1..])
  }

  function FractionDigits(text: string): nat {
    if PointIndex(text) == |text| then 0 else |text| - PointIndex(text) - 1
  }

  function WithoutPoint(text: string): string {
    if PointIndex(text) == |text| then text
    else text[..PointIndex(text)] + text[PointIndex(text) + 1..]
  }

  /** x times 10^exponent, for either sign of the exponent. */
  function Scaled(x: real, exponent: int): real
    decreases if exponent >= 0 then exponent else -exponent
  {
    if exponent == 0 then x
    else if exponent > 0 then 10.0 * Scaled(x, exponent - 1)
    else Scaled(x, exponent + 1) / 10.0
  }

  /** The number an unsigned decimal text denotes. */
  function Magnitude(text: string): real {
    Scaled(NumeralValue(WithoutPoint(text)) as real, -(FractionDigits(text) as int))
  }

  function Denoted(text: string): real {
    if text != "" && text[0] == '-' then -Magnitude(text[1..]) else Magnitude(text)
  }

  /** No fraction that ends in a redundant zero, and no bare point. */
  ghost predicate IsTrimmed(text: string) {
    PointIndex(text) < |text| ==> text[|text| - 1] != '0' && text[|text| - 1] != '.'
  }

  // ---------- Numerals ----------

  lemma {:induction false} NumeralIsDigits(n: nat)
    ensures DigitValues(Numeral(n)) == Digits(10, n)
    ensures NumeralValue(Numeral(n)) == n
  {
    ValueOfDigits(10, n);
    if n != 0 {
      NumeralIsDigits(n / 10);
    }
  }

  /** "%u" */
  function UnsignedText(n: nat): string {
    if n == 0 then "0" else Numeral(n)
  }

  lemma UnsignedTextReads(n: nat)
    ensures NumeralValue(UnsignedText(n)) == n
  {
    if n == 0 {
      assert DigitValues("0") == [0];
    } else {
      NumeralIsDigits(n);
    }
  }

  lemma {:induction false} NumeralIsText(n: nat)
    ensures '\0' !in Numeral(n)
  {
    if n != 0 {
      NumeralIsText(n / 10);
    }
  }

  lemma NumeralLength(n: nat, count: nat)
    ensures |Numeral(n)| <= count <==> n < Pow(10, count)
  {
    NumeralIsDigits(n);
    DigitCount(10, n, count);
  }

  lemma {:induction false} NumeralEnds(n: nat)
    requires n > 0
    ensures Numeral(n) != "" && Numeral(n)[0] != '0'
    ensures Numeral(n)[|Numeral(n)| - 1] == DigitChar(n % 10)
  {
    if n / 10 > 0 {
      NumeralEnds(n / 10);
    }
  }

  lemma DigitValuesConcat(left: string, right: string)
    ensures DigitValues(left + right) == DigitValues(left) + DigitValues(right)
  {
  }

  lemma ValueOfConcat(left: string, right: string)
    ensures NumeralValue(left + right) == NumeralValue(left) * Pow(10, |right|) + NumeralValue(right)
  {
    DigitValuesConcat(left, right);
    ValueAppend(10, DigitValues(left), DigitValues(right));
  }

  lemma ValueOfZeros(text: string)
    requires forall i :: 0 <= i < |text| ==> text[i] == '0'
    ensures NumeralValue(text) == 0
  {
    ValueZeros(10, DigitValues(text));
  }

  lemma {:induction false} NumeralShift(n: nat, zeros: nat)
    requires n > 0
    ensures Numeral(n * Pow(10, zeros)) == Numeral(n) + Repeat('0', zeros)
  {
    if zeros > 0 {
      var shorter := n * Pow(10, zeros - 1);
      NumeralShift(n, zeros - 1);
      MulStrict(0, n, Pow(10, zeros - 1));
      TimesTen(n, Pow(10, zeros - 1));
      NumeralTimesTen(shorter);
      assert Repeat('0', zeros) == Repeat('0', zeros - 1) + "0";
      assert Numeral(n) + Repeat('0', zeros) == Numeral(n) + Repeat('0', zeros - 1) + "0";
    }
  }

  lemma TimesTen(n: nat, power: nat)
    ensures n * (10 * power) == 10 * (n * power)
  {
  }

  lemma NumeralTimesTen(n: nat)
    requires n > 0
    ensures Numeral(10 * n) == Numeral(n) + "0"
  {
    assert (10 * n) / 10 == n && (10 * n) % 10 == 0;
  }

  // ---------- Powers of ten ----------

  lemma ScaledStep(x: real, exponent: int)
    ensures Scaled(x, exponent + 1) == 10.0 * Scaled(x, exponent)
  {
  }

  lemma {:induction false} ScaledTen(x: real, exponent: int)
    ensures Scaled(10.0 * x, exponent) == Scaled(x, exponent + 1)
    decreases if exponent >= 0 then exponent else -exponent
  {
    ScaledStep(x, exponent);
    if exponent > 0 {
      ScaledTen(x, exponent - 1);
    } else if exponent < 0 {
      ScaledTen(x, exponent + 1);
      ScaledStep(10.0 * x, exponent);
      ScaledStep(x, exponent + 1);
    }
  }

  /** Trailing zeros of an integer can be moved into the exponent. */
  lemma {:induction false} ScaledShift(n: nat, zeros: nat, exponent: int)
    ensures Scaled((n * Pow(10, zeros)) as real, exponent) == Scaled(n as real, exponent + zeros)
  {
    if zeros > 0 {
      ScaledShift(n, zeros - 1, exponent + 1);
      TimesTen(n, Pow(10, zeros - 1));
      ScaledTen((n * Pow(10, zeros - 1)) as real, exponent);
    }
  }

  lemma {:induction false} ScaledInjective(x: real, y: real, exponent: int)
    requires Scaled(x, exponent) == Scaled(y, exponent)
    ensures x == y
    decreases if exponent >= 0 then exponent else -exponent
  {
    if exponent > 0 {
      ScaledInjective(x, y, exponent - 1);
    } else if exponent < 0 {
      ScaledInjective(x, y, exponent + 1);
    }
  }

  // ---------- Placing the point ----------

  /** `digits` with its last `fraction` digits behind the point. */
  function WithPoint(digits: string, fraction: nat): string {
    if fraction == 0 then digits
    else if |digits| > fraction then digits[..|digits| - fraction] + "." + digits[|digits| - fraction..]
    else "0." + Repeat('0', fraction - |digits|) + digits
  }

  /** No zero stands in front that is not the only digit before a point or the end. */
  predicate StartsPlain(text: string) {
    text != "" && IsDigitChar(text[0]) && (text[0] == '0' && |text| > 1 ==> text[1] == '.')
  }

  lemma WithPointStartsPlain(digits: string, fraction: nat)
    requires AllDigits(digits) && digits != "" && digits[0] != '0'
    ensures StartsPlain(WithPoint(digits, fraction))
  {
  }

  lemma UnsignedTextStartsPlain(n: nat)
    ensures StartsPlain(UnsignedText(n))
  {
    if n > 0 {
      NumeralEnds(n);
    }
  }

  lemma {:induction false} PointAfter(whole: string, rest: string)
    requires AllDigits(whole) && (rest == "" || rest[0] == '.')
    ensures PointIndex(whole + rest) == |whole|
  {
    if whole != "" {
      PointAfter(whole[1..], rest);
      assert (whole + rest)[1..] == whole[1..] + rest;
    } else {
      assert whole + rest == rest;
    }
  }

  lemma PointSplits(text: string, whole: string, fraction: string)
    requires AllDigits(whole) && text == whole + "." + fraction
    ensures PointIndex(text) == |whole|
    ensures WithoutPoint(text) == whole + fraction
    ensures FractionDigits(text) == |fraction|
  {
    assert text == whole + ("." + fraction);
    PointAfter(whole, "." + fraction);
    assert text[..|whole|] == whole && text[|whole| + 1..] == fraction;
  }

  lemma NoPoint(digits: string)
    requires AllDigits(digits)
    ensures PointIndex(digits) == |digits|
  {
    assert digits + "" == digits;
    PointAfter(digits, "");
  }

  /** Where the point goes, and what is left when it is taken out again. */
  lemma WithPointReads(digits: string, fraction: nat)
    requires AllDigits(digits)
    ensures FractionDigits(WithPoint(digits, fraction)) == fraction
    ensures NumeralValue(WithoutPoint(WithPoint(digits, fraction))) == NumeralValue(digits)
  {
    var text := WithPoint(digits, fraction);
    if fraction == 0 {
      NoPoint(digits);
    } else if |digits| > fraction {
      var split := |digits| - fraction;
      PointSplits(text, digits[..split], digits[split..]);
      assert digits == digits[..split] + digits[split..];
    } else {
      PaddedReads(text, Repeat('0', fraction - |digits|), digits);
    }
  }

  lemma PaddedReads(text: string, zeros: string, digits: string)
    requires AllDigits(digits) && (forall i :: 0 <= i < |zeros| ==> zeros[i] == '0')
    requires text == "0." + zeros + digits
    ensures FractionDigits(text) == |zeros| + |digits|
    ensures NumeralValue(WithoutPoint(text)) == NumeralValue(digits)
  {
    assert text == "0" + "." + (zeros + digits);
    PointSplits(text, "0", zeros + digits);
    var padding := "0" + zeros;
    assert "0" + (zeros + digits) == padding + digits;
    ValueOfConcat(padding, digits);
    ValueOfZeros(padding);
  }

  lemma WithPointDenotes(digits: string, fraction: nat)
    requires AllDigits(digits)
    ensures Magnitude(WithPoint(digits, fraction)) == Scaled(NumeralValue(digits) as real, -(fraction as int))
  {
    WithPointReads(digits, fraction);
  }

  lemma WithPointIsTrimmed(digits: string, fraction: nat)
    requires AllDigits(digits) && (fraction > 0 ==> digits != "" && digits[|digits| - 1] != '0')
    ensures IsTrimmed(WithPoint(digits, fraction))
  {
    if fraction == 0 {
      NoPoint(digits);
    }
  }
}
