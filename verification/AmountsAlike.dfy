/** Which amount fields read alike: exactly when two of the same length have the
    same text (src/xrp/amount.c). */
module AmountsAlike {
  import opened Numerals
  import opened Decimal
  import opened Fields
  import opened Currency
  import opened IssuedAmount
  import opened XrpAmount
  import opened Amount

  // ---------- The numbers of tokens ----------

  /** The two spellings of zero, with or without the top bit: nothing but that bit, or
      no sign, the exponent 0 and no mantissa. */
  predicate IsZeroToken(value: nat) {
    value % TWO_63 == 0 || value % TWO_63 == 97 * TWO_54
  }

  predicate SameNumber(value: nat, other: nat) {
    (IsZeroToken(value) && IsZeroToken(other)) || value % TWO_63 == other % TWO_63
  }

  lemma ZeroFields(value: nat)
    requires value < TWO_64
    ensures IsZeroAmount(value) <==> value % TWO_63 == 0
    ensures SignBit(value) == 0 && Exponent(value) == 0 && Mantissa(value) == 0 <==> value % TWO_63 == 97 * TWO_54
  {
  }

  /** A token amount has a text exactly if it is zero or in the ledger's range. */
  lemma WhenNumberHasText(value: nat)
    requires value < TWO_64
    ensures HasNumberText(value) <==>
      IsZeroToken(value)
      || (-96 <= Exponent(value) <= 80 && 1000000000000000 <= Mantissa(value) <= 9999999999999999)
    ensures IsZeroToken(value) ==> NumberText(value) == "0"
    ensures HasNumberText(value) && !IsZeroToken(value) ==>
      NumberText(value) == IssuedText(SignBit(value) == 0, Exponent(value), Mantissa(value))
  {
    ZeroFields(value);
    hide IssuedText, SignBit, Exponent, Mantissa, IsZeroAmount;
  }

  /** The bit fields determine the number but for the top bit. */
  lemma FieldsTell(value: nat, other: nat)
    requires value < TWO_64 && other < TWO_64
    requires SignBit(value) == SignBit(other) && Exponent(value) == Exponent(other)
    requires Mantissa(value) == Mantissa(other)
    ensures value % TWO_63 == other % TWO_63
  {
    FieldsSum(value);
    FieldsSum(other);
    hide SignBit, Exponent, Mantissa;
  }

  lemma FieldsSum(value: nat)
    requires value < TWO_64
    ensures value % TWO_63 == SignBit(value) * TWO_62 + (Exponent(value) + 97) * TWO_54 + Mantissa(value)
  {
  }

  lemma TopBitIsNoField(value: nat)
    requires value < TWO_64
    ensures SignBit(value % TWO_63) == SignBit(value) && Exponent(value % TWO_63) == Exponent(value)
    ensures Mantissa(value % TWO_63) == Mantissa(value)
  {
    hide SignBit, Exponent, Mantissa;
    if value >= TWO_63 {
      SignWithoutTop(value - TWO_63);
      ExponentWithoutTop(value - TWO_63);
      MantissaWithoutTop(value - TWO_63);
    }
  }

  lemma SignWithoutTop(value: nat)
    ensures SignBit(value + TWO_63) == SignBit(value)
  {
  }

  lemma ExponentWithoutTop(value: nat)
    ensures Exponent(value + TWO_63) == Exponent(value)
  {
  }

  lemma MantissaWithoutTop(value: nat)
    ensures Mantissa(value + TWO_63) == Mantissa(value)
  {
  }

  lemma NoSuchText(negative: bool, exponent: int, mantissa: nat)
    requires InRange(exponent, mantissa)
    ensures IssuedText(negative, exponent, mantissa) != "0"
  {
    ReadBackIssuedText(negative, exponent, mantissa);
    hide IssuedText, ReadBack;
    ZeroReadsZero();
  }

  lemma ZeroReadsZero()
    ensures ReadBack("0").1.1 == 0
  {
    NoPoint("0");
    assert DigitValues("0") == [0] && [0][..0] == [];
    assert NumeralValue("0") == 0;
    hide NumeralValue, WithoutPoint, FractionDigits;
  }

  lemma NumbersAlike(value: nat, other: nat)
    requires value < TWO_64 && other < TWO_64 && HasNumberText(value) && HasNumberText(other)
    ensures NumberText(value) == NumberText(other) <==> SameNumber(value, other)
  {
    WhenNumberHasText(value);
    WhenNumberHasText(other);
    TopBitIsNoField(value);
    TopBitIsNoField(other);
    hide HasNumberText, NumberText, IssuedText, SignBit, Exponent, Mantissa;
    if !IsZeroToken(value) {
      NoSuchText(SignBit(value) == 0, Exponent(value), Mantissa(value));
      ReadBackIssuedText(SignBit(value) == 0, Exponent(value), Mantissa(value));
    }
    if !IsZeroToken(other) {
      NoSuchText(SignBit(other) == 0, Exponent(other), Mantissa(other));
      ReadBackIssuedText(SignBit(other) == 0, Exponent(other), Mantissa(other));
    }
    assert SignBit(value) <= 1 && SignBit(other) <= 1 by { SignIsABit(value); SignIsABit(other); }
    if NumberText(value) == NumberText(other) && !IsZeroToken(value) && !IsZeroToken(other) {
      FieldsTell(value, other);
    }
  }

  lemma SignIsABit(value: nat)
    ensures SignBit(value) <= 1
  {
  }

  // ---------- Ticker and number ----------

  lemma LayoutHasNoSpace(mantissa: nat, exponent: int)
    ensures ' ' !in Layout(mantissa, exponent)
  {
  }

  lemma NumberHasNoSpace(value: nat)
    requires value < TWO_64 && HasNumberText(value)
    ensures ' ' !in NumberText(value)
  {
    WhenNumberHasText(value);
    hide HasNumberText, NumberText;
    var (digits, shifted) := Normalized(Mantissa(value), Exponent(value));
    LayoutHasNoSpace(digits, shifted);
  }

  /** Text and number can be told apart. */
  lemma TickerSplits(ticker: string, number: string, ticker': string, number': string)
    requires |ticker| in {0, 3} && |ticker'| in {0, 3} && ' ' !in number && ' ' !in number'
    ensures Separated(ticker) + number == Separated(ticker') + number' ==> ticker == ticker' && number == number'
    ensures Separated(ticker) + number != INVALID_AMOUNT
  {
    var text, text' := Separated(ticker) + number, Separated(ticker') + number';
    assert |ticker| == 3 ==> text[3] == ' ' && text[..3] == ticker && text[4..] == number;
    assert |ticker'| == 3 ==> text'[3] == ' ' && text'[..3] == ticker' && text'[4..] == number';
    assert |ticker| == 0 ==> text == number;
    assert |ticker'| == 0 ==> text' == number';
    assert INVALID_AMOUNT[3] == 'a' && INVALID_AMOUNT[7] == ' ';
  }

  /** The tickers are the same exactly for equal codes and for two nonstandard ones,
      which have rows of their own. */
  lemma TickersAlike(code: seq<byte>, other: seq<byte>)
    requires |code| == |other| == CURRENCY_SIZE
    ensures StandardText(code) == StandardText(other)
      <==> code == other || (IsNonStandard(code) && IsNonStandard(other))
  {
    StandardTextIsHonest(code, other);
    hide IsNonStandard;
    if StandardText(code) == StandardText(other) == "" {
      assert IsNonStandard(code) && IsNonStandard(other);
    }
  }

  // ---------- Amounts ----------

  /** What determines the text. */
  ghost predicate Alike(bytes: seq<byte>, other: seq<byte>)
    requires |bytes| == |other|
  {
    if |bytes| == XRP_AMOUNT_LEN then
      bytes == other || (!HasNativeText(Value(256, bytes)) && !HasNativeText(Value(256, other)))
    else if |bytes| == ISSUED_CURRENCY_LEN then
      var value, value' := Value(256, bytes[..8]), Value(256, other[..8]);
      var code, code' := bytes[8..28], other[8..28];
      || (!HasNumberText(value) && !HasNumberText(value'))
      || (&& HasNumberText(value) && HasNumberText(value') && SameNumber(value, value')
          && (code == code' || (IsNonStandard(code) && IsNonStandard(code'))))
    else true
  }

  lemma EightBytesTell(bytes: seq<byte>, other: seq<byte>)
    requires |bytes| == |other| == XRP_AMOUNT_LEN
    ensures Value(256, bytes) < TWO_64 && (Value(256, bytes) == Value(256, other) <==> bytes == other)
  {
    ValueBelowPow(256, bytes);
    EightBytes();
    SameValue(bytes, other);
  }

  lemma {:induction false} SameValue(bytes: seq<byte>, other: seq<byte>)
    requires |bytes| == |other|
    ensures Value(256, bytes) == Value(256, other) ==> bytes == other
  {
    if bytes != [] {
      var n := |bytes| - 1;
      SameValue(bytes[..n], other[..n]);
      assert bytes == bytes[..n] + [bytes[n]] && other == other[..n] + [other[n]];
      LastDigitTells(Value(256, bytes[..n]), bytes[n], Value(256, other[..n]), other[n]);
    }
  }

  lemma LastDigitTells(high: nat, low: byte, high': nat, low': byte)
    ensures 256 * high + low == 256 * high' + low' ==> high == high' && low == low'
  {
  }

  lemma NativeIsNoError(drops: nat)
    ensures NativeText(drops) != INVALID_AMOUNT
  {
    hide Adjusted, Numeral;
    assert NativeText(drops)[0] == 'X' && INVALID_AMOUNT[0] == 'I';
  }

  lemma NativeAlike(bytes: seq<byte>, other: seq<byte>)
    requires |bytes| == |other| == XRP_AMOUNT_LEN
    ensures AmountText(bytes) == AmountText(other) <==> Alike(bytes, other)
  {
    hide *;
    EightBytesTell(bytes, other);
    NativeText8(bytes);
    NativeText8(other);
    WhenAlike8(bytes, other);
    NativeTextsAlike(Value(256, bytes), Value(256, other));
  }

  lemma NativeText8(bytes: seq<byte>)
    requires |bytes| == XRP_AMOUNT_LEN
    ensures HasNativeText(Value(256, bytes)) ==>
      Value(256, bytes) >= TWO_62 && AmountText(bytes) == NativeText(Value(256, bytes) - TWO_62)
    ensures !HasNativeText(Value(256, bytes)) ==> AmountText(bytes) == INVALID_AMOUNT
  {
    EightByteText(bytes);
    hide AmountText, HasNativeText, Value, NativeText;
  }

  lemma WhenAlike8(bytes: seq<byte>, other: seq<byte>)
    requires |bytes| == |other| == XRP_AMOUNT_LEN
    ensures Alike(bytes, other)
      <==> bytes == other || (!HasNativeText(Value(256, bytes)) && !HasNativeText(Value(256, other)))
  {
    hide Value, HasNativeText;
  }

  lemma NativeTextsAlike(value: nat, other: nat)
    ensures HasNativeText(value) ==> value >= TWO_62 && NativeText(value - TWO_62) != INVALID_AMOUNT
    ensures HasNativeText(other) ==> other >= TWO_62 && NativeText(other - TWO_62) != INVALID_AMOUNT
    ensures HasNativeText(value) && HasNativeText(other) ==>
      (NativeText(value - TWO_62) == NativeText(other - TWO_62) <==> value == other)
  {
    hide NativeText, Pow;
    if HasNativeText(value) {
      SignBitSet(value);
      NativeIsNoError(value - TWO_62);
    }
    if HasNativeText(other) {
      SignBitSet(other);
      NativeIsNoError(other - TWO_62);
    }
    if HasNativeText(value) && HasNativeText(other) && NativeText(value - TWO_62) == NativeText(other - TWO_62) {
      NativeTextInjective(value - TWO_62, other - TWO_62);
    }
  }

  lemma TokensAlike(bytes: seq<byte>, other: seq<byte>)
    requires |bytes| == |other| == ISSUED_CURRENCY_LEN
    ensures AmountText(bytes) == AmountText(other) <==> Alike(bytes, other)
  {
    var value, value' := Value(256, bytes[..8]), Value(256, other[..8]);
    var code, code' := bytes[8..28], other[8..28];
    EightBytesTell(bytes[..8], other[..8]);
    EightBytesTell(other[..8], bytes[..8]);
    TickersAlike(code, code');
    StandardTextIsHonest(code, code');
    StandardTextIsHonest(code', code);
    hide NativeText, Pow, Value, StandardText, NumberText, HasNumberText, Separated, IsNonStandard, SameNumber;
    if HasNumberText(value) {
      NumberHasNoSpace(value);
      TickerSplits(StandardText(code), NumberText(value), "", "");
    }
    if HasNumberText(value') {
      NumberHasNoSpace(value');
      TickerSplits(StandardText(code'), NumberText(value'), "", "");
    }
    if HasNumberText(value) && HasNumberText(value') {
      NumbersAlike(value, value');
      TickerSplits(StandardText(code), NumberText(value), StandardText(code'), NumberText(value'));
    }
  }

  /** Of two amount fields of the same length, the texts are equal exactly if neither
      has one, or the amounts are the same: to the drop; or to the sign, mantissa and
      exponent, all zeros being one, in the same standard currency or both in
      nonstandard ones.  Issuers and nonstandard codes have rows of their own. */
  lemma AmountsReadAlike(bytes: seq<byte>, other: seq<byte>)
    requires |bytes| == |other|
    ensures AmountText(bytes) == AmountText(other) <==> Alike(bytes, other)
  {
    hide AmountText, Alike;
    if |bytes| == XRP_AMOUNT_LEN {
      NativeAlike(bytes, other);
    } else if |bytes| == ISSUED_CURRENCY_LEN {
      TokensAlike(bytes, other);
    } else {
      NeitherAlike(bytes, other);
    }
  }

  lemma NeitherAlike(bytes: seq<byte>, other: seq<byte>)
    requires |bytes| == |other| && |bytes| != XRP_AMOUNT_LEN && |bytes| != ISSUED_CURRENCY_LEN
    ensures AmountText(bytes) == AmountText(other) && Alike(bytes, other)
  {
  }

  /** For example, two spellings of zero, and two numbers out of range. */
  lemma TwoValuesReadAlike(bytes: seq<byte>, other: seq<byte>)
    requires |bytes| == |other| == ISSUED_CURRENCY_LEN && bytes[8..28] == other[8..28]
    requires (Value(256, bytes[..8]), Value(256, other[..8]))
          in {(TWO_63, TWO_63 + 97 * TWO_54), (TWO_63 + 1, TWO_63 + 2)}
    ensures bytes != other && AmountText(bytes) == AmountText(other)
  {
    OutOfRange(TWO_63 + 1);
    OutOfRange(TWO_63 + 2);
    WhenNumberHasText(TWO_63);
    WhenNumberHasText(TWO_63 + 97 * TWO_54);
    hide Value, NumberText, HasNumberText, StandardText;
    AmountsReadAlike(bytes, other);
  }

  lemma OutOfRange(value: nat)
    requires TWO_63 < value < TWO_63 + 1000000000000000
    ensures !HasNumberText(value)
  {
    WhenNumberHasText(value);
    hide NumberText, HasNumberText;
  }
}
