/** From the bytes of an amount field to its text (src/xrp/amount.c): the two
    forms of the token amount format, and what each reads as. */
module Amount {
  import opened Numerals
  import opened Decimal
  import opened CString
  import opened Fields
  import opened Currency
  import opened PrintNumber
  import opened IssuedAmount
  import opened XrpAmount

  const TWO_54: nat := 0x40_0000_0000_0000
  const INVALID_AMOUNT := "Invalid amount!"

  // ---------- The bit fields ----------

  function SignBit(value: nat): nat { value / TWO_62 % 2 }

  function Exponent(value: nat): int { value / TWO_54 % 256 - 97 }

  function Mantissa(value: nat): nat { value % TWO_54 }

  /** `value << 1 == 0` on 64 bits: nothing but the top bit may be set. */
  predicate IsZeroAmount(value: nat) { value * 2 % TWO_64 == 0 }

  /** The token amount format: top bit, sign (1 is positive), exponent + 97, mantissa. */
  function TokenAmount(negative: bool, exponent: int, mantissa: nat): nat
    requires -97 <= exponent <= 158 && mantissa < TWO_54
  {
    TWO_63 + (if negative then 0 else TWO_62) + (exponent + 97) * TWO_54 + mantissa
  }

  lemma TokenAmountFields(negative: bool, exponent: int, mantissa: nat)
    requires -97 <= exponent <= 158 && mantissa < 0x40_0000_0000_0000
    ensures var value := TokenAmount(negative, exponent, mantissa);
      && value < TWO_64 && (IsZeroAmount(value) <==> negative && exponent == -97 && mantissa == 0)
      && SignBit(value) == (if negative then 0 else 1)
      && Exponent(value) == exponent && Mantissa(value) == mantissa
  {
  }

  // ---------- The text ----------

  function Separated(prefix: string): string {
    if prefix == "" then "" else prefix + " "
  }

  ghost predicate HasNumberText(value: nat) {
    IsZeroAmount(value) || Renderable(SignBit(value), Exponent(value), Mantissa(value))
  }

  ghost function NumberText(value: nat): string {
    if IsZeroAmount(value) then "0" else Rendered(SignBit(value), Exponent(value), Mantissa(value))
  }

  ghost predicate HasNativeText(value: nat) {
    SignBit(value) == 1 && value - TWO_62 < Pow(10, 19)
  }

  ghost function AmountText(bytes: seq<byte>): string {
    if |bytes| == XRP_AMOUNT_LEN then
      var value := Value(256, bytes);
      if HasNativeText(value) then NativeText(value - TWO_62) else INVALID_AMOUNT
    else if |bytes| == ISSUED_CURRENCY_LEN then
      var value, prefix := Value(256, bytes[..8]), StandardText(bytes[8..28]);
      if HasNumberText(value) then Separated(prefix) + NumberText(value) else INVALID_AMOUNT
    else INVALID_AMOUNT
  }

  /** `read_unsigned64`; the bytes occupy disjoint bits, so `|=` is addition. */
  method ReadUnsigned64(src: seq<byte>) returns (value: nat)
    requires |src| >= 8
    ensures value == Value(256, src[..8]) < TWO_64
  {
    value := 0;
    var i := 0;
    while i < 8
      invariant i <= 8 && value == Value(256, src[..i]) * Pow(256, 8 - i)
    {
      NextByte(src, i);
      value := value + src[i] * Pow(256, 7 - i);
      i := i + 1;
    }
    ValueBelowPow(256, src[..8]);
    EightBytes();
  }

  lemma EightBytes()
    ensures Pow(256, 8) == TWO_64
  {
    assert Pow(256, 4) == 0x1_0000_0000;
    PowAdd(256, 4, 4);
  }

  lemma NextByte(src: seq<byte>, i: nat)
    requires i < 8 <= |src|
    ensures Value(256, src[..i]) * Pow(256, 8 - i) + src[i] * Pow(256, 7 - i)
         == Value(256, src[..i + 1]) * Pow(256, 7 - i)
  {
    assert src[..i + 1][..i] == src[..i];
    var value, power := Value(256, src[..i]), Pow(256, 7 - i);
    assert value * (256 * power) == (value * 256) * power;
    assert (value * 256) * power + src[i] * power == (value * 256 + src[i]) * power;
  }

  /** `format_xrp` */
  method FormatXrp(amount: nat, dst: array<char>) returns (status: int)
    requires amount < TWO_64 && dst.Length >= MAX_FIELD_LEN
    modifies dst
    ensures status == if SignBit(amount) == 1 && amount - TWO_62 < Pow(10, 19) then 0 else -1
    ensures status == 0 ==> TextAt(dst[..], 0) == NativeText(amount - TWO_62)
  {
    hide NativeText, TextAt, Pow;
    if SignBit(amount) == 0 {
      return -1;
    }
    SignBitSet(amount);
    var drops: nat := amount - TWO_62;
    NativeTextFits(drops);
    status := PrintAmount(drops, dst);
  }

  lemma SignBitSet(amount: nat)
    requires SignBit(amount) != 0
    ensures SignBit(amount) == 1 && amount >= TWO_62
  {
  }

  lemma NativeTextFits(drops: nat)
    ensures drops < Pow(10, 19) ==> |NativeText(drops)| <= 24
  {
    if drops < Pow(10, 19) {
      RoomInAmountBuffer(drops);
      AdjustedFits(Numeral(drops), 6);
    }
  }

  /** An 8-byte amount as the ledger writes it, top bit clear, is always shown. */
  lemma NativeAmountIsShown(drops: nat)
    requires drops < TWO_62
    ensures SignBit(TWO_62 + drops) == 1 && drops < Pow(10, 19)
  {
    TenToThe19();
  }

  /** `format_issued_currency` on a zero-filled buffer holding the ticker. */
  method FormatIssuedCurrency(value: nat, buf: array<char>, ghost ticker: string) returns (status: int)
    requires buf.Length >= MAX_FIELD_LEN && |ticker| <= 3
    requires HoldsText(buf[..], 0, ticker) && Zeroed(buf[..], |ticker|)
    modifies buf
    ensures status == if HasNumberText(value) then 0 else -1
    ensures status == 0 ==> TextAt(buf[..], 0) == Separated(ticker) + NumberText(value)
  {
    hide TextAt, Rendered, Written;
    ghost var before := buf[..];
    var len := StrLen(buf, 0, ticker);
    var p, size := len, buf.Length - len;
    if len > 0 {
      Store(buf, p, ' ');
      p, size := p + 1, size - 1;
    }
    ghost var prefix := Separated(ticker);
    assert |prefix| == p && buf[..][..p] == prefix;
    ghost var clean := buf[..];
    if IsZeroAmount(value) {
      Store(buf, p, '0');
      TextBehind(buf[..], clean, prefix, "0");
      return 0;
    }
    status := ParseDecimalNumber(buf, p, size, SignBit(value), Exponent(value), Mantissa(value));
    if status == 0 {
      RenderedHasNoTerminator(SignBit(value), Exponent(value), Mantissa(value));
      TextBehind(buf[..], clean, prefix, Rendered(SignBit(value), Exponent(value), Mantissa(value)));
    }
  }

  lemma TextBehind(buffer: seq<char>, clean: seq<char>, prefix: string, text: string)
    requires |prefix| <= |clean| && clean[..|prefix|] == prefix && Zeroed(clean, |prefix|)
    requires Written(buffer, clean, |prefix|, text) && |prefix| + |text| < |buffer|
    requires '\0' !in prefix && '\0' !in text
    ensures TextAt(buffer, 0) == prefix + text
  {
    assert buffer[0..|prefix + text|] == prefix + text;
    HeldIsRead(buffer, 0, prefix + text);
  }

  lemma RenderedHasNoTerminator(sign: nat, exponent: int, mantissa: nat)
    requires Renderable(sign, exponent, mantissa)
    ensures '\0' !in Rendered(sign, exponent, mantissa)
  {
    var (digits, shifted) := Normalized(mantissa, exponent);
    LayoutHasNoTerminator(digits, shifted);
  }

  lemma LayoutHasNoTerminator(mantissa: nat, exponent: int)
    ensures '\0' !in Layout(mantissa, exponent)
  {
  }

  /** `amount_formatter` on a zero-filled buffer. */
  method FormatAmount(bytes: seq<byte>, dst: array<char>)
    requires |bytes| >= 8 && dst.Length >= MAX_FIELD_LEN && Zeroed(dst[..], 0)
    modifies dst
    ensures TextAt(dst[..], 0) == AmountText(bytes)
  {
    hide NativeText, TextAt, Pow, Value, StandardText, NumberText, HasNumberText, Separated;
    var value := ReadUnsigned64(bytes);
    var status := 1;
    ghost var text := INVALID_AMOUNT;
    if |bytes| == XRP_AMOUNT_LEN {
      assert bytes[..8] == bytes;
      status := FormatXrp(value, dst);
      if status == 0 {
        text := NativeText(value - TWO_62);
      }
    } else if |bytes| == ISSUED_CURRENCY_LEN {
      var code := bytes[8..28];
      StandardTextIsHonest(code, code);
      FormatStandardCurrency(code, dst);
      status := FormatIssuedCurrency(value, dst, StandardText(code));
      if status == 0 {
        text := Separated(StandardText(code)) + NumberText(value);
      }
    }
    assert AmountText(bytes) == text;
    if status != 0 {
      CopyPadded(dst, INVALID_AMOUNT);
      HeldIsRead(dst[..], 0, INVALID_AMOUNT);
    }
  }

  /** `format_standard_currency` */
  method FormatStandardCurrency(code: seq<byte>, buf: array<char>)
    requires |code| == CURRENCY_SIZE && buf.Length >= MAX_FIELD_LEN && Zeroed(buf[..], 0)
    modifies buf
    ensures HoldsText(buf[..], 0, StandardText(code)) && Zeroed(buf[..], |StandardText(code)|)
  {
    StandardTextIsHonest(code, code);
    var nonStandard := CheckNonStandard(code);
    if nonStandard {
      assert buf[..][0..0] == "";
      return;
    }
    var zeros := CheckAllZeros(code);
    if zeros {
      CopyPadded(buf, "XRP");
    } else {
      Store(buf, 0, code[12] as char);
      Store(buf, 1, code[13] as char);
      Store(buf, 2, code[14] as char);
      assert buf[..][0..3] == TickerText(code);
    }
  }

  // ---------- What the text says ----------

  /** Every sign, exponent and mantissa that the bits of a token amount can hold: those
      of the ledger's range are shown as the ticker and exactly the number, the two
      spellings of zero as 0, and all others as invalid. */
  lemma TokenAmountText(bytes: seq<byte>, negative: bool, exponent: int, mantissa: nat)
    requires |bytes| == 48 && -97 <= exponent <= 158 && mantissa < 0x40_0000_0000_0000
    requires Value(256, bytes[..8])
          == 0x8000_0000_0000_0000 + (if negative then 0 else 0x4000_0000_0000_0000)
             + (exponent + 97) * 0x40_0000_0000_0000 + mantissa
    ensures var ticker := StandardText(bytes[8..28]);
      AmountText(bytes) ==
        if -96 <= exponent <= 80 && 1000000000000000 <= mantissa <= 9999999999999999 then
          Separated(ticker) + IssuedText(negative, exponent, mantissa)
        else if negative && mantissa == 0 && (exponent == 0 || exponent == -97) then Separated(ticker) + "0"
        else "Invalid amount!"
  {
    TokenNumber(negative, exponent, mantissa);
    TokenText(bytes);
    hide TokenAmount, IssuedText, StandardText, Value, Separated, NumberText, HasNumberText, AmountText;
    assert TokenAmount(negative, exponent, mantissa) == Value(256, bytes[..8]) by {
      TokenAmountInFigures(negative, exponent, mantissa);
    }
  }

  lemma TokenAmountInFigures(negative: bool, exponent: int, mantissa: nat)
    requires -97 <= exponent <= 158 && mantissa < 0x40_0000_0000_0000
    ensures TokenAmount(negative, exponent, mantissa)
         == 0x8000_0000_0000_0000 + (if negative then 0 else 0x4000_0000_0000_0000)
            + (exponent + 97) * 0x40_0000_0000_0000 + mantissa
  {
  }

  lemma TokenText(bytes: seq<byte>)
    requires |bytes| == 48
    ensures var value, ticker := Value(256, bytes[..8]), StandardText(bytes[8..28]);
      AmountText(bytes) == if HasNumberText(value) then Separated(ticker) + NumberText(value) else "Invalid amount!"
  {
    hide Value, StandardText, Separated, NumberText, HasNumberText, NativeText;
  }

  lemma TokenNumber(negative: bool, exponent: int, mantissa: nat)
    requires -97 <= exponent <= 158 && mantissa < 0x40_0000_0000_0000
    ensures var value := TokenAmount(negative, exponent, mantissa);
      if -96 <= exponent <= 80 && 1000000000000000 <= mantissa <= 9999999999999999 then
        HasNumberText(value) && NumberText(value) == IssuedText(negative, exponent, mantissa)
      else if negative && mantissa == 0 && (exponent == 0 || exponent == -97) then
        HasNumberText(value) && NumberText(value) == "0"
      else !HasNumberText(value)
  {
    TokenAmountFields(negative, exponent, mantissa);
    hide TokenAmount, SignBit, Exponent, Mantissa, IsZeroAmount, IssuedText;
  }

  /** In bytes: with the second highest bit of eight set the rest is the drops, without
      it there is no amount. */
  lemma NativeAmountInFigures(bytes: seq<byte>)
    requires |bytes| == 8 && bytes[0] < 128
    ensures Value(256, bytes) >= 0x4000_0000_0000_0000 ==>
      AmountText(bytes) == NativeText(Value(256, bytes) - 0x4000_0000_0000_0000)
    ensures Value(256, bytes) < 0x4000_0000_0000_0000 ==> AmountText(bytes) == "Invalid amount!"
  {
    hide *;
    TopBitClear(bytes);
    WhenNativeHasText(Value(256, bytes));
    EightByteText(bytes);
  }

  lemma EightByteText(bytes: seq<byte>)
    requires |bytes| == 8
    ensures HasNativeText(Value(256, bytes)) ==>
      Value(256, bytes) >= 0x4000_0000_0000_0000
      && AmountText(bytes) == NativeText(Value(256, bytes) - 0x4000_0000_0000_0000)
    ensures !HasNativeText(Value(256, bytes)) ==> AmountText(bytes) == "Invalid amount!"
  {
    hide Value, NativeText, Pow;
    if HasNativeText(Value(256, bytes)) {
      SignBitSet(Value(256, bytes));
    }
  }

  lemma WhenNativeHasText(value: nat)
    requires value < 0x8000_0000_0000_0000
    ensures HasNativeText(value) <==> value >= 0x4000_0000_0000_0000
  {
    TenToThe19();
    hide Pow;
  }

  lemma TopBitClear(bytes: seq<byte>)
    requires |bytes| == 8 && bytes[0] < 128
    ensures Value(256, bytes) < 0x8000_0000_0000_0000
  {
    assert bytes == [bytes[0]] + bytes[1..];
    ValueCons(256, bytes[0], bytes[1..]);
    ValueBelowPow(256, bytes[1..]);
    assert Pow(256, 3) == 0x100_0000 && Pow(256, 4) == 0x1_0000_0000;
    PowAdd(256, 3, 4);
    MulMonotone(bytes[0], 127, Pow(256, 7));
  }

  /** The ticker stands in front of the number, and one space between them. */
  lemma SeparatedBySpace(ticker: string, number: string)
    ensures Separated(ticker) + number == if |ticker| == 0 then number else ticker + [' '] + number
  {
  }

  /** Every native amount is shown as exactly its number of drops over a million. */
  lemma NativeAmountText(bytes: seq<byte>, drops: nat)
    requires |bytes| == 8 && drops < 0x4000_0000_0000_0000
    requires Value(256, bytes) == 0x4000_0000_0000_0000 + drops
    ensures AmountText(bytes) == NativeText(drops)
  {
    NativeAmountIsShown(drops);
  }
}
