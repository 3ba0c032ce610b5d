/** Issued-currency amounts as decimal text (src/xrp/amount.c). */
module IssuedAmount {
  import opened Numerals
  import opened Decimal
  import opened CString
  import opened PrintNumber

  const EXP_MIN: int := -96
  const EXP_MAX: int := 80
  const MANTISSA_MIN: nat := 1000000000000000
  const MANTISSA_MAX: nat := 9999999999999999

  ghost predicate InRange(exponent: int, mantissa: nat) {
    EXP_MIN <= exponent <= EXP_MAX && MANTISSA_MIN <= mantissa <= MANTISSA_MAX
  }

  // ---------- The text ----------

  /** Moves trailing zeros of the mantissa into the exponent. */
  function Normalized(mantissa: nat, exponent: int): (nat, int) {
    if mantissa > 0 && mantissa % 10 == 0 then Normalized(mantissa / 10, exponent + 1) else (mantissa, exponent)
  }

  /** The digits and exponent, laid out without exponent notation. */
  function Layout(mantissa: nat, exponent: int): string {
    if exponent >= 0 then Numeral(mantissa) + Repeat('0', exponent)
    else WithPoint(Numeral(mantissa), -exponent)
  }

  function IssuedText(negative: bool, exponent: int, mantissa: nat): string {
    var (digits, shifted) := Normalized(mantissa, exponent);
    (if negative then "-" else "") + Layout(digits, shifted)
  }

  // ---------- What it denotes ----------

  lemma {:induction false} NormalizedIsShift(mantissa: nat, exponent: int) returns (zeros: nat)
    requires mantissa > 0
    ensures var (digits, shifted) := Normalized(mantissa, exponent);
      mantissa == digits * Pow(10, zeros) && shifted == exponent + zeros && digits % 10 != 0
  {
    if mantissa % 10 == 0 {
      var rest := NormalizedIsShift(mantissa / 10, exponent + 1);
      zeros := rest + 1;
      TimesTen(Normalized(mantissa, exponent).0, Pow(10, rest));
    } else {
      zeros := 0;
    }
  }

  lemma LayoutReads(mantissa: nat, exponent: int)
    ensures var text := Layout(mantissa, exponent);
      && FractionDigits(text) == (if exponent >= 0 then 0 else -exponent)
      && NumeralValue(WithoutPoint(text)) == (if exponent >= 0 then mantissa * Pow(10, exponent) else mantissa)
  {
    NumeralIsDigits(mantissa);
    if exponent >= 0 {
      PaddedRight(Numeral(mantissa), Repeat('0', exponent));
    } else {
      WithPointReads(Numeral(mantissa), -exponent);
    }
  }

  lemma PaddedRight(digits: string, zeros: string)
    requires AllDigits(digits) && (forall i :: 0 <= i < |zeros| ==> zeros[i] == '0')
    ensures FractionDigits(digits + zeros) == 0
    ensures NumeralValue(WithoutPoint(digits + zeros)) == NumeralValue(digits) * Pow(10, |zeros|)
  {
    NoPoint(digits + zeros);
    ValueOfConcat(digits, zeros);
    ValueOfZeros(zeros);
  }

  /** Only a minus sign can stand before the digits. */
  lemma LayoutStart(mantissa: nat, exponent: int)
    requires mantissa > 0
    ensures Layout(mantissa, exponent) != "" && Layout(mantissa, exponent)[0] != '-'
  {
    NumeralEnds(mantissa);
  }

  /** So the sign can be told from the digits. */
  lemma SignSplits(negative: bool, body: string)
    requires body != "" && body[0] != '-'
    ensures var text := (if negative then "-" else "") + body;
      && text != "" && (text[0] == '-' <==> negative)
      && (if negative then text[1..] else text) == body
  {
  }

  lemma LayoutDenotes(digits: nat, zeros: nat, exponent: int)
    ensures Magnitude(Layout(digits, exponent + zeros)) == Scaled((digits * Pow(10, zeros)) as real, exponent)
  {
    ScaledShift(digits, zeros, exponent);
    LayoutScaled(digits, exponent + zeros);
  }

  lemma LayoutScaled(digits: nat, shifted: int)
    ensures Magnitude(Layout(digits, shifted)) == Scaled(digits as real, shifted)
  {
    var text := Layout(digits, shifted);
    LayoutReads(digits, shifted);
    hide Layout, NumeralValue, FractionDigits, WithoutPoint, Pow;
    var value, fraction := NumeralValue(WithoutPoint(text)), FractionDigits(text);
    if shifted >= 0 {
      ScaledShift(digits, shifted, 0);
      assert fraction == 0;
    } else {
      assert value == digits && shifted == -(fraction as int);
    }
  }

  /** The text denotes exactly the signed mantissa times ten to the exponent. */
  lemma IssuedTextDenotes(negative: bool, exponent: int, mantissa: nat)
    requires mantissa > 0
    ensures Denoted(IssuedText(negative, exponent, mantissa))
         == (if negative then -Scaled(mantissa as real, exponent) else Scaled(mantissa as real, exponent))
  {
    var zeros := NormalizedIsShift(mantissa, exponent);
    var (digits, shifted) := Normalized(mantissa, exponent);
    LayoutStart(digits, shifted);
    SignSplits(negative, Layout(digits, shifted));
    LayoutDenotes(digits, zeros, exponent);
  }

  /** No fraction ends in a redundant zero. */
  lemma IssuedTextIsTrimmed(negative: bool, exponent: int, mantissa: nat)
    requires mantissa > 0
    ensures IsTrimmed(IssuedText(negative, exponent, mantissa))
  {
    var zeros := NormalizedIsShift(mantissa, exponent);
    var (digits, shifted) := Normalized(mantissa, exponent);
    LayoutIsTrimmed(digits, shifted, Pow(10, zeros));
    LayoutStart(digits, shifted);
    SignKeepsTrimmed(negative, Layout(digits, shifted));
  }

  /** Nor does the text begin with one, behind the minus sign of a negative number. */
  lemma IssuedTextStartsPlain(negative: bool, exponent: int, mantissa: nat)
    requires mantissa > 0
    ensures var text := IssuedText(negative, exponent, mantissa);
      text != "" && (text[0] == '-' <==> negative) && StartsPlain(if negative then text[1..] else text)
  {
    var zeros := NormalizedIsShift(mantissa, exponent);
    var (digits, shifted) := Normalized(mantissa, exponent);
    LayoutStart(digits, shifted);
    SignSplits(negative, Layout(digits, shifted));
    NumeralEnds(digits);
    if shifted < 0 {
      WithPointStartsPlain(Numeral(digits), -shifted);
    }
  }

  lemma LayoutIsTrimmed(digits: nat, shifted: int, power: nat)
    requires digits * power > 0 && (shifted < 0 ==> digits % 10 != 0)
    ensures digits > 0 && IsTrimmed(Layout(digits, shifted))
  {
    NumeralEnds(digits);
    if shifted >= 0 {
      NoPoint(Layout(digits, shifted));
    } else {
      WithPointIsTrimmed(Numeral(digits), -shifted);
    }
  }

  lemma SignKeepsTrimmed(negative: bool, text: string)
    requires IsTrimmed(text)
    ensures IsTrimmed((if negative then "-" else "") + text)
  {
    var signed := (if negative then "-" else "") + text;
    if negative {
      assert signed[1..] == text;
      assert PointIndex(signed) == 1 + PointIndex(text);
    } else {
      assert signed == text;
    }
  }

  /** 99 characters suffice, so 100 bytes hold the text and its terminator. */
  lemma IssuedTextFits(negative: bool, exponent: int, mantissa: nat)
    requires -96 <= exponent <= 80 && 1000000000000000 <= mantissa <= 9999999999999999
    ensures 0 < |IssuedText(negative, exponent, mantissa)| <= 99
  {
    var zeros := NormalizedIsShift(mantissa, exponent);
    var (digits, shifted) := Normalized(mantissa, exponent);
    NormalizedLength(digits, zeros);
    LayoutStart(digits, shifted);
  }

  /** The 16 digits of a mantissa are split between numeral and exponent. */
  lemma NormalizedLength(digits: nat, zeros: nat)
    requires MANTISSA_MIN <= digits * Pow(10, zeros) <= MANTISSA_MAX
    ensures |Numeral(digits)| + zeros == 16
  {
    NumeralShift(digits, zeros);
    PowersOfTen();
    NumeralLength(digits * Pow(10, zeros), 15);
    NumeralLength(digits * Pow(10, zeros), 16);
  }

  lemma PowersOfTen()
    ensures Pow(10, 15) == MANTISSA_MIN && Pow(10, 16) == MANTISSA_MAX + 1
  {
    assert Pow(10, 5) == 100000;
    PowAdd(10, 5, 5);
    PowAdd(10, 10, 5);
    assert Pow(10, 16) == 10 * Pow(10, 15);
  }

  /** The bound is reached. */
  lemma LongestText()
    ensures |IssuedText(true, -96, 1000000000000001)| == 99
  {
    PowersOfTen();
    NumeralLength(MANTISSA_MIN + 1, 15);
    NumeralLength(MANTISSA_MIN + 1, 16);
  }

  // ---------- Reading it back ----------

  /** The value with exponent `exponent`, brought to a 16-digit mantissa. */
  function Canonical(n: nat, exponent: int): (int, nat)
    decreases if n > MANTISSA_MAX then n + MANTISSA_MAX + 1 else MANTISSA_MAX - n
  {
    if n > MANTISSA_MAX then Canonical(n / 10, exponent + 1)
    else if 0 < n < MANTISSA_MIN then Canonical(10 * n, exponent - 1)
    else (exponent, n)
  }

  function ReadUnsigned(text: string): (int, nat) {
    Canonical(NumeralValue(WithoutPoint(text)), -(FractionDigits(text) as int))
  }

  function ReadBack(text: string): (bool, (int, nat)) {
    var negative := text != "" && text[0] == '-';
    var body := if negative then text[1..] else text;
    (negative, ReadUnsigned(body))
  }

  lemma {:induction false} CanonicalUp(n: nat, zeros: nat, exponent: int)
    requires MANTISSA_MIN <= n * Pow(10, zeros) <= MANTISSA_MAX
    ensures Canonical(n, exponent + zeros) == (exponent, n * Pow(10, zeros))
    decreases zeros
  {
    if zeros > 0 {
      TimesTen(n, Pow(10, zeros - 1));
      assert n * Pow(10, zeros) == (10 * n) * Pow(10, zeros - 1);
      CanonicalUp(10 * n, zeros - 1, exponent);
      SmallFactor(n, Pow(10, zeros - 1));
    }
  }

  lemma SmallFactor(n: nat, power: nat)
    requires power >= 1 && MANTISSA_MIN <= n * (10 * power) <= MANTISSA_MAX
    ensures 0 < n < MANTISSA_MIN
  {
    MulMonotone(1, power, n);
  }

  lemma {:induction false} CanonicalDown(n: nat, zeros: nat, exponent: int)
    requires MANTISSA_MIN <= n <= MANTISSA_MAX
    ensures Canonical(n * Pow(10, zeros), exponent) == (exponent + zeros, n)
  {
    if zeros > 0 {
      TimesTen(n, Pow(10, zeros - 1));
      MulMonotone(1, Pow(10, zeros - 1), n);
      CanonicalDown(n, zeros - 1, exponent + 1);
    }
  }

  /** Reading the text back recovers sign, exponent and mantissa. */
  lemma ReadBackIssuedText(negative: bool, exponent: int, mantissa: nat)
    requires -96 <= exponent <= 80 && 1000000000000000 <= mantissa <= 9999999999999999
    ensures ReadBack(IssuedText(negative, exponent, mantissa)) == (negative, (exponent, mantissa))
  {
    var zeros := NormalizedIsShift(mantissa, exponent);
    var (digits, shifted) := Normalized(mantissa, exponent);
    LayoutStart(digits, shifted);
    SignSplits(negative, Layout(digits, shifted));
    LayoutReadsBack(digits, zeros, exponent);
  }

  lemma LayoutReadsBack(digits: nat, zeros: nat, exponent: int)
    requires MANTISSA_MIN <= digits * Pow(10, zeros) <= MANTISSA_MAX
    ensures ReadUnsigned(Layout(digits, exponent + zeros)) == (exponent, digits * Pow(10, zeros))
  {
    ReadBackNormalized(digits, zeros, exponent);
    ReadsAs(digits, exponent + zeros, (exponent, digits * Pow(10, zeros)));
  }

  lemma ReadsAs(digits: nat, shifted: int, result: (int, nat))
    requires shifted < 0 ==> Canonical(digits, shifted) == result
    requires shifted >= 0 ==> Canonical(digits * Pow(10, shifted), 0) == result
    ensures ReadUnsigned(Layout(digits, shifted)) == result
  {
    LayoutReads(digits, shifted);
  }

  lemma ReadBackNormalized(digits: nat, zeros: nat, exponent: int)
    requires MANTISSA_MIN <= digits * Pow(10, zeros) <= MANTISSA_MAX
    ensures exponent + zeros < 0 ==> Canonical(digits, exponent + zeros) == (exponent, digits * Pow(10, zeros))
    ensures exponent + zeros >= 0 ==>
      Canonical(digits * Pow(10, exponent + zeros), 0) == (exponent, digits * Pow(10, zeros))
  {
    if exponent + zeros < 0 {
      CanonicalUp(digits, zeros, exponent);
    } else if exponent >= 0 {
      CanonicalDown(digits * Pow(10, zeros), exponent, 0);
      PowAdd(10, zeros, exponent);
      Associate(digits, Pow(10, zeros), Pow(10, exponent));
    } else {
      PowAdd(10, exponent + zeros, -exponent);
      Associate(digits, Pow(10, exponent + zeros), Pow(10, -exponent));
      CanonicalUp(digits * Pow(10, exponent + zeros), -exponent, exponent);
    }
  }

  lemma Associate(a: nat, b: nat, c: nat)
    ensures (a * b) * c == a * (b * c)
  {
  }

  // ---------- Rendering in place ----------

  /** `normalize` */
  method Normalize(mantissa: nat, exponent: int) returns (digits: nat, shifted: int)
    ensures (digits, shifted) == Normalized(mantissa, exponent)
  {
    digits, shifted := mantissa, exponent;
    while digits > 0 && digits % 10 == 0
      invariant Normalized(digits, shifted) == Normalized(mantissa, exponent)
    {
      digits := digits / 10;
      shifted := shifted + 1;
    }
  }

  /** "Multiplied": zeros behind the digits. */
  lemma ZerosBehind(before: seq<char>, after: seq<char>, clean: seq<char>, start: nat, digits: string, zeros: nat)
    requires Written(before, clean, start, digits) && start + |digits| + zeros <= |before|
    requires after == Filled(before, start + |digits|, '0', zeros)
    ensures Written(after, clean, start, digits + Repeat('0', zeros))
  {
  }

  /** The digits from `split` on move one to the right, with the terminators behind them. */
  lemma PointInside(before: seq<char>, moved: seq<char>, after: seq<char>, clean: seq<char>,
                    start: nat, digits: string, split: nat)
    requires Written(before, clean, start, digits) && Zeroed(clean, start) && 0 < split < |digits|
    requires start + split + 1 + |digits| <= |before|
    requires moved == Moved(before, start + split + 1, start + split, |digits|)
    requires after == moved[start + split := '.']
    ensures Written(after, clean, start, WithPoint(digits, |digits| - split))
  {
    var text := digits[..split] + "." + digits[split..];
    assert forall i :: 0 <= i < |text| ==>
      text[i] == if i < split then digits[i] else if i == split then '.' else digits[i - 1];
    forall i | 0 <= i < |after|
      ensures after[i] == if start <= i < start + |text| then text[i - start] else clean[i]
    {
      if start + split + 1 <= i < start + split + 1 + |digits| {
        assert after[i] == before[i - 1];
      }
    }
  }

  /** All digits move right, behind "0." and the missing zeros. */
  lemma PointBefore(before: seq<char>, moved: seq<char>, filled: seq<char>, after: seq<char>, clean: seq<char>,
                    start: nat, digits: string, zeros: nat)
    requires Written(before, clean, start, digits) && |digits| > 0
    requires start + zeros + 2 + |digits| <= |before|
    requires moved == Moved(before, start + zeros + 2, start, |digits|)
    requires filled == Filled(moved, start, '0', zeros + 2) && after == filled[start + 1 := '.']
    ensures Written(after, clean, start, WithPoint(digits, |digits| + zeros))
  {
    var text := "0." + Repeat('0', zeros) + digits;
    assert forall i :: 0 <= i < |text| ==>
      text[i] == if i == 1 then '.' else if i < zeros + 2 then '0' else digits[i - (zeros + 2)];
    forall i | 0 <= i < |after|
      ensures after[i] == if start <= i < start + |text| then text[i - start] else clean[i]
    {
      if start + zeros + 2 <= i < start + |text| {
        assert after[i] == before[i - (zeros + 2)];
      }
    }
  }

  /** Step 5 with the point among the digits. */
  method InsertPoint(dst: array<char>, start: nat, len: nat, decimalPos: nat, ghost clean: seq<char>,
                     ghost text: string)
    requires len == |text| && 0 < decimalPos < len && start + decimalPos + 1 + len <= dst.Length
    requires Written(dst[..], clean, start, text) && Zeroed(clean, start)
    modifies dst
    ensures Written(dst[..], clean, start, WithPoint(text, len - decimalPos))
  {
    hide Written, WithPoint, Moved, Filled;
    ghost var before := dst[..];
    MemMove(dst, start + decimalPos + 1, start + decimalPos, len);
    ghost var moved := dst[..];
    Store(dst, start + decimalPos, '.');
    PointInside(before, moved, dst[..], clean, start, text, decimalPos);
  }

  /** Step 5 with the point in front of the digits. */
  method InsertZeros(dst: array<char>, start: nat, len: nat, zeros: nat, ghost clean: seq<char>, ghost text: string)
    requires len == |text| && len > 0 && start + zeros + 2 + len <= dst.Length
    requires Written(dst[..], clean, start, text)
    modifies dst
    ensures Written(dst[..], clean, start, WithPoint(text, len + zeros))
  {
    hide Written, WithPoint, Moved, Filled;
    ghost var before := dst[..];
    MemMove(dst, start + zeros + 2, start, len);
    ghost var moved := dst[..];
    assert moved == Moved(before, start + zeros + 2, start, len);
    MemSet(dst, start, '0', zeros + 2);
    ghost var filled := dst[..];
    assert filled == Filled(moved, start, '0', zeros + 2);
    Store(dst, start + 1, '.');
    PointBefore(before, moved, filled, dst[..], clean, start, text, zeros);
  }

  /** Step 5: the printed mantissa becomes the laid-out number. */
  method PlacePoint(dst: array<char>, start: nat, digits: nat, exponent: int, ghost clean: seq<char>)
    requires digits > 0 && |Numeral(digits)| <= 16 && -96 <= exponent <= 95
    requires start + 99 <= dst.Length && start + |Layout(digits, exponent)| <= dst.Length
    requires Written(dst[..], clean, start, Numeral(digits)) && Zeroed(clean, start)
    modifies dst
    ensures Written(dst[..], clean, start, Layout(digits, exponent))
  {
    NumeralEnds(digits);
    hide Numeral, WithPoint, Moved, Filled, Written;
    ghost var before, text := dst[..], Numeral(digits);
    var len := |Numeral(digits)|;
    var decimalPos := len + exponent;
    if exponent >= 0 {
      MemSet(dst, start + len, '0', exponent);
      ZerosBehind(before, dst[..], clean, start, text, exponent);
    } else if decimalPos > 0 {
      InsertPoint(dst, start, len, decimalPos, clean, text);
    } else {
      InsertZeros(dst, start, len, -decimalPos, clean, text);
    }
  }

  /** The numbers the renderer accepts: zero in one spelling, and the ledger's range. */
  ghost predicate Renderable(sign: nat, exponent: int, mantissa: nat) {
    (sign == 0 && exponent == 0 && mantissa == 0) || InRange(exponent, mantissa)
  }

  ghost function Rendered(sign: nat, exponent: int, mantissa: nat): string {
    if sign == 0 && exponent == 0 && mantissa == 0 then "0" else IssuedText(sign == 0, exponent, mantissa)
  }

  lemma NormalizedBounds(exponent: int, mantissa: nat)
    requires InRange(exponent, mantissa)
    ensures var (digits, shifted) := Normalized(mantissa, exponent);
      && 0 < digits < Pow(10, 19) && 0 < |Numeral(digits)| <= 16 && -96 <= shifted <= 95
  {
    var zeros := NormalizedIsShift(mantissa, exponent);
    var digits := Normalized(mantissa, exponent).0;
    NormalizedLength(digits, zeros);
    NumeralLength(digits, 19);
    NumeralEnds(digits);
  }

  lemma DropTerminator(buffer: seq<char>, clean: seq<char>, start: nat, text: string)
    requires Written(buffer, clean, start, text + "\0") && Zeroed(clean, start)
    ensures Written(buffer, clean, start, text)
  {
    assert (text + "\0")[|text|] == '\0';
  }

  lemma PrefixSign(buffer: seq<char>, before: seq<char>, start: nat, text: string)
    requires start < |before| && Written(buffer, before[start := '-'], start + 1, text)
    ensures Written(buffer, before, start, "-" + text)
  {
    assert buffer[start] == '-';
  }

  /** `parse_decimal_number`: with room for 100 characters in a zero-filled
      buffer it writes exactly the rendered text, and fails on anything else
      without touching the buffer. */
  method ParseDecimalNumber(dst: array<char>, start: nat, maxLen: nat, sign: nat, exponent: int, mantissa: nat)
    returns (status: int)
    requires start + maxLen <= dst.Length && Zeroed(dst[..], start)
    modifies dst
    ensures status == 0 || status == -1
    ensures maxLen < 100 ==> status == -1
    ensures maxLen >= 100 ==>
      (status == 0 <==>
        (sign == 0 && exponent == 0 && mantissa == 0)
        || (-96 <= exponent <= 80 && 1000000000000000 <= mantissa <= 9999999999999999))
    ensures status == 0 ==> Written(dst[..], old(dst[..]), start, Rendered(sign, exponent, mantissa))
    ensures status == 0 ==> |Rendered(sign, exponent, mantissa)| <= 99
    ensures status == -1 ==> dst[..] == old(dst[..])
  {
    hide Layout, Numeral, Normalized, Written, Pow;
    if maxLen < 100 {
      return -1;
    }
    if sign == 0 && exponent == 0 && mantissa == 0 {
      Store(dst, start, '0');
      WrittenChar(old(dst[..]), start, '0');
      return 0;
    }
    if exponent < EXP_MIN || exponent > EXP_MAX {
      return -1;
    }
    if mantissa < MANTISSA_MIN || mantissa > MANTISSA_MAX {
      return -1;
    }
    var at, room := start, maxLen;
    if sign == 0 {
      Store(dst, start, '-');
      at, room := start + 1, maxLen - 1;
    }
    ghost var clean := dst[..];
    assert clean == if sign == 0 then old(dst[..])[start := '-'] else old(dst[..]);
    NormalizedBounds(exponent, mantissa);
    IssuedTextFits(sign == 0, exponent, mantissa);
    var digits, shifted := Normalize(mantissa, exponent);
    var printed := PrintUint64(dst, at, room, digits);
    if printed != 0 {
      return -1;
    }
    DropTerminator(dst[..], clean, at, Numeral(digits));
    PlacePoint(dst, at, digits, shifted, clean);
    if sign == 0 {
      PrefixSign(dst[..], old(dst[..]), start, Layout(digits, shifted));
    } else {
      assert "" + Layout(digits, shifted) == Layout(digits, shifted);
    }
    return 0;
  }
}
