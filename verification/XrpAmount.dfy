/** Native amounts as decimal text: `adjust_decimals` and `xrp_print_amount`
    of src/xrp/xrp_helpers.c. */
module XrpAmount {
  import opened Numerals
  import opened Decimal
  import opened CString
  import opened PrintNumber

  // ---------- The text ----------

  function TrailingZeros(text: string): (zeros: nat)
    ensures zeros <= |text|
    ensures forall i :: |text| - zeros <= i < |text| ==> text[i] == '0'
    ensures zeros < |text| ==> text[|text| - zeros - 1] != '0'
  {
    if text == "" || text[|text| - 1] != '0' then 0 else 1 + TrailingZeros(text[..|text| - 1])
  }

  /** The digits whose trailing zeros may go. */
  function Tail(digits: string, decimals: nat): string {
    if |digits| <= decimals then digits else digits[|digits| - decimals..]
  }

  function Full(digits: string, decimals: nat): string {
    if digits == "" then "0." + Repeat('0', decimals) else WithPoint(digits, decimals)
  }

  /** Cuts off the last `zeros` characters, and a point left bare by that. */
  function Trimmed(text: string, zeros: nat): string
    requires zeros < |text|
  {
    var cut := |text| - zeros;
    if zeros > 0 && text[cut - 1] == '.' then text[..cut - 1] else text[..cut]
  }

  function Adjusted(digits: string, decimals: nat): string {
    if digits == "0" then "0" else
    Trimmed(Full(digits, decimals), TrailingZeros(Tail(digits, decimals)))
  }

  function NativeText(drops: nat): string {
    "XRP " + Adjusted(Numeral(drops), 6)
  }

  // ---------- What it denotes ----------

  /** Except for an all-zero fraction part in front, the text is the trimmed
      digits with the point at its place. */
  lemma AdjustedIsWithPoint(digits: string, decimals: nat)
    requires AllDigits(digits) && digits != "" && digits != "0"
    requires TrailingZeros(Tail(digits, decimals)) < |digits|
    ensures var zeros := TrailingZeros(Tail(digits, decimals));
      zeros <= decimals && Adjusted(digits, decimals) == WithPoint(digits[..|digits| - zeros], decimals - zeros)
  {
    hide WithPoint, Trimmed;
    TrimKeepsLayout(digits, decimals, TrailingZeros(Tail(digits, decimals)));
  }

  lemma TrimKeepsLayout(digits: string, decimals: nat, zeros: nat)
    requires AllDigits(digits) && zeros < |digits| && zeros <= decimals
    ensures zeros < |WithPoint(digits, decimals)|
    ensures Trimmed(WithPoint(digits, decimals), zeros) == WithPoint(digits[..|digits| - zeros], decimals - zeros)
  {
    if decimals > 0 {
      if |digits| <= decimals {
        TrimBehindZeros(digits, decimals, zeros);
      } else {
        TrimBehindPoint(digits, decimals, zeros);
      }
    }
  }

  lemma TrimBehindZeros(digits: string, decimals: nat, zeros: nat)
    requires AllDigits(digits) && zeros < |digits| <= decimals
    ensures Trimmed(WithPoint(digits, decimals), zeros) == WithPoint(digits[..|digits| - zeros], decimals - zeros)
  {
    var padding, kept := Repeat('0', decimals - |digits|), digits[..|digits| - zeros];
    var full := WithPoint(digits, decimals);
    assert full == "0." + padding + digits;
    assert full[..|full| - zeros] == "0." + padding + kept;
    assert full[|full| - zeros - 1] == kept[|kept| - 1];
  }

  lemma TrimBehindPoint(digits: string, decimals: nat, zeros: nat)
    requires AllDigits(digits) && zeros <= decimals < |digits| && decimals > 0
    ensures Trimmed(WithPoint(digits, decimals), zeros) == WithPoint(digits[..|digits| - zeros], decimals - zeros)
  {
    var split := |digits| - decimals;
    if zeros == decimals {
      TrimWholeFraction(WithPoint(digits, decimals), digits, split);
    } else {
      TrimFractionPart(WithPoint(digits, decimals), digits, split, zeros);
    }
  }

  lemma TrimWholeFraction(full: string, digits: string, split: nat)
    requires split < |digits| && full == digits[..split] + "." + digits[split..]
    ensures Trimmed(full, |digits| - split) == digits[..split]
  {
    assert full[split] == '.';
  }

  lemma TrimFractionPart(full: string, digits: string, split: nat, zeros: nat)
    requires AllDigits(digits) && split + zeros < |digits| && full == digits[..split] + "." + digits[split..]
    ensures var kept := digits[..|digits| - zeros];
      Trimmed(full, zeros) == kept[..split] + "." + kept[split..]
  {
    assert full[|full| - zeros - 1] == digits[|digits| - zeros - 1];
  }

  lemma {:induction false} ZeroScaled(exponent: int)
    ensures Scaled(0.0, exponent) == 0.0
    decreases if exponent >= 0 then exponent else -exponent
  {
    if exponent > 0 {
      ZeroScaled(exponent - 1);
    } else if exponent < 0 {
      ZeroScaled(exponent + 1);
    }
  }

  /** Trimming never changes the number: the text denotes the digits divided by
      ten to the `decimals`, whatever the digits. */
  lemma AdjustedDenotes(digits: string, decimals: nat)
    requires AllDigits(digits)
    ensures Magnitude(Adjusted(digits, decimals)) == Scaled(NumeralValue(digits) as real, -(decimals as int))
  {
    hide Adjusted, Magnitude, Scaled, NumeralValue, WithPoint;
    var zeros := TrailingZeros(Tail(digits, decimals));
    if digits == "" || digits == "0" || zeros == |digits| {
      AllZerosDenote(digits, decimals);
    } else {
      AdjustedIsWithPoint(digits, decimals);
      TrimmedDenotes(Adjusted(digits, decimals), digits, decimals, zeros);
    }
  }

  lemma TrimmedDenotes(text: string, digits: string, decimals: nat, zeros: nat)
    requires AllDigits(digits) && zeros <= |digits| && zeros <= decimals
    requires forall i :: |digits| - zeros <= i < |digits| ==> digits[i] == '0'
    requires text == WithPoint(digits[..|digits| - zeros], decimals - zeros)
    ensures Magnitude(text) == Scaled(NumeralValue(digits) as real, -(decimals as int))
  {
    var kept := digits[..|digits| - zeros];
    WithPointDenotes(kept, decimals - zeros);
    DropTrailing(digits, zeros);
    MoveZeros(Magnitude(text), NumeralValue(digits), NumeralValue(kept), zeros, decimals);
  }

  lemma MoveZeros(magnitude: real, value: nat, rest: nat, zeros: nat, decimals: nat)
    requires value == rest * Pow(10, zeros) && zeros <= decimals
    requires magnitude == Scaled(rest as real, -((decimals - zeros) as int))
    ensures magnitude == Scaled(value as real, -(decimals as int))
  {
    ScaledShift(rest, zeros, -(decimals as int));
  }

  lemma DropTrailing(digits: string, zeros: nat)
    requires zeros <= |digits| && forall i :: |digits| - zeros <= i < |digits| ==> digits[i] == '0'
    ensures NumeralValue(digits) == NumeralValue(digits[..|digits| - zeros]) * Pow(10, zeros)
  {
    var kept, dropped := digits[..|digits| - zeros], digits[|digits| - zeros..];
    assert digits == kept + dropped;
    ValueOfConcat(kept, dropped);
    ValueOfZeros(dropped);
  }

  lemma AllZerosDenote(digits: string, decimals: nat)
    requires AllDigits(digits)
    requires digits == "" || digits == "0" || TrailingZeros(Tail(digits, decimals)) == |digits|
    ensures Magnitude(Adjusted(digits, decimals)) == Scaled(NumeralValue(digits) as real, -(decimals as int))
  {
    ValueOfZeros(digits);
    ZeroScaled(-(decimals as int));
    AllZerosText(digits, decimals);
    hide Adjusted, Magnitude, NumeralValue, Scaled;
    ZeroText(Adjusted(digits, decimals));
  }

  lemma AllZerosText(digits: string, decimals: nat)
    requires AllDigits(digits)
    requires digits == "" || digits == "0" || TrailingZeros(Tail(digits, decimals)) == |digits|
    ensures var text := Adjusted(digits, decimals);
      forall i :: 0 <= i < |text| ==> text[i] == '0' || (text[i] == '.' && i == 1)
  {
  }

  /** Zeros and at most one point. */
  lemma ZeroText(text: string)
    requires forall i :: 0 <= i < |text| ==> text[i] == '0' || (text[i] == '.' && i == 1)
    ensures Magnitude(text) == 0.0
  {
    ValueOfZeros(WithoutPoint(text));
    ZeroScaled(-(FractionDigits(text) as int));
  }

  lemma AdjustedIsTrimmed(digits: string, decimals: nat)
    requires AllDigits(digits) && NumeralValue(digits) > 0
    ensures IsTrimmed(Adjusted(digits, decimals))
  {
    hide WithPoint, Adjusted, IsTrimmed, NumeralValue;
    var zeros := TrailingZeros(Tail(digits, decimals));
    if zeros == |digits| || digits == "0" {
      ValueOfZeros(digits);
    }
    AdjustedIsWithPoint(digits, decimals);
    KeptIsTrimmed(digits, decimals, zeros);
  }

  lemma KeptIsTrimmed(digits: string, decimals: nat, zeros: nat)
    requires AllDigits(digits) && zeros == TrailingZeros(Tail(digits, decimals)) < |digits| && zeros <= decimals
    ensures IsTrimmed(WithPoint(digits[..|digits| - zeros], decimals - zeros))
  {
    hide WithPoint, IsTrimmed;
    var kept := digits[..|digits| - zeros];
    if zeros < decimals {
      assert zeros < |Tail(digits, decimals)|;
      assert kept[|kept| - 1] == Tail(digits, decimals)[|Tail(digits, decimals)| - zeros - 1];
    }
    WithPointIsTrimmed(kept, decimals - zeros);
  }

  // ---------- Rendering in place ----------

  /** The copying loops: `source[from..]` to `target` at `offset`. */
  method Copy(target: array<char>, offset: nat, source: string, ghost start: nat, ghost before: seq<char>,
              ghost text: string)
    requires start + |text| == offset && offset + |source| <= target.Length
    requires Written(target[..], before, start, text)
    modifies target
    ensures Written(target[..], before, start, text + source)
  {
    var i := 0;
    while i < |source|
      invariant i <= |source|
      invariant Written(target[..], before, start, text + source[..i])
    {
      Append(target[..], before, start, text + source[..i], source[i]);
      assert text + source[..i] + [source[i]] == text + source[..i + 1];
      Store(target, offset + i, source[i]);
      i := i + 1;
    }
    assert source[..i] == source;
  }

  lemma Append(buffer: seq<char>, before: seq<char>, start: nat, text: string, c: char)
    requires Written(buffer, before, start, text) && start + |text| < |buffer|
    ensures Written(buffer[start + |text| := c], before, start, text + [c])
  {
  }

  /** The trimming scan over the last `|tail|` characters of the text. */
  method TrimZeros(target: array<char>, at: nat, startOffset: nat, offset: nat, ghost text: string, ghost tail: string)
    requires offset == |text| && at + offset < target.Length && 0 < startOffset && startOffset + |tail| == offset
    requires HoldsText(target[..], at, text) && text[startOffset..] == tail
    requires TrailingZeros(tail) == 0 || TrailingZeros(tail) < |text|
    modifies target
    ensures HoldsText(target[..], at, Trimmed(text, TrailingZeros(tail)))
    ensures forall i :: 0 <= i < target.Length && !(at <= i < at + offset) ==> target[i] == old(target[i])
  {
    hide HoldsText, TrailingZeros;
    var lastZeroOffset := 0;
    var i := startOffset;
    while i < offset
      invariant startOffset <= i <= offset && target[..] == old(target[..])
      invariant lastZeroOffset == 0 ==> i == startOffset || text[i - 1] != '0'
      invariant lastZeroOffset != 0 ==> ZeroRun(text, startOffset, lastZeroOffset, i)
    {
      CutText(target[..], at, text, i);
      if target[at + i] == '0' {
        if lastZeroOffset == 0 {
          lastZeroOffset := i;
        }
      } else {
        lastZeroOffset := 0;
      }
      i := i + 1;
    }
    ScanFindsTail(text, tail, startOffset, lastZeroOffset);
    if lastZeroOffset != 0 {
      CutText(target[..], at, text, lastZeroOffset);
      Store(target, at + lastZeroOffset, '\0');
      ghost var cut := text[..lastZeroOffset];
      CutText(target[..], at, cut, lastZeroOffset - 1);
      if target[at + lastZeroOffset - 1] == '.' {
        Store(target, at + lastZeroOffset - 1, '\0');
        assert cut[..lastZeroOffset - 1] == text[..lastZeroOffset - 1];
      }
    } else {
      assert Trimmed(text, 0) == text;
    }
  }

  /** `from` is where the run of zeros that ends at `to` begins. */
  ghost predicate ZeroRun(text: string, start: nat, from: nat, to: nat) {
    && start <= from < to <= |text|
    && (forall k :: from <= k < to ==> text[k] == '0')
    && (from == start || text[from - 1] != '0')
  }

  lemma ScanFindsTail(text: string, tail: string, start: nat, lastZero: nat)
    requires start + |tail| == |text| && text[start..] == tail && 0 < start
    requires lastZero == 0 ==> tail == "" || text[|text| - 1] != '0'
    requires lastZero != 0 ==> ZeroRun(text, start, lastZero, |text|)
    ensures TrailingZeros(tail) == if lastZero == 0 then 0 else |text| - lastZero
  {
    assert forall k :: 0 <= k < |tail| ==> tail[k] == text[start + k];
    CountedZeros(tail, if lastZero == 0 then 0 else |text| - lastZero);
  }

  lemma {:induction false} CountedZeros(text: string, zeros: nat)
    requires zeros <= |text| && forall i :: |text| - zeros <= i < |text| ==> text[i] == '0'
    requires zeros < |text| ==> text[|text| - zeros - 1] != '0'
    ensures TrailingZeros(text) == zeros
  {
    if zeros > 0 {
      CountedZeros(text[..|text| - 1], zeros - 1);
    }
  }

  function RoomFor(digits: string, decimals: nat): nat {
    if digits == "0" then 2 else if |digits| <= decimals then decimals + 3 else |digits| + 2
  }

  lemma AdjustedFits(digits: string, decimals: nat)
    ensures |Adjusted(digits, decimals)| < RoomFor(digits, decimals)
  {
    if digits != "0" && |digits| > decimals {
      assert |Full(digits, decimals)| <= |digits| + 1;
    }
  }

  /** At most `decimals` digits: "0.", the missing zeros, the digits. */
  method LayBehindZeros(src: string, target: array<char>, at: nat, decimals: nat) returns (startOffset: nat)
    requires AllDigits(src) && |src| <= decimals && at + decimals + 3 <= target.Length
    modifies target
    ensures startOffset == 2 + decimals - |src|
    ensures Written(target[..], old(target[..]), at, "0." + Repeat('0', decimals - |src|) + src + "\0")
  {
    ghost var before := target[..];
    var delta := decimals - |src|;
    var padding := "0." + Repeat('0', delta);
    startOffset := |padding|;
    Copy(target, at, padding, at, before, "");
    assert "" + padding == padding;
    Copy(target, at + startOffset, src, at, before, padding);
    Copy(target, at + startOffset + |src|, "\0", at, before, padding + src);
  }

  /** More digits: the whole part, the point unless there are no decimals, the rest. */
  method LayAroundPoint(src: string, target: array<char>, at: nat, decimals: nat) returns (startOffset: nat)
    requires AllDigits(src) && |src| > decimals && at + |src| + 2 <= target.Length
    modifies target
    ensures startOffset == |src| - decimals + if decimals == 0 then 0 else 1
    ensures Written(target[..], old(target[..]), at, WithPoint(src, decimals) + "\0")
  {
    ghost var before := target[..];
    var delta := |src| - decimals;
    startOffset := delta;
    Copy(target, at, src[..delta], at, before, "");
    ghost var whole := src[..delta];
    assert "" + whole == whole;
    if decimals != 0 {
      Copy(target, at + delta, ".", at, before, whole);
      startOffset := startOffset + 1;
      whole := whole + ".";
    }
    var rest := src[delta..];
    assert whole + rest == WithPoint(src, decimals);
    Copy(target, at + startOffset, rest, at, before, whole);
    Copy(target, at + startOffset + decimals, "\0", at, before, whole + rest);
  }

  lemma NothingWritten(buffer: seq<char>, start: nat)
    requires start <= |buffer|
    ensures Written(buffer, buffer, start, "")
  {
  }

  lemma WrittenHolds(buffer: seq<char>, before: seq<char>, start: nat, text: string)
    requires Written(buffer, before, start, text + "\0") && '\0' !in text
    ensures HoldsText(buffer, start, text)
  {
    assert forall i :: 0 <= i < |text| ==> (text + "\0")[i] == text[i];
    assert (text + "\0")[|text|] == '\0';
  }

  lemma FullLayout(digits: string, decimals: nat)
    requires AllDigits(digits)
    ensures |digits| <= decimals ==> Full(digits, decimals) == "0." + Repeat('0', decimals - |digits|) + digits
    ensures |digits| > decimals ==> Full(digits, decimals) == WithPoint(digits, decimals)
    ensures '\0' !in Full(digits, decimals) && '-' !in Full(digits, decimals)
    ensures |Tail(digits, decimals)| <= |Full(digits, decimals)|
    ensures Full(digits, decimals)[|Full(digits, decimals)| - |Tail(digits, decimals)|..] == Tail(digits, decimals)
    ensures |Full(digits, decimals)| == |Tail(digits, decimals)| +
      if |digits| <= decimals then 2 + decimals - |digits|
      else |digits| - decimals + if decimals == 0 then 0 else 1
  {
  }

  /** The untrimmed text, if the target has room for it. */
  method LayFull(src: string, target: array<char>, at: nat, targetLength: nat, decimals: nat)
    returns (ok: bool, startOffset: nat)
    requires AllDigits(src) && at + targetLength <= target.Length
    modifies target
    ensures ok <==> targetLength >= if |src| <= decimals then decimals + 3 else |src| + 2
    ensures !ok ==> target[..] == old(target[..])
    ensures ok ==>
      && Written(target[..], old(target[..]), at, Full(src, decimals) + "\0")
      && startOffset + |Tail(src, decimals)| == |Full(src, decimals)| < targetLength
  {
    hide WithPoint, Written;
    FullLayout(src, decimals);
    hide Tail, Full;
    startOffset := 0;
    if |src| <= decimals {
      if targetLength < |src| + 1 + 2 + (decimals - |src|) {
        return false, startOffset;
      }
      startOffset := LayBehindZeros(src, target, at, decimals);
    } else {
      if targetLength < |src| + 1 + 1 {
        return false, startOffset;
      }
      startOffset := LayAroundPoint(src, target, at, decimals);
    }
    return true, startOffset;
  }

  /** `adjust_decimals`: exact text, or nothing when the target is too short. */
  method AdjustDecimals(src: string, target: array<char>, at: nat, targetLength: nat, decimals: nat)
    returns (ok: bool)
    requires AllDigits(src) && at + targetLength <= target.Length
    modifies target
    ensures ok <==> targetLength >= RoomFor(src, decimals)
    ensures ok ==> HoldsText(target[..], at, Adjusted(src, decimals))
    ensures forall i :: 0 <= i < target.Length && !(at <= i < at + targetLength) ==> target[i] == old(target[i])
  {
    ghost var before := target[..];
    if |src| == 1 && src[0] == '0' {
      if targetLength < 2 {
        return false;
      }
      NothingWritten(before, at);
      Copy(target, at, "0\0", at, before, "");
      assert "" + "0\0" == "0" + "\0";
      WrittenHolds(target[..], before, at, "0");
      return true;
    }
    var startOffset;
    ok, startOffset := LayFull(src, target, at, targetLength, decimals);
    if !ok { return; }
    FullLayout(src, decimals);
    hide WithPoint, Full, Tail;
    WrittenHolds(target[..], before, at, Full(src, decimals));
    TrimZeros(target, at, startOffset, |Full(src, decimals)|, Full(src, decimals), Tail(src, decimals));
  }

  lemma RoomInAmountBuffer(drops: nat)
    requires drops < Pow(10, 19)
    ensures RoomFor(Numeral(drops), 6) <= 21
    ensures drops >= Pow(10, 18) ==> RoomFor(Numeral(drops), 6) == 21
  {
    hide Numeral, Pow;
    NumeralLength(drops, 19);
    NumeralLength(drops, 18);
  }

  /** `strncpy`: the text, then zeros up to the end. */
  method CopyPadded(out: array<char>, text: string)
    requires |text| < out.Length && '\0' !in text
    modifies out
    ensures out[..] == text + Repeat('\0', out.Length - |text|)
    ensures HoldsText(out[..], 0, text)
  {
    forall i | 0 <= i < out.Length {
      out[i] := if i < |text| then text[i] else '\0';
    }
    assert out[..][0..|text|] == text;
  }

  lemma HoldsPrefixed(buffer: seq<char>, prefix: string, text: string)
    requires HoldsText(buffer, |prefix|, text) && buffer[..|prefix|] == prefix && '\0' !in prefix
    ensures HoldsText(buffer, 0, prefix + text)
  {
    assert buffer[0..|prefix + text|] == buffer[..|prefix|] + buffer[|prefix|..|prefix| + |text|];
  }

  /** The counting loop: gives up on the 20th digit, before `base` can overflow. */
  method CountDigits(amount: nat) returns (ok: bool, numDigits: nat, base: nat)
    requires amount < TWO_64
    ensures ok <==> amount < Pow(10, 19)
    ensures ok ==> numDigits == |Numeral(amount)| <= 19 && base == Pow(10, numDigits)
  {
    ok, numDigits, base := true, 0, 1;
    TenToThe19();
    while base <= amount
      invariant base == Pow(10, numDigits) && numDigits <= 19
      invariant numDigits == 0 || Pow(10, numDigits - 1) <= amount
      decreases 20 - numDigits
    {
      numDigits := numDigits + 1;
      if numDigits > 19 {
        return false, numDigits, base;
      }
      PowMonotone(10, numDigits, 19);
      base := base * 10 % TWO_64;
    }
    PowMonotone(10, numDigits, 19);
    CountIsLength(amount, numDigits);
  }

  /** `xrp_print_amount`: rejects for size exactly the amounts of 20 digits; the
      21-byte target of `adjust_decimals` always suffices for the others. */
  method PrintAmount(amount: nat, out: array<char>) returns (status: int)
    requires amount < TWO_64 && out.Length >= 1
    modifies out
    ensures status == if amount < Pow(10, 19) && |NativeText(amount)| < out.Length - 1 then 0 else -1
    ensures status == 0 ==> out[..] == NativeText(amount) + Repeat('\0', out.Length - |NativeText(amount)|)
    ensures status == 0 ==> TextAt(out[..], 0) == NativeText(amount)
    ensures amount >= Pow(10, 19) ==> out[..] == old(out[..])
    ensures amount < Pow(10, 19) && status == -1 ==> out[0] == '\0'
  {
    hide Adjusted, Numeral, Pow, TextAt, HoldsText;
    var tmp := new char[20];
    var ok, numDigits, base := CountDigits(amount);
    if !ok {
      return -1;
    }
    PrintDigits(tmp, 0, numDigits, base, amount);
    assert tmp[..numDigits] == Numeral(amount);

    var tmp2 := new char[25];
    CopyPadded(tmp2, "XRP ");
    RoomInAmountBuffer(amount);
    ok := AdjustDecimals(tmp[..numDigits], tmp2, 4, 21, 6);
    if !ok {
      return -1;
    }
    ghost var text := NativeText(amount);
    HoldsPrefixed(tmp2[..], "XRP ", Adjusted(Numeral(amount), 6));
    var length := StrLen(tmp2, 0, text);
    if length >= out.Length - 1 {
      out[0] := '\0';
      return -1;
    }
    assert tmp2[..length] == text;
    CopyPadded(out, tmp2[..length]);
    HeldIsRead(out[..], 0, tmp2[..length]);
    return 0;
  }

  lemma ZeroIsNotTrimmed()
    ensures !IsTrimmed(NativeText(0)[4..])
  {
    ZeroDropsText();
    var text := "0.000000";
    assert NativeText(0)[4..] == text;
    hide NativeText;
    assert text[1..][0] == '.';
    assert PointIndex(text[1..]) == 0;
    assert PointIndex(text) == 1;
  }

  /** The text after "XRP " is the amount divided by a million, exactly, and the
      shortest such text unless the amount is zero. */
  lemma NativeTextDenotes(drops: nat)
    ensures NativeText(drops)[..4] == "XRP "
    ensures Denoted(NativeText(drops)[4..]) == Scaled(drops as real, -6)
    ensures IsTrimmed(NativeText(drops)[4..]) <==> drops > 0
  {
    ZeroIsNotTrimmed();
    hide Adjusted, Magnitude, IsTrimmed, Numeral, NumeralValue, Scaled;
    var text := Adjusted(Numeral(drops), 6);
    assert NativeText(drops)[4..] == text;
    NumeralIsDigits(drops);
    AdjustedDenotes(Numeral(drops), 6);
    AdjustedHasNoSign(Numeral(drops), 6);
    if drops > 0 {
      AdjustedIsTrimmed(Numeral(drops), 6);
    }
  }

  /** No zero stands in front that is not the only digit before the point. */
  lemma NativeTextStartsPlain(drops: nat)
    ensures StartsPlain(NativeText(drops)[4..])
  {
    var digits := Numeral(drops);
    assert NativeText(drops)[4..] == Adjusted(digits, 6);
    if drops == 0 {
      ZeroDropsText();
      assert NativeText(0)[4..] == "0.000000";
    } else {
      NumeralEnds(drops);
      var zeros := TrailingZeros(Tail(digits, 6));
      assert zeros < |digits|;
      hide NativeText, Adjusted, WithPoint, Numeral;
      AdjustedIsWithPoint(digits, 6);
      WithPointStartsPlain(digits[..|digits| - zeros], 6 - zeros);
    }
  }

  /** Zero has no digits to trim. */
  lemma ZeroDropsText()
    ensures NativeText(0) == "XRP 0.000000"
  {
    assert Adjusted("", 6) == "0." + Repeat('0', 6);
    assert Repeat('0', 6) == "000000";
  }

  lemma AdjustedHasNoSign(digits: string, decimals: nat)
    requires AllDigits(digits)
    ensures '-' !in Adjusted(digits, decimals)
  {
    hide WithPoint, Full, Tail;
    FullLayout(digits, decimals);
  }

  /** No two amounts print the same. */
  lemma NativeTextInjective(drops: nat, other: nat)
    requires NativeText(drops) == NativeText(other)
    ensures drops == other
  {
    hide NativeText, Denoted, Scaled;
    NativeTextDenotes(drops);
    NativeTextDenotes(other);
    ScaledInjective(drops as real, other as real, -6);
  }
}
