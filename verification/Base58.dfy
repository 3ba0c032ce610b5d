/** The base-58 address encoder (src/xrp/xrp_helpers.c): its text, its inverse,
    and the in-place big-number conversion that computes it. */
module Base58 {
  import opened Fields
  import opened Numerals

  /** Room for the largest input, MAX_ENC_INPUT_SIZE bytes. */
  const MAX_INPUT: nat := 26
  const BUFFER_SIZE: nat := MAX_INPUT * 138 / 100 + 1
  const ADDRESS_SIZE: nat := 41

  /** The alphabet of the XRP Ledger, `bas_e58_alphabet`. */
  function CharOf(digit: nat): char
    requires digit < 58
  {
    match digit
    case 0 => 'r' case 1 => 'p' case 2 => 's' case 3 => 'h' case 4 => 'n' case 5 => 'a'
    case 6 => 'f' case 7 => '3' case 8 => '9' case 9 => 'w' case 10 => 'B' case 11 => 'U'
    case 12 => 'D' case 13 => 'N' case 14 => 'E' case 15 => 'G' case 16 => 'H' case 17 => 'J'
    case 18 => 'K' case 19 => 'L' case 20 => 'M' case 21 => '4' case 22 => 'P' case 23 => 'Q'
    case 24 => 'R' case 25 => 'S' case 26 => 'T' case 27 => '7' case 28 => 'V' case 29 => 'W'
    case 30 => 'X' case 31 => 'Y' case 32 => 'Z' case 33 => '2' case 34 => 'b' case 35 => 'c'
    case 36 => 'd' case 37 => 'e' case 38 => 'C' case 39 => 'g' case 40 => '6' case 41 => '5'
    case 42 => 'j' case 43 => 'k' case 44 => 'm' case 45 => '8' case 46 => 'o' case 47 => 'F'
    case 48 => 'q' case 49 => 'i' case 50 => '1' case 51 => 't' case 52 => 'u' case 53 => 'v'
    case 54 => 'A' case 55 => 'x' case 56 => 'y' case _ => 'z'
  }

  function DigitOf(c: char): nat {
    match c
    case 'r' => 0 case 'p' => 1 case 's' => 2 case 'h' => 3 case 'n' => 4 case 'a' => 5
    case 'f' => 6 case '3' => 7 case '9' => 8 case 'w' => 9 case 'B' => 10 case 'U' => 11
    case 'D' => 12 case 'N' => 13 case 'E' => 14 case 'G' => 15 case 'H' => 16 case 'J' => 17
    case 'K' => 18 case 'L' => 19 case 'M' => 20 case '4' => 21 case 'P' => 22 case 'Q' => 23
    case 'R' => 24 case 'S' => 25 case 'T' => 26 case '7' => 27 case 'V' => 28 case 'W' => 29
    case 'X' => 30 case 'Y' => 31 case 'Z' => 32 case '2' => 33 case 'b' => 34 case 'c' => 35
    case 'd' => 36 case 'e' => 37 case 'C' => 38 case 'g' => 39 case '6' => 40 case '5' => 41
    case 'j' => 42 case 'k' => 43 case 'm' => 44 case '8' => 45 case 'o' => 46 case 'F' => 47
    case 'q' => 48 case 'i' => 49 case '1' => 50 case 't' => 51 case 'u' => 52 case 'v' => 53
    case 'A' => 54 case 'x' => 55 case 'y' => 56 case 'z' => 57
    case _ => 58
  }

  lemma DigitOfChar(digit: nat)
    requires digit < 58
    ensures DigitOf(CharOf(digit)) == digit
  {
    if digit < 20 {
      DigitOfCharBelow20(digit);
    } else if digit < 40 {
      DigitOfCharBelow40(digit);
    } else if digit < 50 {
      DigitOfCharBelow50(digit);
    } else {
      DigitOfCharFrom50(digit);
    }
  }

  lemma DigitOfCharBelow20(digit: nat)
    requires digit < 20
    ensures DigitOf(CharOf(digit)) == digit
  {
    if digit < 10 {
    } else {
    }
  }

  lemma DigitOfCharBelow40(digit: nat)
    requires 20 <= digit < 40
    ensures DigitOf(CharOf(digit)) == digit
  {
    if digit < 30 {
    } else {
    }
  }

  lemma DigitOfCharBelow50(digit: nat)
    requires 40 <= digit < 50
    ensures DigitOf(CharOf(digit)) == digit
  {
  }

  lemma DigitOfCharFrom50(digit: nat)
    requires 50 <= digit < 58
    ensures DigitOf(CharOf(digit)) == digit
  {
  }

  lemma CharOfDigit(c: char)
    requires DigitOf(c) < 58
    ensures CharOf(DigitOf(c)) == c
  {
  }

  // ---------- What the encoder promises ----------

  function Zeros(count: nat): (zeros: seq<nat>)
    ensures |zeros| == count && forall i :: 0 <= i < count ==> zeros[i] == 0
  {
    seq(count, _ => 0)
  }

  /** Rewrites a numeral from one base to another, keeping one leading zero
      for every leading zero of the input. */
  function Convert(from: nat, to: nat, digits: seq<nat>): seq<nat>
    requires to >= 2
  {
    Zeros(LeadingZeros(digits)) + Digits(to, Value(from, digits))
  }

  lemma ConvertYieldsDigits(from: nat, to: nat, digits: seq<nat>)
    requires to >= 2
    ensures AreDigits(to, Convert(from, to, digits))
  {
    ValueOfDigits(to, Value(from, digits));
  }

  function Text(digits: seq<nat>): (text: string)
    requires AreDigits(58, digits)
    ensures |text| == |digits|
  {
    seq(|digits|, i requires 0 <= i < |digits| => CharOf(digits[i]))
  }

  function DigitsOf(text: string): (digits: seq<nat>)
    ensures |digits| == |text|
  {
    seq(|text|, i requires 0 <= i < |text| => DigitOf(text[i]))
  }

  function Encode(bytes: seq<byte>): (text: string)
    ensures |text| == |Convert(256, 58, bytes)|
  {
    ConvertYieldsDigits(256, 58, bytes);
    Text(Convert(256, 58, bytes))
  }

  /** The alphabet of the XRP Ledger in order. */
  const ALPHABET := "rpshnaf39w" + "BUDNEGHJKL" + "M4PQRST7VW" + "XYZ2bcdeCg" + "65jkm8oFqi" + "1tuvAxyz"

  lemma AlphabetBelow20(digit: nat)
    requires digit < 20
    ensures |ALPHABET| == 58 && CharOf(digit) == ALPHABET[digit]
  {
    if digit < 5 {
    } else if digit < 10 {
    } else if digit < 15 {
    } else {
    }
  }

  lemma AlphabetBelow40(digit: nat)
    requires 20 <= digit < 40
    ensures |ALPHABET| == 58 && CharOf(digit) == ALPHABET[digit]
  {
    if digit < 25 {
    } else if digit < 30 {
    } else if digit < 35 {
    } else {
    }
  }

  lemma AlphabetFrom40(digit: nat)
    requires 40 <= digit < 58
    ensures |ALPHABET| == 58 && CharOf(digit) == ALPHABET[digit]
  {
    if digit < 45 {
    } else if digit < 50 {
    } else if digit < 54 {
    } else {
    }
  }

  /** The text of any bytes is written in that alphabet, and denotes the same number in
      base 58 as the bytes in base 256. */
  lemma TextDenotesBytes(bytes: seq<byte>, digits: seq<nat>)
    requires |digits| == |Encode(bytes)| && forall i :: 0 <= i < |digits| ==> digits[i] < 58
    requires forall i :: 0 <= i < |digits| ==> Encode(bytes)[i] == ALPHABET[digits[i]]
    ensures Value(58, digits) == Value(256, bytes)
  {
    ConvertKeepsValue(256, 58, bytes);
    var own := Convert(256, 58, bytes);
    forall i | 0 <= i < |digits| ensures digits[i] == own[i] {
      SameLetter(digits[i], own[i]);
    }
    assert digits == own;
  }

  lemma ConvertKeepsValue(from: nat, to: nat, digits: seq<nat>)
    requires to >= 2
    ensures AreDigits(to, Convert(from, to, digits)) && Value(to, Convert(from, to, digits)) == Value(from, digits)
  {
    ValueOfDigits(to, Value(from, digits));
    PaddedNumeral(to, LeadingZeros(digits), Digits(to, Value(from, digits)));
  }

  lemma LetterOf(digit: nat)
    requires digit < 58
    ensures |ALPHABET| == 58 && CharOf(digit) == ALPHABET[digit]
  {
    if digit < 20 {
      AlphabetBelow20(digit);
    } else if digit < 40 {
      AlphabetBelow40(digit);
    } else {
      AlphabetFrom40(digit);
    }
  }

  lemma SameLetter(digit: nat, own: nat)
    requires digit < 58 && own < 58 && |ALPHABET| == 58 && ALPHABET[digit] == CharOf(own)
    ensures digit == own
  {
    hide CharOf, DigitOf;
    LetterOf(digit);
    DigitOfChar(digit);
    DigitOfChar(own);
  }

  /** Leading 'r's are zero bytes; the remaining characters are one base-58
      numeral whose value is written in base 256. */
  function Decode(text: string): seq<nat> {
    Convert(58, 256, DigitsOf(text))
  }

  ghost predicate IsBase58(text: string) {
    forall i :: 0 <= i < |text| ==> DigitOf(text[i]) < 58
  }

  lemma {:induction false} LeadingZerosOfPadded(zeros: nat, digits: seq<nat>)
    requires IsShortest(digits)
    ensures LeadingZeros(Zeros(zeros) + digits) == zeros
  {
    var padded := Zeros(zeros) + digits;
    assert forall i :: 0 <= i < zeros ==> padded[i] == 0;
    assert zeros < |padded| ==> padded[zeros] == digits[0];
  }

  lemma ConvertRoundTrip(from: nat, to: nat, digits: seq<nat>)
    requires from >= 2 && to >= 2 && AreDigits(from, digits)
    ensures Convert(to, from, Convert(from, to, digits)) == digits
  {
    var zeros, value := LeadingZeros(digits), Value(from, digits);
    var numeral := Digits(to, value);
    ValueOfDigits(to, value);
    PaddedNumeral(to, zeros, numeral);
    assert Convert(from, to, digits) == Zeros(zeros) + numeral;
    NumeralOfPadded(from, digits);
  }

  lemma NumeralOfPadded(base: nat, digits: seq<nat>)
    requires base >= 2 && AreDigits(base, digits)
    ensures Zeros(LeadingZeros(digits)) + Digits(base, Value(base, digits)) == digits
  {
    hide Value, Digits;
    var zeros := LeadingZeros(digits);
    SkipLeadingZeros(base, digits);
    DigitsOfValue(base, digits[zeros..]);
    assert digits == Zeros(zeros) + digits[zeros..];
  }

  lemma PaddedNumeral(base: nat, zeros: nat, numeral: seq<nat>)
    requires IsShortest(numeral)
    ensures LeadingZeros(Zeros(zeros) + numeral) == zeros
    ensures Value(base, Zeros(zeros) + numeral) == Value(base, numeral)
  {
    hide Value;
    LeadingZerosOfPadded(zeros, numeral);
    SkipLeadingZeros(base, Zeros(zeros) + numeral);
    assert (Zeros(zeros) + numeral)[zeros..] == numeral;
  }

  /** The decoder undoes the encoder on every byte string. */
  lemma DecodeEncode(bytes: seq<byte>)
    ensures Decode(Encode(bytes)) == bytes
  {
    ConvertYieldsDigits(256, 58, bytes);
    var digits := Convert(256, 58, bytes);
    forall i | 0 <= i < |digits| ensures DigitOf(Encode(bytes)[i]) == digits[i] {
      DigitOfChar(digits[i]);
    }
    assert DigitsOf(Encode(bytes)) == digits;
    var plain: seq<nat> := bytes;
    ConvertRoundTrip(256, 58, plain);
  }

  /** Different byte strings have different texts. */
  lemma EncodeInjective(left: seq<byte>, right: seq<byte>)
    requires Encode(left) == Encode(right)
    ensures left == right
  {
    DecodeEncode(left);
    DecodeEncode(right);
  }

  /** Every text over the alphabet is the encoding of exactly what it decodes to. */
  lemma EncodeDecode(text: string)
    requires IsBase58(text)
    ensures AreDigits(256, Decode(text))
    ensures Encode(Decode(text)) == text
  {
    var digits := DigitsOf(text);
    ConvertYieldsDigits(58, 256, digits);
    ConvertRoundTrip(58, 256, digits);
    forall i | 0 <= i < |text| ensures CharOf(digits[i]) == text[i] {
      CharOfDigit(text[i]);
    }
  }

  /** The text carries one 'r' for every leading zero byte and no other
      redundant leading digit. */
  lemma EncodeLeadingZeros(bytes: seq<byte>)
    ensures var zeros := LeadingZeros(bytes);
      && zeros <= |Encode(bytes)|
      && (forall i :: 0 <= i < zeros ==> Encode(bytes)[i] == 'r')
      && (zeros < |Encode(bytes)| ==> Encode(bytes)[zeros] != 'r')
  {
    ConvertYieldsDigits(256, 58, bytes);
    var digits := Digits(58, Value(256, bytes));
    ValueOfDigits(58, Value(256, bytes));
    if digits != [] {
      DigitOfChar(digits[0]);
    }
  }

  // ---------- Why the digit estimate suffices ----------

  /** 58^(floor(1.38 n) + 1) exceeds 256^n, because 58^11 exceeds 256^8. */
  lemma EstimateSuffices(n: nat)
    ensures Pow(256, n) < Pow(58, n * 138 / 100 + 1)
  {
    var size := n * 138 / 100 + 1;
    assert 11 * n < 8 * size;
    if n == 0 {
      PowMonotone(58, 0, 1);
      assert Pow(58, 1) == 58;
    } else {
      SmallPowers();
      PowBaseMonotone(Pow(256, 8), Pow(58, 11), n);
      PowMul(256, 8, n);
      PowMul(58, 11, n);
      PowMonotone(58, 11 * n, 8 * size);
      PowMul(256, n, 8);
      PowMul(58, size, 8);
      assert size * 8 == 8 * size && n * 8 == 8 * n;
      if Pow(58, size) <= Pow(256, n) {
        PowWeaklyMonotone(Pow(58, size), Pow(256, n), 8);
      }
    }
  }

  lemma SmallPowers()
    ensures Pow(256, 8) < Pow(58, 11)
  {
    assert Pow(256, 4) == 0x1_0000_0000;
    PowAdd(256, 4, 4);
    assert Pow(58, 4) == 11316496;
    PowAdd(58, 4, 4);
    assert Pow(58, 3) == 195112;
    PowAdd(58, 8, 3);
  }

  lemma PowWeaklyMonotone(a: nat, b: nat, n: nat)
    requires a <= b && n >= 1
    ensures Pow(a, n) <= Pow(b, n)
  {
    if a < b {
      PowBaseMonotone(a, b, n);
    }
  }

  // ---------- The in-place conversion ----------

  /** One pass of the inner loop over the positions `0..|digits|`, right to left:
      multiplies by 256, adds `carry`, and stops at the first position left of
      `stopAt` that produces no carry.  Returns the digits and where it stopped. */
  function Sweep(digits: seq<nat>, carry: nat, stopAt: int): (result: (seq<nat>, int))
    ensures |result.0| == |digits|
  {
    if digits == [] then ([], -1)
    else
      var j := |digits| - 1;
      var sum := carry + 256 * digits[j];
      if j <= stopAt - 1 && sum / 58 == 0 then (digits[..j] + [sum % 58], j)
      else var rest := Sweep(digits[..j], sum / 58, stopAt); (rest.0 + [sum % 58], rest.1)
  }

  /** If the result has room, the sweep multiplies by 256 and adds `carry` exactly:
      the early exit loses nothing. */
  lemma {:induction false} SweepIsExact(digits: seq<nat>, carry: nat, stopAt: nat)
    requires 1 <= stopAt
    requires forall i :: 0 <= i < stopAt && i < |digits| ==> digits[i] == 0
    requires 256 * Value(58, digits) + carry < Pow(58, |digits|)
    ensures Value(58, Sweep(digits, carry, stopAt).0) == 256 * Value(58, digits) + carry
  {
    if digits == [] {
      assert Value(58, digits) == 0 && Pow(58, 0) == 1;
    } else {
      hide Value, Pow, Sweep;
      CarryAtLast(digits, carry);
      SweepLast(digits, carry, stopAt);
      var j := |digits| - 1;
      var init, quotient, remainder := digits[..j], (carry + 256 * digits[j]) / 58, (carry + 256 * digits[j]) % 58;
      if j <= stopAt - 1 && quotient == 0 {
        ValueZeros(58, init);
        ValueSnoc(init, remainder);
      } else {
        SweepIsExact(init, quotient, stopAt);
        ValueSnoc(Sweep(init, quotient, stopAt).0, remainder);
      }
    }
  }

  lemma SweepLast(digits: seq<nat>, carry: nat, stopAt: int)
    requires digits != []
    ensures var j := |digits| - 1;
      var quotient, remainder := (carry + 256 * digits[j]) / 58, (carry + 256 * digits[j]) % 58;
      Sweep(digits, carry, stopAt).0
      == (if j <= stopAt - 1 && quotient == 0 then digits[..j] else Sweep(digits[..j], quotient, stopAt).0)
         + [remainder]
  {
  }

  /** The last digit leaves `sum % 58` and carries `sum / 58`; the rest has room for it. */
  lemma CarryAtLast(digits: seq<nat>, carry: nat)
    requires digits != [] && 256 * Value(58, digits) + carry < Pow(58, |digits|)
    ensures var j := |digits| - 1;
      var sum := carry + 256 * digits[j];
      && 256 * Value(58, digits[..j]) + sum / 58 < Pow(58, j)
      && (256 * Value(58, digits[..j]) + sum / 58) * 58 + sum % 58 == 256 * Value(58, digits) + carry
  {
    hide Value, Pow;
    var j := |digits| - 1;
    assert digits == digits[..j] + [digits[j]];
    ValueSnoc(digits[..j], digits[j]);
    PowStep(j);
    CarryFits(Value(58, digits[..j]), digits[j], carry, Pow(58, j));
    CarryOut(Value(58, digits[..j]), digits[j], carry);
  }

  lemma CarryOut(init: nat, digit: nat, carry: nat)
    ensures var sum := carry + 256 * digit;
      (256 * init + sum / 58) * 58 + sum % 58 == 256 * (init * 58 + digit) + carry
  {
  }

  lemma {:induction false} SweepYieldsDigits(digits: seq<nat>, carry: nat, stopAt: nat)
    requires AreDigits(58, digits)
    ensures AreDigits(58, Sweep(digits, carry, stopAt).0)
  {
    if digits != [] {
      SweepYieldsDigits(digits[..|digits| - 1], (carry + 256 * digits[|digits| - 1]) / 58, stopAt);
    }
  }

  lemma PowStep(n: nat)
    ensures Pow(58, n + 1) == 58 * Pow(58, n)
  {
  }

  lemma ValueSnoc(init: seq<nat>, last: nat)
    ensures Value(58, init + [last]) == Value(58, init) * 58 + last
  {
    assert (init + [last])[..|init|] == init;
  }

  lemma NothingFits(digits: seq<nat>)
    ensures digits == [] ==> Value(58, digits) == 0 && Pow(58, |digits|) == 1
  {
  }

  lemma CarryFits(init: nat, digit: nat, carry: nat, room: nat)
    requires 256 * (init * 58 + digit) + carry < 58 * room
    ensures 256 * init + (carry + 256 * digit) / 58 < room
  {
  }

  /** The early exit moves left by one position, or by two when a nonzero digit
      needs the second; it never runs off the left end. */
  lemma {:induction false} SweepStops(digits: seq<nat>, carry: nat, stopAt: nat)
    requires 1 <= stopAt <= |digits| + 1 && digits != [] && AreDigits(58, digits)
    requires forall i :: 0 <= i < stopAt && i < |digits| ==> digits[i] == 0
    requires 256 * Value(58, digits) + carry < Pow(58, |digits|)
    requires carry < 256 && (stopAt == |digits| + 1 ==> 0 < carry < 58)
    ensures var (result, stop) := Sweep(digits, carry, stopAt);
      && 0 <= stop < |digits| && stopAt - 2 <= stop < stopAt
      && (forall i :: 0 <= i < stop ==> result[i] == 0)
      && (stop == stopAt - 2 ==> result[stop] != 0)
  {
    hide Value, Pow;
    var j := |digits| - 1;
    var init, sum := digits[..j], carry + 256 * digits[j];
    assert digits == init + [digits[j]];
    ValueSnoc(init, digits[j]);
    PowStep(j);
    if !(j <= stopAt - 1 && sum / 58 == 0) {
      NothingFits(init);
      CarryFits(Value(58, init), digits[j], carry, Pow(58, j));
      SweepStops(init, sum / 58, stopAt);
      assert Sweep(digits, carry, stopAt).0[..j] == Sweep(init, sum / 58, stopAt).0;
    }
  }

  /** The `length` rightmost positions are the ones in use after `count` bytes. */
  ghost predicate Reach(length: nat, count: nat) {
    length == 1 || (length >= 1 && count >= 1 && Pow(58, length - 1) < Pow(256, count))
  }

  lemma ReachGrowsByOne(length: nat, count: nat)
    requires Reach(length, count)
    ensures Reach(length + 1, count + 1)
  {
    if length > 1 {
      MulStrict(Pow(58, length - 1), Pow(256, count), 58);
      MulMonotone(58, 256, Pow(256, count));
    } else {
      PowMonotone(256, 1, count + 1);
      assert Pow(58, 1) == 58 && Pow(256, 1) == 256;
    }
  }

  /** So the digits in use always fit the estimate for all `n` bytes, and before
      the last byte at least one position is still free. */
  lemma ReachFits(length: nat, count: nat, n: nat)
    requires Reach(length, count) && count <= n && n >= 1
    ensures length <= n * 138 / 100 + 1
    ensures count < n ==> length < n * 138 / 100 + 1
  {
    var size := n * 138 / 100 + 1;
    EstimateSuffices(n);
    PowMonotone(256, count, n);
    if length > size {
      PowMonotone(58, size, length - 1);
    }
    MulMonotone(58, 256, Pow(256, count));
    if count < n && length >= size && length > 1 {
      PowMonotone(256, count + 1, n);
      MulStrict(Pow(58, length - 1), Pow(256, count), 58);
      PowMonotone(58, size, length);
    }
  }

  /** The state after `count` of the `n` significant bytes, of value `value`. */
  ghost predicate Converting(digits: seq<nat>, stopAt: int, value: nat, count: nat, n: nat) {
    && |digits| == n * 138 / 100 + 1 && count <= n
    && AreDigits(58, digits) && Value(58, digits) == value < Pow(256, count)
    && 0 <= stopAt < |digits| && Reach(|digits| - stopAt, count)
    && (forall i :: 0 <= i < stopAt ==> digits[i] == 0)
  }

  lemma RoomForNext(digits: seq<nat>, value: nat, count: nat, n: nat, input: byte)
    requires |digits| == n * 138 / 100 + 1 && count < n && value < Pow(256, count)
    ensures 256 * value + input < Pow(256, count + 1) < Pow(58, |digits|)
  {
    EstimateSuffices(n);
    PowMonotone(256, count + 1, n);
    MulMonotone(value + 1, Pow(256, count), 256);
  }

  lemma ReachAfter(result: seq<nat>, stop: nat, stopAt: nat, count: nat)
    requires stopAt < |result| && Reach(|result| - stopAt, count)
    requires stop == stopAt - 1 || (stop == stopAt - 2 && result[stop] != 0)
    requires (forall i :: 0 <= i < stop ==> result[i] == 0) && Value(58, result) < Pow(256, count + 1)
    ensures Reach(|result| - stop, count + 1)
  {
    if stop == stopAt - 1 {
      ReachGrowsByOne(|result| - stopAt, count);
    } else {
      ValueAtLeastPow(58, result[stop..]);
      DropZeros(result, stop);
    }
  }

  lemma DropZeros(digits: seq<nat>, zeros: nat)
    requires zeros <= |digits| && forall i :: 0 <= i < zeros ==> digits[i] == 0
    ensures Value(58, digits[zeros..]) == Value(58, digits)
  {
    ValueZeros(58, digits[..zeros]);
    assert digits == digits[..zeros] + digits[zeros..];
    ValueAppend(58, digits[..zeros], digits[zeros..]);
  }

  lemma SweepConverts(digits: seq<nat>, stopAt: int, value: nat, count: nat, n: nat, input: byte)
    requires Converting(digits, stopAt, value, count, n) && count < n
    ensures 1 <= stopAt
    ensures Converting(Sweep(digits, input, stopAt).0, Sweep(digits, input, stopAt).1, value * 256 + input,
        count + 1, n)
  {
    ReachFits(|digits| - stopAt, count, n);
    RoomForNext(digits, value, count, n, input);
    SweepIsExact(digits, input, stopAt);
    SweepYieldsDigits(digits, input, stopAt);
    SweepStops(digits, input, stopAt);
    ReachAfter(Sweep(digits, input, stopAt).0, Sweep(digits, input, stopAt).1, stopAt, count);
  }

  lemma NothingToSweep(stopAt: int)
    ensures forall carry: nat :: Sweep([], carry, stopAt) == ([], -1)
  {
  }

  lemma SweepAt(digits: seq<nat>, j: nat, carry: nat, stopAt: int)
    requires j < |digits|
    ensures var sum := carry + 256 * digits[j];
      if j <= stopAt - 1 && sum / 58 == 0 then
        Sweep(digits[..j + 1], carry, stopAt).0 == digits[..j] + [sum % 58]
            && Sweep(digits[..j + 1], carry, stopAt).1 == j
      else
        Sweep(digits[..j + 1], carry, stopAt).0 == Sweep(digits[..j], sum / 58, stopAt).0 + [sum % 58] &&
        Sweep(digits[..j + 1], carry, stopAt).1 == Sweep(digits[..j], sum / 58, stopAt).1
  {
    assert digits[..j + 1][..j] == digits[..j];
  }

  /** The inner loop. */
  method SweepInPlace(buffer: array<nat>, size: nat, input: byte, stopAt: int) returns (stop: int)
    requires size <= buffer.Length
    modifies buffer
    ensures buffer[..size] == Sweep(old(buffer[..size]), input, stopAt).0
    ensures stop == Sweep(old(buffer[..size]), input, stopAt).1
    ensures buffer[size..] == old(buffer[size..])
  {
    hide Sweep;
    var carry: nat := input;
    ghost var before, done: seq<nat> := buffer[..size], [];
    assert before[..size] == before;
    NothingToSweep(stopAt);
    var j := size - 1;
    while j >= 0
      invariant -1 <= j < size
      invariant buffer[..size] == before[..j + 1] + done
      invariant buffer[size..] == old(buffer[size..])
      invariant Sweep(before, input, stopAt).0 == Sweep(before[..j + 1], carry, stopAt).0 + done
      invariant Sweep(before, input, stopAt).1 == Sweep(before[..j + 1], carry, stopAt).1
    {
      SweepAt(before, j, carry, stopAt);
      assert buffer[j] == before[j];
      carry := carry + 256 * buffer[j];
      buffer[j] := carry % 58;
      carry := carry / 58;
      done := [buffer[j]] + done;
      assert buffer[..size] == before[..j] + done;
      if j <= stopAt - 1 && carry == 0 {
        break;
      }
      j := j - 1;
    }
    stop := j;
  }

  /** The text is read off the converted digits, from the first nonzero one on. */
  lemma TextOf(input: seq<byte>, zeroCount: nat, digits: seq<nat>, first: nat)
    requires zeroCount == LeadingZeros(input) && first <= |digits|
    requires AreDigits(58, digits) && Value(58, digits) == Value(256, input[zeroCount..])
    requires forall i :: 0 <= i < first ==> digits[i] == 0
    requires first < |digits| ==> digits[first] != 0
    ensures AreDigits(58, Zeros(zeroCount) + digits[first..])
    ensures Encode(input) == Text(Zeros(zeroCount) + digits[first..])
  {
    var plain: seq<nat> := input;
    SkipLeadingZeros(256, plain);
    DropZeros(digits, first);
    DigitsOfValue(58, digits[first..]);
    assert Convert(256, 58, plain) == Zeros(zeroCount) + digits[first..];
  }

  lemma ConvertingStarts(digits: seq<nat>, n: nat)
    requires |digits| == n * 138 / 100 + 1
    requires forall i :: 0 <= i < |digits| ==> digits[i] == 0
    ensures Converting(digits, |digits| - 1, 0, 0, n)
  {
    ValueZeros(58, digits);
  }

  /** The outer loop: converts `bytes` in the zero-filled buffer. */
  method ConvertInPlace(bytes: seq<byte>, buffer: array<nat>) returns (size: nat)
    requires |bytes| * 138 / 100 + 1 <= buffer.Length
    requires forall i :: 0 <= i < buffer.Length ==> buffer[i] == 0
    modifies buffer
    ensures size == |bytes| * 138 / 100 + 1
    ensures AreDigits(58, buffer[..size]) && Value(58, buffer[..size]) == Value(256, bytes)
  {
    size := |bytes| * 138 / 100 + 1;
    var stopAt: int := size - 1;
    ConvertingStarts(buffer[..size], |bytes|);
    var next := 0;
    ghost var digits: seq<nat> := buffer[..size];
    ghost var value: nat := 0;
    assert value == Value(256, bytes[..0]);
    hide Value, Sweep, Pow, Reach;
    while next < |bytes|
      invariant next <= |bytes| && digits == buffer[..size] && value == Value(256, bytes[..next])
      invariant Converting(digits, stopAt, value, next, |bytes|)
    {
      SweepConverts(digits, stopAt, value, next, |bytes|, bytes[next]);
      ValueOfNext(bytes, next);
      digits, value := Sweep(digits, bytes[next], stopAt).0, value * 256 + bytes[next];
      stopAt := SweepInPlace(buffer, size, bytes[next], stopAt);
      next := next + 1;
    }
    assert bytes[..next] == bytes;
  }

  lemma ValueOfNext(bytes: seq<byte>, next: nat)
    requires next < |bytes|
    ensures Value(256, bytes[..next + 1]) == Value(256, bytes[..next]) * 256 + bytes[next]
  {
    assert bytes[..next + 1][..next] == bytes[..next];
  }

  /** The copying loops: `zeroCount` characters 'r', then the digits from the
      first nonzero one on. */
  method WriteText(buffer: array<nat>, size: nat, zeroCount: nat, out: array<char>)
    returns (length: nat, ghost first: nat)
    requires size <= buffer.Length && zeroCount + size <= out.Length
    requires AreDigits(58, buffer[..size])
    modifies out
    ensures first <= size && (forall i :: 0 <= i < first ==> buffer[i] == 0)
    ensures first < size ==> buffer[first] != 0
    ensures length == zeroCount + size - first
    ensures out[..zeroCount] == Text(Zeros(zeroCount))
    ensures out[zeroCount..length] == Text(buffer[first..size])
    ensures out[length..] == old(out[length..])
  {
    var j := 0;
    while j < size && buffer[j] == 0
      invariant j <= size
      invariant forall i :: 0 <= i < j ==> buffer[i] == 0
    {
      j := j + 1;
    }
    first := j;
    forall i | 0 <= i < zeroCount {
      out[i] := CharOf(0);
    }
    length := zeroCount;
    assert forall i :: 0 <= i < size ==> buffer[i] == buffer[..size][i] < 58;
    while j < size
      invariant first <= j <= size && length == zeroCount + j - first
      invariant forall i :: 0 <= i < zeroCount ==> out[i] == CharOf(0)
      invariant forall k :: zeroCount <= k < length ==> out[k] == CharOf(buffer[k - zeroCount + first])
      invariant forall k :: length <= k < out.Length ==> out[k] == old(out[k])
    {
      out[length] := CharOf(buffer[j]);
      length, j := length + 1, j + 1;
    }
    forall k | 0 <= k < size - first ensures out[zeroCount..length][k] == Text(buffer[first..size])[k] {
      assert out[zeroCount..length][k] == out[zeroCount + k] && buffer[first..size][k] == buffer[first + k];
    }
  }

  /** `xrp_encode_base58_address`: writes the text of `input` at the start of `out`. */
  method EncodeAddress(input: seq<byte>, out: array<char>) returns (length: nat)
    requires |input| <= MAX_INPUT && out.Length == ADDRESS_SIZE
    modifies out
    ensures length == |Encode(input)| < ADDRESS_SIZE
    ensures out[..length] == Encode(input) && out[length..] == old(out[length..])
  {
    var buffer := new nat[BUFFER_SIZE](_ => 0);
    var zeroCount := 0;
    while zeroCount < |input| && input[zeroCount] == 0
      invariant zeroCount <= |input|
      invariant forall i :: 0 <= i < zeroCount ==> input[i] == 0
    {
      zeroCount := zeroCount + 1;
    }
    var size := ConvertInPlace(input[zeroCount..], buffer);
    ghost var first;
    length, first := WriteText(buffer, size, zeroCount, out);
    TextOf(input, zeroCount, buffer[..size], first);
    assert buffer[..size][first..] == buffer[first..size];
    assert out[..length] == out[..zeroCount] + out[zeroCount..length];
    TextConcat(Zeros(zeroCount), buffer[first..size]);
  }

  lemma TextConcat(left: seq<nat>, right: seq<nat>)
    requires AreDigits(58, left) && AreDigits(58, right)
    ensures AreDigits(58, left + right) && Text(left + right) == Text(left) + Text(right)
  {
  }
}
