/** Printing an unsigned 64-bit number (src/xrp/amount.c, src/xrp/xrp_helpers.c). */
module PrintNumber {
  import opened Numerals
  import opened Decimal
  import opened CString


  lemma {:induction false} NumeralAt(n: nat, i: nat)
    requires i < |Numeral(n)|
    ensures Numeral(n)[i] == DigitChar(n / Pow(10, |Numeral(n)| - 1 - i) % 10)
  {
    if i < |Numeral(n)| - 1 {
      NumeralAt(n / 10, i);
      DivideTwice(n, Pow(10, |Numeral(n)| - 2 - i));
    } else {
      assert Pow(10, 0) == 1;
    }
  }

  lemma DivideTwice(n: nat, power: nat)
    requires power > 0
    ensures n / 10 / power == n / (10 * power)
  {
    var q, r := n / 10 / power, n / 10 % power;
    var s := n % 10;
    assert n == 10 * (q * power + r) + s;
    assert 10 * (q * power) == q * (10 * power);
    QuotientAndRemainder(10 * power, q, 10 * r + s);
  }

  lemma DigitsBelowTenToThe19(value: nat, count: nat)
    requires value < Pow(10, 19)
    requires count == 0 || Pow(10, count - 1) <= value
    ensures count <= 19 && Pow(10, count) < TWO_64
  {
    TenToThe19();
    hide Pow;
    if count > 19 {
      PowMonotone(10, 19, count - 1);
    }
    PowMonotone(10, count, 19);
  }

  lemma TenToThe19()
    ensures Pow(10, 19) == 10_000_000_000_000_000_000 < TWO_64
  {
    assert Pow(10, 5) == 100_000;
    PowAdd(10, 5, 5);
    PowAdd(10, 5, 4);
    assert Pow(10, 4) == 10_000;
    PowAdd(10, 10, 9);
  }

  /** The counting loop has stopped: `count` digits are exactly enough. */
  lemma CountIsLength(value: nat, count: nat)
    requires value < Pow(10, count) && (count == 0 || Pow(10, count - 1) <= value)
    ensures |Numeral(value)| == count
  {
    NumeralLength(value, count);
    if count > 0 {
      NumeralLength(value, count - 1);
    }
  }

  /** The printing loop: the `count` digits of `value`, most significant first. */
  method PrintDigits(dst: array<char>, start: nat, count: nat, power: nat, value: nat)
    requires start + count <= dst.Length && count == |Numeral(value)| && power == Pow(10, count)
    modifies dst
    ensures Written(dst[..], old(dst[..]), start, Numeral(value))
  {
    var base := power / 10;
    var i := 0;
    while i < count
      invariant i <= count
      invariant base == if i < count then Pow(10, count - 1 - i) else 0
      invariant Written(dst[..], old(dst[..]), start, Numeral(value)[..i])
    {
      NumeralAt(value, i);
      dst[start + i] := DigitChar(value / base % 10);
      base := base / 10;
      i := i + 1;
    }
    assert Numeral(value)[..i] == Numeral(value);
  }

  lemma Terminated(buffer: seq<char>, before: seq<char>, start: nat, text: string)
    requires Written(buffer, before, start, text) && start + |text| < |buffer|
    ensures Written(buffer[start + |text| := '\0'], before, start, text + "\0")
  {
  }

  lemma TenTimes(n: nat)
    requires Pow(10, n + 1) < TWO_64
    ensures Pow(10, n + 1) == Pow(10, n) * 10 == Pow(10, n) * 10 % TWO_64
  {
  }

  /** How many digits, and the power of ten above them; neither overflows. */
  method NumeralSize(value: nat) returns (numDigits: nat, base: nat)
    requires value < Pow(10, 19)
    ensures numDigits == |Numeral(value)| && base == Pow(10, numDigits)
  {
    assert Pow(10, 0) == 1;
    hide Numeral, Pow;
    numDigits, base := 0, 1;
    while base <= value
      invariant base == Pow(10, numDigits)
      invariant numDigits == 0 || Pow(10, numDigits - 1) <= value
      decreases value - base + 1
    {
      DigitsBelowTenToThe19(value, numDigits + 1);
      TenTimes(numDigits);
      base := base * 10 % TWO_64;
      numDigits := numDigits + 1;
    }
    CountIsLength(value, numDigits);
  }

  /** `print_uint64_t`: fails, writing nothing, exactly when the numeral and its
      terminator do not fit. */
  method PrintUint64(dst: array<char>, start: nat, len: nat, value: nat) returns (status: int)
    requires 1 <= len && start + len <= dst.Length
    requires value < Pow(10, 19)
    modifies dst
    ensures status == if |Numeral(value)| <= len - 1 then 0 else -1
    ensures status == 0 ==> Written(dst[..], old(dst[..]), start, Numeral(value) + "\0")
    ensures status == -1 ==> dst[..] == old(dst[..])
  {
    hide Numeral, Written, Pow;
    var numDigits, base := NumeralSize(value);
    if numDigits > len - 1 {
      return -1;
    }
    PrintDigits(dst, start, numDigits, base, value);
    ghost var printed := dst[..];
    dst[start + numDigits] := '\0';
    assert dst[..] == printed[start + numDigits := '\0'];
    Terminated(printed, old(dst[..]), start, Numeral(value));
    return 0;
  }
}
