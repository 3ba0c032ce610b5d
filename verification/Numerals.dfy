/** Positional numerals: the common ground of the base-58 encoder and of every
    decimal renderer.  Digits are written most significant first. */
module Numerals {

  const TWO_32: nat := 0x1_0000_0000
  const TWO_62: nat := 0x4000_0000_0000_0000
  const TWO_63: nat := 0x8000_0000_0000_0000
  const TWO_64: nat := 0x1_0000_0000_0000_0000

  function Pow(base: nat, exponent: nat): (power: nat)
    ensures base > 0 ==> power > 0
  {
    if exponent == 0 then 1 else base * Pow(base, exponent - 1)
  }

  function Value(base: nat, digits: seq<nat>): nat {
    if digits == [] then 0
    else Value(base, digits[..|digits| - 1]) * base + digits[|digits| - 1]
  }

  /** The shortest numeral of `n`; zero has the empty numeral. */
  function Digits(base: nat, n: nat): (digits: seq<nat>)
    requires base >= 2
    ensures n == 0 <==> digits == []
  {
    if n == 0 then [] else Digits(base, n / base) + [n % base]
  }

  ghost predicate AreDigits(base: nat, digits: seq<nat>) {
    forall i :: 0 <= i < |digits| ==> digits[i] < base
  }

  ghost predicate IsShortest(digits: seq<nat>) {
    digits == [] || digits[0] != 0
  }

  function LeadingZeros(digits: seq<nat>): (zeros: nat)
    ensures zeros <= |digits|
    ensures forall i :: 0 <= i < zeros ==> digits[i] == 0
    ensures zeros < |digits| ==> digits[zeros] != 0
  {
    if digits == [] || digits[0] != 0 then 0 else 1 + LeadingZeros(digits[1..])
  }

  lemma MulMonotone(x: nat, y: nat, factor: nat)
    requires x <= y
    ensures x * factor <= y * factor && factor * x <= factor * y
  {
  }

  lemma MulStrict(x: nat, y: nat, factor: nat)
    requires x < y && factor >= 1
    ensures x * factor < y * factor
  {
  }

  lemma {:induction false} PowAdd(base: nat, m: nat, n: nat)
    ensures Pow(base, m + n) == Pow(base, m) * Pow(base, n)
  {
    if m != 0 {
      PowAdd(base, m - 1, n);
      assert base * (Pow(base, m - 1) * Pow(base, n)) == (base * Pow(base, m - 1)) * Pow(base, n);
    }
  }

  lemma {:induction false} PowMul(base: nat, m: nat, n: nat)
    ensures Pow(Pow(base, m), n) == Pow(base, m * n)
  {
    if n == 0 {
      assert m * n == 0;
    } else {
      PowMul(base, m, n - 1);
      PowAdd(base, m, m * (n - 1));
      assert m + m * (n - 1) == m * n;
    }
  }

  lemma {:induction false} PowMonotone(base: nat, m: nat, n: nat)
    requires base >= 1 && m <= n
    ensures Pow(base, m) <= Pow(base, n)
  {
    if m < n {
      PowMonotone(base, m, n - 1);
      assert Pow(base, n - 1) <= base * Pow(base, n - 1);
    }
  }

  lemma {:induction false} PowBaseMonotone(a: nat, b: nat, n: nat)
    requires a < b && n >= 1
    ensures Pow(a, n) < Pow(b, n)
  {
    if n > 1 {
      PowBaseMonotone(a, b, n - 1);
      MulMonotone(Pow(a, n - 1), Pow(b, n - 1), a);
      MulStrict(a, b, Pow(b, n - 1));
    } else {
      assert Pow(a, 1) == a && Pow(b, 1) == b;
    }
  }

  lemma {:induction false} ValueAppend(base: nat, left: seq<nat>, right: seq<nat>)
    ensures Value(base, left + right) == Value(base, left) * Pow(base, |right|) + Value(base, right)
  {
    if right == [] {
      assert left + right == left;
    } else {
      var init, last := right[..|right| - 1], right[|right| - 1];
      assert (left + right)[..|left + right| - 1] == left + init;
      ValueAppend(base, left, init);
      assert (Value(base, left) * Pow(base, |init|) + Value(base, init)) * base
          == Value(base, left) * (base * Pow(base, |init|)) + Value(base, init) * base;
    }
  }

  lemma {:induction false} ValueCons(base: nat, digit: nat, rest: seq<nat>)
    ensures Value(base, [digit] + rest) == digit * Pow(base, |rest|) + Value(base, rest)
  {
    ValueAppend(base, [digit], rest);
    assert [digit][..0] == [];
    assert Value(base, [digit]) == digit;
  }

  lemma {:induction false} ValueZeros(base: nat, digits: seq<nat>)
    requires forall i :: 0 <= i < |digits| ==> digits[i] == 0
    ensures Value(base, digits) == 0
  {
    if digits != [] {
      ValueZeros(base, digits[..|digits| - 1]);
    }
  }

  lemma {:induction false} ValueBelowPow(base: nat, digits: seq<nat>)
    requires base >= 1 && AreDigits(base, digits)
    ensures Value(base, digits) < Pow(base, |digits|)
  {
    if digits != [] {
      var init := digits[..|digits| - 1];
      ValueBelowPow(base, init);
      MulMonotone(Value(base, init) + 1, Pow(base, |init|), base);
      assert (Value(base, init) + 1) * base == Value(base, init) * base + base;
    }
  }

  lemma {:induction false} ValueAtLeastPow(base: nat, digits: seq<nat>)
    requires digits != [] && digits[0] != 0
    ensures Value(base, digits) >= Pow(base, |digits| - 1)
  {
    assert digits == [digits[0]] + digits[1..];
    ValueCons(base, digits[0], digits[1..]);
    hide Value, Pow;
    MulMonotone(1, digits[0], Pow(base, |digits| - 1));
  }

  /** Writing a number down and reading it back. */
  lemma ValueOfDigits(base: nat, n: nat)
    requires base >= 2
    ensures Value(base, Digits(base, n)) == n
    ensures AreDigits(base, Digits(base, n)) && IsShortest(Digits(base, n))
  {
    DigitsReadBack(base, n);
    DigitsAreShortest(base, n);
  }

  lemma {:induction false} DigitsReadBack(base: nat, n: nat)
    requires base >= 2
    ensures Value(base, Digits(base, n)) == n
  {
    if n != 0 {
      DigitsReadBack(base, n / base);
      assert Digits(base, n)[..|Digits(base, n)| - 1] == Digits(base, n / base);
      Recompose(base, n);
    }
  }

  lemma {:induction false} DigitsAreShortest(base: nat, n: nat)
    requires base >= 2
    ensures AreDigits(base, Digits(base, n)) && IsShortest(Digits(base, n))
  {
    if n != 0 {
      DigitsAreShortest(base, n / base);
      Recompose(base, n);
    }
  }

  lemma Recompose(base: nat, n: nat)
    requires base >= 2
    ensures (n / base) * base + n % base == n && 0 <= n % base < base
    ensures n / base == 0 ==> n % base == n
  {
  }

  /** Reading a shortest numeral and writing it down again. */
  lemma {:induction false} DigitsOfValue(base: nat, digits: seq<nat>)
    requires base >= 2 && AreDigits(base, digits) && IsShortest(digits)
    ensures Digits(base, Value(base, digits)) == digits
  {
    if digits != [] {
      var init, last := digits[..|digits| - 1], digits[|digits| - 1];
      var n := Value(base, init);
      DigitsOfValue(base, init);
      ValueAtLeastPow(base, digits);
      QuotientAndRemainder(base, n, last);
      assert Digits(base, n * base + last) == Digits(base, n) + [last];
    }
  }

  lemma QuotientAndRemainder(base: nat, quotient: nat, remainder: nat)
    requires remainder < base
    ensures (quotient * base + remainder) / base == quotient
    ensures (quotient * base + remainder) % base == remainder
  {
    var n := quotient * base + remainder;
    var q, r := n / base, n % base;
    DivisionUnique(base, q, r, quotient, remainder);
  }

  lemma DivisionUnique(base: nat, q: int, r: nat, q': int, r': nat)
    requires r < base && r' < base
    requires q * base + r == q' * base + r'
    ensures q == q' && r == r'
  {
    assert (q' - q) * base == r - r';
    assert (q - q') * base == r' - r;
    if q < q' {
      MulMonotone(1, q' - q, base);
    } else if q > q' {
      MulMonotone(1, q - q', base);
    }
  }

  lemma {:induction false} SkipLeadingZeros(base: nat, digits: seq<nat>)
    ensures Value(base, digits[LeadingZeros(digits)..]) == Value(base, digits)
  {
    var zeros := LeadingZeros(digits);
    ValueZeros(base, digits[..zeros]);
    assert digits == digits[..zeros] + digits[zeros..];
    ValueAppend(base, digits[..zeros], digits[zeros..]);
  }

  /** A number below base^n has at most n digits, one above has more. */
  lemma DigitCount(base: nat, value: nat, n: nat)
    requires base >= 2
    ensures value < Pow(base, n) <==> |Digits(base, value)| <= n
  {
    ValueOfDigits(base, value);
    var digits := Digits(base, value);
    ValueBelowPow(base, digits);
    if |digits| <= n {
      PowMonotone(base, |digits|, n);
    } else {
      ValueAtLeastPow(base, digits);
      PowMonotone(base, n, |digits| - 1);
    }
  }
}
