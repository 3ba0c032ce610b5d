/** Ripple time to calendar fields (src/xrp/time.c), against the Gregorian
    calendar counted day by day. */
module Calendar {

  // ---------- The Gregorian calendar ----------

  predicate IsLeap(year: int) {
    year % 4 == 0 && (year % 100 != 0 || year % 400 == 0)
  }

  function YearLength(year: int): int {
    if IsLeap(year) then 366 else 365
  }

  /** `month` counts from 0, as in the C library. */
  function MonthLength(year: int, month: int): int
    requires 0 <= month < 12
  {
    if month == 1 then (if IsLeap(year) then 29 else 28)
    else if month == 3 || month == 5 || month == 8 || month == 10 then 30
    else 31
  }

  /** Days from 2000-01-01 to the first day of `year`. */
  function DaysToYear(year: int): int
    decreases if year >= 2000 then year - 2000 else 2000 - year
  {
    if year == 2000 then 0
    else if year > 2000 then DaysToYear(year - 1) + YearLength(year - 1)
    else DaysToYear(year + 1) - YearLength(year)
  }

  /** Days from the first day of `year` to the first day of `month`. */
  function DaysToMonth(year: int, month: int): int
    requires 0 <= month <= 12
  {
    if month == 0 then 0 else DaysToMonth(year, month - 1) + MonthLength(year, month - 1)
  }

  /** The fields the C code fills in: `year` since 1900, `mon` from 0, `mday` from 1. */
  datatype Tm = Tm(sec: int, min: int, hour: int, mday: int, mon: int, year: int) {
    ghost predicate Valid() {
      && 0 <= mon < 12
      && 1 <= mday <= MonthLength(year + 1900, mon)
      && 0 <= hour < 24 && 0 <= min < 60 && 0 <= sec < 60
    }

    /** Seconds since 2000-01-01 00:00:00. */
    function Seconds(): int
      requires 0 <= mon < 12
    {
      (DaysToYear(year + 1900) + DaysToMonth(year + 1900, mon) + mday - 1) * 86400
      + hour * 3600 + min * 60 + sec
    }

    /** Chronological order, field by field. */
    predicate Before(other: Tm) {
      year < other.year || (year == other.year && (
      mon < other.mon || (mon == other.mon && (
      mday < other.mday || (mday == other.mday && (
      hour < other.hour || (hour == other.hour && (
      min < other.min || (min == other.min && sec < other.sec)))))))))
    }
  }

  /** The years of the Gregorian calendar, day by day from 2000-01-01. */
  lemma YearsInFigures(year: int)
    ensures DaysToYear(2000) == 0
    ensures DaysToYear(year + 1) - DaysToYear(year)
         == if year % 400 == 0 || (year % 4 == 0 && year % 100 != 0) then 366 else 365
  {
  }

  /** January, March, May, July, August, October and December have 31 days. */
  lemma MonthsInFigures(year: int, month: int)
    requires 0 <= month < 12
    ensures MonthLength(year, month) ==
      if month == 1 then (if year % 400 == 0 || (year % 4 == 0 && year % 100 != 0) then 29 else 28)
      else if month == 0 || month == 2 || month == 4 || month == 6 || month == 7 || month == 9 || month == 11 then 31
      else 30
    ensures DaysToMonth(year, 0) == 0
    ensures DaysToMonth(year, month + 1) == DaysToMonth(year, month) + MonthLength(year, month)
  {
  }

  /** In January 2000 the seconds are counted from its beginning. */
  lemma SecondsInFigures(tm: Tm)
    requires tm.year == 100 && tm.mon == 0
    ensures tm.Seconds() == (tm.mday - 1) * 86400 + tm.hour * 3600 + tm.min * 60 + tm.sec
  {
    assert DaysToYear(2000) == 0 && DaysToMonth(2000, 0) == 0;
    hide DaysToYear, DaysToMonth;
  }

  function LeapDays(year: int): int {
    (year - 1) / 4 - (year - 1) / 100 + (year - 1) / 400
  }

  lemma {:induction false} DaysToYearClosed(year: int)
    ensures DaysToYear(year) == 365 * (year - 2000) + LeapDays(year) - LeapDays(2000)
    decreases if year >= 2000 then year - 2000 else 2000 - year
  {
    if year > 2000 {
      DaysToYearClosed(year - 1);
      LeapDayOfYear(year - 1);
    } else if year < 2000 {
      DaysToYearClosed(year + 1);
      LeapDayOfYear(year);
    }
  }

  lemma LeapDayOfYear(year: int)
    ensures LeapDays(year + 1) - LeapDays(year) == YearLength(year) - 365
  {
    DivStep(year, 4);
    DivStep(year, 100);
    DivStep(year, 400);
    LeapRule(year);
    hide YearLength;
  }

  lemma LeapRule(year: int)
    ensures YearLength(year) - 365
         == (if year % 4 == 0 then 1 else 0) - (if year % 100 == 0 then 1 else 0) + (if year % 400 == 0 then 1 else 0)
  {
    if year % 100 == 0 {
      MultipleOf4(year, 25 * (year / 100));
    }
    if year % 400 == 0 {
      MultipleOf100(year, 4 * (year / 400));
    }
  }

  lemma MultipleOf4(year: int, k: int)
    requires year == 4 * k
    ensures year % 4 == 0
  {
  }

  lemma MultipleOf100(year: int, k: int)
    requires year == 100 * k
    ensures year % 100 == 0
  {
  }

  lemma DivStep(n: int, d: int)
    requires d == 4 || d == 100 || d == 400
    ensures n / d - (n - 1) / d == if n % d == 0 then 1 else 0
  {
  }

  // ---------- Order ----------

  lemma MonthsFillTheYear(year: int)
    ensures DaysToMonth(year, 12) == YearLength(year)
  {
    ToMarch(year);
    assert DaysToMonth(year, 4) == DaysToMonth(year, 2) + 61;
    assert DaysToMonth(year, 6) == DaysToMonth(year, 4) + 61;
    assert DaysToMonth(year, 8) == DaysToMonth(year, 6) + 62;
    assert DaysToMonth(year, 10) == DaysToMonth(year, 8) + 61;
    assert DaysToMonth(year, 12) == DaysToMonth(year, 10) + 61;
  }

  lemma ToMarch(year: int)
    ensures DaysToMonth(year, 2) == 31 + MonthLength(year, 1)
  {
    assert DaysToMonth(year, 1) == 31;
  }

  lemma {:induction false} DaysToMonthMonotone(year: int, month: int, later: int)
    requires 0 <= month < later <= 12
    ensures DaysToMonth(year, month) + MonthLength(year, month) <= DaysToMonth(year, later)
  {
    if month + 1 < later {
      DaysToMonthMonotone(year, month, later - 1);
    }
  }

  lemma {:induction false} DaysToYearMonotone(year: int, later: int)
    requires year < later
    ensures DaysToYear(year) + YearLength(year) <= DaysToYear(later)
    decreases later - year
  {
    if year + 1 < later {
      DaysToYearMonotone(year, later - 1);
    }
  }

  /** Chronological order of valid dates is the order of their second counts. */
  lemma BeforeIffEarlier(a: Tm, b: Tm)
    requires a.Valid() && b.Valid()
    ensures a.Before(b) <==> a.Seconds() < b.Seconds()
  {
    if a.Before(b) {
      BeforeMeansEarlier(a, b);
    } else if b.Before(a) {
      BeforeMeansEarlier(b, a);
    }
  }

  lemma DayOfYear(a: Tm)
    requires a.Valid()
    ensures 0 <= DaysToMonth(a.year + 1900, a.mon) + a.mday - 1 < YearLength(a.year + 1900)
  {
    var year := a.year + 1900;
    MonthsFillTheYear(year);
    DaysToMonthMonotone(year, a.mon, 12);
    if a.mon > 0 {
      DaysToMonthMonotone(year, 0, a.mon);
    }
  }

  lemma BeforeMeansEarlier(a: Tm, b: Tm)
    requires a.Valid() && b.Valid() && a.Before(b)
    ensures a.Seconds() < b.Seconds()
  {
    if a.year < b.year {
      DayOfYear(a);
      DayOfYear(b);
      DaysToYearMonotone(a.year + 1900, b.year + 1900);
    } else if a.mon < b.mon {
      DaysToMonthMonotone(a.year + 1900, a.mon, b.mon);
    }
  }

  // ---------- The conversion ----------

  const LEAPOCH: int := 946684800 + 86400 * (31 + 29)
  const RIPPLE_EPOCH_OFFSET: int := 946684800
  const FINAL_EPOCH_OFFSET: int := RIPPLE_EPOCH_OFFSET - LEAPOCH
  const DAYS_PER_400Y: int := 365 * 400 + 97
  const DAYS_PER_100Y: int := 365 * 100 + 24
  const DAYS_PER_4Y: int := 365 * 4 + 1
  const INT_MAX: int := 0x7FFF_FFFF
  const INT_MIN: int := -0x8000_0000

  /** C division and remainder, truncating toward zero. */
  function CDiv(a: int, b: int): int
    requires b > 0
  {
    if a >= 0 then a / b else -((-a) / b)
  }

  function CMod(a: int, b: int): int
    requires b > 0
  {
    a - CDiv(a, b) * b
  }

  /** March to February. */
  function DaysInMonth(month: int): int
    requires 0 <= month < 12
  {
    match month
    case 1 | 3 | 6 | 8 => 30
    case 11 => 29
    case _ => 31
  }

  function DaysSinceMarch(month: int): int
    requires 0 <= month <= 12
  {
    if month == 0 then 0 else DaysSinceMarch(month - 1) + DaysInMonth(month - 1)
  }

  /** The cycle counts of the C code and what they stand for. */
  datatype Cycles = Cycles(qc: int, c: int, q: int, y: int, days: int) {
    ghost predicate Valid() {
      && 0 <= c < 4 && 0 <= q < 25 && 0 <= y < 4 && 0 <= days <= 365
      && (days == 365 ==> y == 3 && (q == 24 ==> c == 3))
    }

    /** Whole years since March 2000. */
    function Years(): int { y + 4 * q + 100 * c + 400 * qc }

    /** Days since 2000-03-01. */
    function Days(): int {
      qc * DAYS_PER_400Y + c * DAYS_PER_100Y + q * DAYS_PER_4Y + y * 365 + days
    }
  }

  lemma MarchStart(cycles: Cycles)
    requires cycles.Valid()
    ensures var year := 2000 + cycles.Years();
      DaysToYear(year) + DaysToMonth(year, 2) == 60 + cycles.Days() - cycles.days
  {
    hide DaysToYear, DaysToMonth, LeapDays, IsLeap;
    var year := 2000 + cycles.Years();
    LeapDaysAt2000();
    DaysToYearClosed(year);
    LeapDayOfYear(year);
    LeapDaysOfCycles(cycles);
    ToMarch(year);
  }

  lemma LeapDaysAt2000()
    ensures LeapDays(2000) == 484
  {
  }

  lemma LeapDaysOfCycles(cycles: Cycles)
    requires cycles.Valid()
    ensures LeapDays(2000 + cycles.Years() + 1) == 485 + 97 * cycles.qc + 24 * cycles.c + cycles.q
  {
    var year := 2000 + cycles.Years();
    Quotient(year, 4, 500 + 100 * cycles.qc + 25 * cycles.c + cycles.q);
    Quotient(year, 100, 20 + 4 * cycles.qc + cycles.c);
    Quotient(year, 400, 5 + cycles.qc);
  }

  lemma Remainder(n: int, d: int, q: int, r: int)
    requires d == 4 || d == 100 || d == 400
    requires n == d * q + r && 0 <= r < d
    ensures n % d == r
  {
  }

  lemma Quotient(n: int, d: int, q: int)
    requires d == 4 || d == 100 || d == 400
    requires d * q <= n < d * q + d
    ensures n / d == q
  {
  }

  lemma MonthsFromMarch(year: int, month: int)
    requires 0 <= month < 12
    ensures month < 10 ==> DaysToMonth(year, month + 2) == DaysToMonth(year, 2) + DaysSinceMarch(month)
    ensures month >= 10 ==>
      DaysToYear(year + 1) + DaysToMonth(year + 1, month - 10)
      == DaysToYear(year) + DaysToMonth(year, 2) + DaysSinceMarch(month)
  {
    MarchToDecember(year, if month < 10 then month else 10);
    if month >= 10 {
      MonthsFillTheYear(year);
      DaysToYearStep(year);
    }
  }

  lemma {:induction false} MarchToDecember(year: int, month: int)
    requires 0 <= month <= 10
    ensures DaysToMonth(year, month + 2) == DaysToMonth(year, 2) + DaysSinceMarch(month)
  {
    if month > 0 {
      MarchToDecember(year, month - 1);
    }
  }

  lemma DaysToYearStep(year: int)
    ensures DaysToYear(year + 1) == DaysToYear(year) + YearLength(year)
  {
    DaysToYearClosed(year);
    DaysToYearClosed(year + 1);
    LeapDayOfYear(year);
  }

  lemma LastDayOfFebruary(cycles: Cycles)
    requires cycles.Valid() && cycles.days == 365
    ensures IsLeap(2000 + cycles.Years() + 1)
  {
    var year := 2000 + cycles.Years() + 1;
    Remainder(year, 4, 500 + cycles.q + 1 + 25 * cycles.c + 100 * cycles.qc, 0);
    if cycles.q == 24 {
      Remainder(year, 400, 6 + cycles.qc, 0);
    } else {
      Remainder(year, 100, 20 + cycles.c + 4 * cycles.qc, 4 * (cycles.q + 1));
    }
  }

  /** The date the C code derives from the cycle counts and the month it found. */
  lemma DateOfCycles(cycles: Cycles, month: int, day: int, tm: Tm)
    requires cycles.Valid() && 0 <= month < 12
    requires 0 <= day < DaysInMonth(month) && cycles.days == DaysSinceMarch(month) + day
    requires tm.mday == day + 1
    requires month < 10 ==> tm.mon == month + 2 && tm.year == cycles.Years() + 100
    requires month >= 10 ==> tm.mon == month - 10 && tm.year == cycles.Years() + 101
    ensures 0 <= tm.mon < 12 && 1 <= tm.mday <= MonthLength(tm.year + 1900, tm.mon)
    ensures DaysToYear(tm.year + 1900) + DaysToMonth(tm.year + 1900, tm.mon) + tm.mday - 1
         == 60 + cycles.Days()
  {
    MarchStart(cycles);
    MonthsFromMarch(2000 + cycles.Years(), month);
    if month == 11 && day == 28 {
      DaysInFebruary();
      LastDayOfFebruary(cycles);
    }
  }

  lemma DaysInFebruary()
    ensures DaysSinceMarch(11) == 337
  {
    assert DaysSinceMarch(2) == 61;
    assert DaysSinceMarch(4) == 122;
    assert DaysSinceMarch(6) == 184;
    assert DaysSinceMarch(8) == 245;
    assert DaysSinceMarch(10) == 306;
  }

  /** Truncating division, then the correction of a negative remainder. */
  method FloorDivide(a: int, b: int) returns (quotient: int, remainder: int)
    requires b == 86400 || b == DAYS_PER_400Y
    ensures a == quotient * b + remainder && 0 <= remainder < b
  {
    quotient, remainder := CDiv(a, b), CMod(a, b);
    if remainder < 0 {
      remainder := remainder + b;
      quotient := quotient - 1;
    }
  }

  method SplitDays(days: int) returns (cycles: Cycles)
    ensures cycles.Valid() && cycles.Days() == days
  {
    var qcCycles, remDays := FloorDivide(days, DAYS_PER_400Y);
    var cCycles := remDays / DAYS_PER_100Y;
    if cCycles == 4 { cCycles := cCycles - 1; }
    remDays := remDays - cCycles * DAYS_PER_100Y;
    assert 0 <= cCycles < 4 && 0 <= remDays <= DAYS_PER_100Y;
    assert remDays == DAYS_PER_100Y ==> cCycles == 3;
    var qCycles := remDays / DAYS_PER_4Y;
    if qCycles == 25 { qCycles := qCycles - 1; }
    remDays := remDays - qCycles * DAYS_PER_4Y;
    assert 0 <= qCycles < 25 && 0 <= remDays < DAYS_PER_4Y;
    var remYears := remDays / 365;
    if remYears == 4 { remYears := remYears - 1; }
    remDays := remDays - remYears * 365;
    cycles := Cycles(qcCycles, cCycles, qCycles, remYears, remDays);
  }

  /** The fields written from the cycle counts, the month, the day and the second. */
  function TmOf(cycles: Cycles, month: int, day: int, second: int): Tm {
    var mon := month + 2;
    Tm(second % 60, second / 60 % 60, second / 3600, day + 1,
       if mon >= 12 then mon - 12 else mon,
       if mon >= 12 then cycles.Years() + 101 else cycles.Years() + 100)
  }

  lemma TmOfIsRight(t: int, cycles: Cycles, month: int, day: int, second: int)
    requires cycles.Valid() && 0 <= month < 12 && 0 <= day < DaysInMonth(month)
    requires cycles.days == DaysSinceMarch(month) + day && 0 <= second < 86400
    requires t == (60 + cycles.Days()) * 86400 + second
    ensures TmOf(cycles, month, day, second).Valid()
    ensures TmOf(cycles, month, day, second).Seconds() == t
  {
    DateOfCycles(cycles, month, day, TmOf(cycles, month, day, second));
    assert second == second / 3600 * 3600 + second / 60 % 60 * 60 + second % 60;
  }

  lemma YearsOfCallerRange(cycles: Cycles)
    requires cycles.Valid() && -60 <= cycles.Days() < 49651
    ensures -1 <= cycles.Years() <= 135
  {
    assert -1 <= cycles.qc <= 0;
  }

  /** Days from 2000-01-01 to the first of March of `year`. */
  function DaysToMarch(year: int): int {
    DaysToYear(year) + DaysToMonth(year, 2)
  }

  lemma DaysToMarchMonotone(year: int, later: int)
    requires year < later
    ensures DaysToMarch(year) + 365 <= DaysToMarch(later)
  {
    DaysToYearMonotone(year, later);
    ToMarch(year);
    ToMarch(later);
  }

  /** The year counted by the cycles is the one whose March-to-February holds the day. */
  lemma MarchYear(cycles: Cycles, year: int)
    requires cycles.Valid()
    ensures DaysToMarch(year) <= 60 + cycles.Days() <==> year <= 2000 + cycles.Years()
  {
    var found := 2000 + cycles.Years();
    MarchStart(cycles);
    DaysToMarchMonotone(found, found + 1);
    ToMarch(found);
    ToMarch(found + 1);
    DaysToYearStep(found);
    if cycles.days == 365 {
      LastDayOfFebruary(cycles);
    }
    if year < found {
      DaysToMarchMonotone(year, found);
    } else if year > found + 1 {
      DaysToMarchMonotone(found + 1, year);
    }
  }

  lemma YearFrom2000(tm: Tm)
    requires tm.Valid() && tm.Seconds() >= 0
    ensures tm.year >= 100
  {
    DayOfYear(tm);
    if tm.year < 100 {
      DaysToYearMonotone(tm.year + 1900, 2000);
    }
  }

  /** The times the code accepts: a bound on the time itself, and a March-based
      year (counted from 1900) that an `int` can hold. */
  predicate Accepted(t: int) {
    && INT_MIN * 31622400 <= t <= INT_MAX * 31622400
    && DaysToMarch(INT_MIN + 1900) * 86400 <= t < DaysToMarch(INT_MAX + 1901) * 86400
  }

  /** `ripple_epoch_to_tm`.  Its callers pass an unsigned 32-bit time. */
  method RippleEpochToTm(t: int) returns (status: int, tm: Tm)
    ensures status == if Accepted(t) then 0 else -1
    ensures status == 0 ==> tm.Valid() && tm.Seconds() == t
    ensures 0 <= t < 0x1_0000_0000 ==> status == 0 && 100 <= tm.year <= 236
  {
    tm := Tm(0, 0, 0, 0, 0, 0);
    if t < INT_MIN * 31622400 || t > INT_MAX * 31622400 {
      return -1, tm;
    }
    var secs := t + FINAL_EPOCH_OFFSET;
    var days, remSecs := FloorDivide(secs, 86400);
    var cycles := SplitDays(days);
    if 0 <= t < 0x1_0000_0000 {
      YearsOfCallerRange(cycles);
    }
    var years := cycles.Years();
    MarchYear(cycles, INT_MIN + 1900);
    MarchYear(cycles, INT_MAX + 1901);
    var months, remDays := 0, cycles.days;
    DaysInFebruary();
    while DaysInMonth(months) <= remDays
      invariant 0 <= months < 12 && remDays >= 0
      invariant cycles.days == DaysSinceMarch(months) + remDays
      decreases remDays
    {
      remDays := remDays - DaysInMonth(months);
      months := months + 1;
    }
    if years + 100 > INT_MAX || years + 100 < INT_MIN {
      return -1, tm;
    }
    var year, mon := years + 100, months + 2;
    if mon >= 12 {
      mon := mon - 12;
      year := year + 1;
    }
    TmOfIsRight(t, cycles, months, remDays, remSecs);
    status, tm := 0, Tm(remSecs % 60, remSecs / 60 % 60, remSecs / 3600, remDays + 1, mon, year);
    if t >= 0 {
      YearFrom2000(tm);
    }
  }

  /** The conversion keeps the order of times, so no two times read the same. */
  lemma ConversionIsIncreasing(t: int, later: int, tm: Tm, laterTm: Tm)
    requires tm.Valid() && tm.Seconds() == t
    requires laterTm.Valid() && laterTm.Seconds() == later
    ensures t < later <==> tm.Before(laterTm)
    ensures t == later <==> tm == laterTm
  {
    BeforeIffEarlier(tm, laterTm);
    BeforeIffEarlier(laterTm, tm);
  }
}
