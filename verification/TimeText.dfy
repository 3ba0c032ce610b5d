/** The text of a time (src/xrp/time.c). */
module TimeText {
  import opened Calendar
  import opened CString
  import opened Decimal
  import Numerals

  /** "%02u" of a number below 100 */
  function TwoDigits(n: nat): (text: string)
    requires n < 100
    ensures |text| == 2
  {
    [DigitChar(n / 10), DigitChar(n % 10)]
  }

  /** Month, day and time of day: the part of fixed length. */
  function DayText(tm: Tm): (text: string)
    requires tm.Valid()
    ensures |text| == 19
  {
    "-" + TwoDigits(tm.mon + 1) + "-" + TwoDigits(tm.mday) + " " + TwoDigits(tm.hour) + ":" + TwoDigits(tm.min)
    + ":" + TwoDigits(tm.sec) + " UTC"
  }

  function Text(tm: Tm): string
    requires tm.Valid() && tm.year >= -1900
  {
    UnsignedText(tm.year + 1900) + DayText(tm)
  }

  lemma TwoDigitsRead(n: nat)
    requires n < 100
    ensures NumeralValue(TwoDigits(n)) == n
  {
    var digits := DigitValues(TwoDigits(n));
    assert digits == [n / 10, n % 10];
    assert digits[..1] == [n / 10] && digits[..1][..0] == [];
    assert Numerals.Value(10, digits[..1]) == n / 10;
  }

  /** Read as numerals, the groups of the text are the year, month, day, hour, minute
      and second, in this order and with these marks between them. */
  lemma TextReads(tm: Tm)
    requires tm.Valid() && tm.year >= -1900
    ensures var text := Text(tm);
      |text| > 19 && NumeralValue(text[..|text| - 19]) == tm.year + 1900
    ensures var day := Text(tm)[|Text(tm)| - 19..];
      && day[0] == '-' && NumeralValue(day[1..3]) == tm.mon + 1
      && day[3] == '-' && NumeralValue(day[4..6]) == tm.mday
      && day[6] == ' ' && NumeralValue(day[7..9]) == tm.hour
      && day[9] == ':' && NumeralValue(day[10..12]) == tm.min
      && day[12] == ':' && NumeralValue(day[13..15]) == tm.sec && day[15..] == " UTC"
  {
    UnsignedTextReads(tm.year + 1900);
    DayTextReads(tm);
    hide DayText, UnsignedText, NumeralValue;
    var text := Text(tm);
    assert text[..|text| - 19] == UnsignedText(tm.year + 1900) && text[|text| - 19..] == DayText(tm);
  }

  lemma DayTextReads(tm: Tm)
    requires tm.Valid()
    ensures var day := DayText(tm);
      && day[0] == '-' && NumeralValue(day[1..3]) == tm.mon + 1
      && day[3] == '-' && NumeralValue(day[4..6]) == tm.mday
      && day[6] == ' ' && NumeralValue(day[7..9]) == tm.hour
      && day[9] == ':' && NumeralValue(day[10..12]) == tm.min
      && day[12] == ':' && NumeralValue(day[13..15]) == tm.sec && day[15..] == " UTC"
  {
    DayTextFields(tm);
    DayTextMarks(tm);
    hide DayText, NumeralValue, TwoDigits;
    TwoDigitsRead(tm.mon + 1);
    TwoDigitsRead(tm.mday);
    TwoDigitsRead(tm.hour);
    TwoDigitsRead(tm.min);
    TwoDigitsRead(tm.sec);
  }

  lemma DayTextMarks(tm: Tm)
    requires tm.Valid()
    ensures var day := DayText(tm);
      && day[0] == '-' && day[3] == '-' && day[6] == ' ' && day[9] == ':' && day[12] == ':' && day[15..] == " UTC"
  {
    hide TwoDigits;
  }

  lemma TwoDigitsTell(n: nat, m: nat)
    requires n < 100 && m < 100 && TwoDigits(n) == TwoDigits(m)
    ensures n == m
  {
    assert TwoDigits(n)[0] == TwoDigits(m)[0] && TwoDigits(n)[1] == TwoDigits(m)[1];
  }

  lemma DayTextFields(tm: Tm)
    requires tm.Valid()
    ensures DayText(tm)[1..3] == TwoDigits(tm.mon + 1) && DayText(tm)[4..6] == TwoDigits(tm.mday)
    ensures DayText(tm)[7..9] == TwoDigits(tm.hour) && DayText(tm)[10..12] == TwoDigits(tm.min)
    ensures DayText(tm)[13..15] == TwoDigits(tm.sec)
  {
    hide TwoDigits;
  }

  lemma DayTextTells(tm: Tm, other: Tm)
    requires tm.Valid() && other.Valid() && DayText(tm) == DayText(other)
    ensures tm.mon == other.mon && tm.mday == other.mday && tm.hour == other.hour
    ensures tm.min == other.min && tm.sec == other.sec
  {
    hide TwoDigits, DayText;
    DayTextFields(tm);
    DayTextFields(other);
    TwoDigitsTell(tm.mon + 1, other.mon + 1);
    TwoDigitsTell(tm.mday, other.mday);
    TwoDigitsTell(tm.hour, other.hour);
    TwoDigitsTell(tm.min, other.min);
    TwoDigitsTell(tm.sec, other.sec);
  }

  /** The text determines the date and the time of day. */
  lemma TextTellsTime(tm: Tm, other: Tm)
    requires tm.Valid() && other.Valid() && tm.year >= -1900 && other.year >= -1900
    requires Text(tm) == Text(other)
    ensures tm == other
  {
    hide DayText, UnsignedText, NumeralValue;
    var text, n := Text(tm), |Text(tm)| - 19;
    assert text[..n] == UnsignedText(tm.year + 1900) && text[n..] == DayText(tm);
    assert text[..n] == UnsignedText(other.year + 1900) && text[n..] == DayText(other);
    DayTextTells(tm, other);
    UnsignedTextReads(tm.year + 1900);
    UnsignedTextReads(other.year + 1900);
  }

  /** Of two 32-bit times the texts are equal exactly if the times are. */
  lemma EqualTextsAreEqualTimes(t: int, other: int, tm: Tm, tm': Tm)
    requires tm.Valid() && tm.Seconds() == t && tm.year >= -1900
    requires tm'.Valid() && tm'.Seconds() == other && tm'.year >= -1900
    ensures Text(tm) == Text(tm') <==> t == other
  {
    hide Text;
    ConversionIsIncreasing(t, other, tm, tm');
    if Text(tm) == Text(tm') {
      TextTellsTime(tm, tm');
    }
  }

  lemma YearHasFourDigits(tm: Tm)
    requires tm.Valid() && 100 <= tm.year <= 236
    ensures |Text(tm)| == 23 && '\0' !in Text(tm)
  {
    var year := tm.year + 1900;
    assert Numerals.Pow(10, 3) == 1000 && Numerals.Pow(10, 4) == 10000;
    NumeralLength(year, 3);
    NumeralLength(year, 4);
    NumeralIsText(year);
    hide Numeral;
  }

  /** `print_time`, with `snprintf` as the writing of the formatted text. */
  method PrintTime(tm: Tm, dst: array<char>)
    requires tm.Valid() && 100 <= tm.year <= 236 && dst.Length >= MAX_FIELD_LEN
    modifies dst
    ensures TextAt(dst[..], 0) == Text(tm)
  {
    YearHasFourDigits(tm);
    PrintText(dst, Text(tm));
  }

  /** `format_time`: the text of the date whose second count is the value. */
  method FormatTime(value: nat, dst: array<char>) returns (ghost tm: Tm)
    requires value < Numerals.TWO_32 && dst.Length >= MAX_FIELD_LEN
    modifies dst
    ensures tm.Valid() && tm.Seconds() == value && 100 <= tm.year <= 236
    ensures TextAt(dst[..], 0) == Text(tm)
  {
    hide Text;
    var status, fields := RippleEpochToTm(value);
    PrintTime(fields, dst);
    tm := fields;
  }
}
