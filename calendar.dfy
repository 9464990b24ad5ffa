/** Calendar dates as the pipeline sees them: the strict "2006-01-02" layout of
    Go's time.Parse, the proleptic Gregorian calendar it validates against, and a
    day count used to measure how far a due date lies from the current instant. */
module Calendar {
  import opened Results
  import opened Text

  datatype Date = Date(year: int, month: int, day: int)

  predicate IsLeapYear(year: int) {
    year % 4 == 0 && (year % 100 != 0 || year % 400 == 0)
  }

  function DaysIn(year: int, month: int): (n: int)
    requires 1 <= month <= 12
    ensures 28 <= n <= 31
    ensures n == 29 <==> month == 2 && IsLeapYear(year)
  {
    if month == 2 then (if IsLeapYear(year) then 29 else 28)
    else if month == 4 || month == 6 || month == 9 || month == 11 then 30
    else 31
  }

  /** The dates time.Parse("2006-01-02", …) accepts: a four-digit year, a month
      from 1 to 12 and a day that exists in that month. */
  predicate ValidDate(year: int, month: int, day: int) {
    0 <= year <= 9999 && 1 <= month <= 12 && 1 <= day <= DaysIn(year, month)
  }

  /** A parsed time.Time at midnight UTC: always a real calendar date. */
  type CalendarDate = d: Date | ValidDate(d.year, d.month, d.day) witness Date(2000, 1, 1)

  // ---------------------------------------------------------------------------
  // The "2006-01-02" layout
  // ---------------------------------------------------------------------------

  /** fmt.Sprintf("%04d-%02d-%02d", year, month, day). */
  function FormatISO(year: int, month: int, day: int): string {
    FormatPadded(year, 4) + "-" + FormatPadded(month, 2) + "-" + FormatPadded(day, 2)
  }

  /** time.Parse("2006-01-02", s): four digits, '-', two digits, '-', two
      digits, nothing else, and a valid calendar date. */
  function ParseISODate(s: string): (r: Option<CalendarDate>)
    ensures r.Some? ==> |s| == 10 && s[4] == '-' && s[7] == '-'
  {
    if |s| == 10 && AllDigits(s[..4]) && s[4] == '-' && AllDigits(s[5..7]) && s[7] == '-' && AllDigits(s[8..]) then
      var year, month, day := DigitsValue(s[..4]), DigitsValue(s[5..7]), DigitsValue(s[8..]);
      if ValidDate(year, month, day) then Some(Date(year, month, day)) else None
    else None
  }

  /** Parsing the formatted text gives back exactly the valid dates, and
      rejects every other triple of integers (negative, too wide, or not a
      day of the calendar). */
  lemma ParseFormatISO(year: int, month: int, day: int)
    ensures ParseISODate(FormatISO(year, month, day))
            == if ValidDate(year, month, day) then Some(Date(year, month, day)) else None
  {
    var y, m, d := FormatPadded(year, 4), FormatPadded(month, 2), FormatPadded(day, 2);
    FormatPaddedWidth(year, 4);
    FormatPaddedWidth(month, 2);
    FormatPaddedWidth(day, 2);
    var s := FormatISO(year, month, day);
    assert |s| == |y| + |m| + |d| + 2;
    if |s| == 10 {
      LayoutParts(y, m, d);
    }
  }

  lemma LayoutParts(y: string, m: string, d: string)
    requires |y| == 4 && |m| == 2 && |d| == 2
    ensures var s := y + "-" + m + "-" + d;
            s[..4] == y && s[4] == '-' && s[5..7] == m && s[7] == '-' && s[8..] == d
  {
  }

  /** time.Parse accepts only the canonical text of the date it returns. */
  lemma FormatParsedISO(s: string)
    requires ParseISODate(s).Some?
    ensures var dt := ParseISODate(s).value; FormatISO(dt.year, dt.month, dt.day) == s
  {
    var dt := ParseISODate(s).value;
    PadDigitsOfDigits(s[..4]);
    PadDigitsOfDigits(s[5..7]);
    PadDigitsOfDigits(s[8..]);
    assert FormatPadded(dt.year, 4) == s[..4];
    assert FormatPadded(dt.month, 2) == s[5..7];
    assert FormatPadded(dt.day, 2) == s[8..];
    assert s == s[..4] + "-" + s[5..7] + "-" + s[8..];
  }

  // ---------------------------------------------------------------------------
  // Day numbers
  // ---------------------------------------------------------------------------

  function DaysInYear(year: int): int {
    if IsLeapYear(year) then 366 else 365
  }

  function DaysBeforeYear(year: nat): nat {
    if year == 0 then 0 else DaysBeforeYear(year - 1) + DaysInYear(year - 1)
  }

  /** Days in the year before the first of `month` (Go's daysBefore table). */
  function DaysBeforeMonth(year: int, month: int): int
    requires 1 <= month <= 12
  {
    [0, 31, 59, 90, 120, 151, 181, 212, 243, 273, 304, 334][month - 1]
      + (if month > 2 && IsLeapYear(year) then 1 else 0)
  }

  /** Days elapsed from 0000-01-01 to the date. */
  function DayNumber(d: CalendarDate): nat {
    DaysBeforeYear(d.year) + DaysBeforeMonth(d.year, d.month) + d.day - 1
  }

  /** The day after `d` in the calendar. */
  function NextDay(d: CalendarDate): Date {
    if d.day < DaysIn(d.year, d.month) then Date(d.year, d.month, d.day + 1)
    else if d.month < 12 then Date(d.year, d.month + 1, 1)
    else Date(d.year + 1, 1, 1)
  }

  /** Consecutive calendar days have consecutive day numbers. */
  lemma DayNumberNextDay(d: CalendarDate)
    requires d != Date(9999, 12, 31)
    ensures ValidDate(NextDay(d).year, NextDay(d).month, NextDay(d).day)
    ensures DayNumber(NextDay(d)) == DayNumber(d) + 1
  {
    MonthEnds(d.year, d.month);
  }

  lemma MonthEnds(year: int, month: int)
    requires 1 <= month <= 12
    ensures month < 12 ==> DaysBeforeMonth(year, month) + DaysIn(year, month) == DaysBeforeMonth(year, month + 1)
    ensures month == 12 ==> DaysBeforeMonth(year, month) + DaysIn(year, month) == DaysInYear(year)
  {
  }

  /** The chronological (year, month, day) order. */
  predicate Before(a: Date, b: Date) {
    a.year < b.year || (a.year == b.year && (a.month < b.month || (a.month == b.month && a.day < b.day)))
  }

  /** Day numbers order dates chronologically, in both directions. */
  lemma DayNumberOrder(a: CalendarDate, b: CalendarDate)
    ensures DayNumber(a) < DayNumber(b) <==> Before(a, b)
  {
    if Before(a, b) {
      DayNumberBefore(a, b);
    } else if a != b {
      DayNumberBefore(b, a);
    }
  }

  lemma DayNumberBefore(a: CalendarDate, b: CalendarDate)
    requires Before(a, b)
    ensures DayNumber(a) < DayNumber(b)
  {
    if a.year < b.year {
      DayOfYearBound(a);
      DaysBeforeYearMonotone(a.year + 1, b.year);
    } else if a.month < b.month {
      DaysBeforeMonthGap(a.year, a.month, b.month);
    }
  }

  lemma DayOfYearBound(d: CalendarDate)
    ensures DaysBeforeMonth(d.year, d.month) + d.day <= DaysInYear(d.year)
  {
    MonthFits(d.year, d.month);
  }

  lemma MonthFits(year: int, month: int)
    requires 1 <= month <= 12
    ensures DaysBeforeMonth(year, month) + DaysIn(year, month) <= DaysInYear(year)
  {
  }

  lemma DaysBeforeMonthGap(year: int, m1: int, m2: int)
    requires 1 <= m1 < m2 <= 12
    ensures DaysBeforeMonth(year, m1) + DaysIn(year, m1) <= DaysBeforeMonth(year, m2)
  {
  }

  lemma {:induction false} DaysBeforeYearMonotone(y1: nat, y2: nat)
    requires y1 <= y2
    ensures DaysBeforeYear(y1) <= DaysBeforeYear(y2)
  {
    if y1 < y2 {
      DaysBeforeYearMonotone(y1, y2 - 1);
    }
  }
}
