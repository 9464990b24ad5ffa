/** The date normaliser: convertMDYToISO turns an "M/D/YY" field into
    "YYYY-MM-DD" text, always reading the two-digit year as 2000 + YY, and the
    record builder then parses that text with the "2006-01-02" layout. */
module DateNormalizer {
  import opened Results
  import opened Text
  import opened Calendar

  /** Why convertMDYToISO failed: not three '/'-separated parts, or the part
      at the given position (0 month, 1 day, 2 year) is not an integer. */
  datatype DateError = InvalidDateFormat | NotAnInteger(part: nat)

  /** Which of the two steps rejected a date field. */
  datatype DateFailure = ConversionFailed(error: DateError) | CalendarRejected

  /** The Go offset added to every parsed year. */
  const YearOffset: int := 2000

  /** convertMDYToISO: trim, split on '/', demand three integer parts, add 2000
      to the year (in Go's 64-bit int) and print "%04d-%02d-%02d". */
  function ConvertMDYToISO(dateStr: string): (r: Result<string, DateError>)
    ensures var parts := Split(TrimSpace(dateStr), '/');
            r.Ok? <==> |parts| == 3 && Atoi(parts[0]).Some? && Atoi(parts[1]).Some? && Atoi(parts[2]).Some?
    ensures r == Err(InvalidDateFormat) <==> |Split(TrimSpace(dateStr), '/')| != 3
    ensures r.Ok? ==> |r.value| >= 10
  {
    ConvertParts(Split(TrimSpace(dateStr), '/'))
  }

  /** The part of convertMDYToISO after the split. */
  function ConvertParts(parts: seq<string>): (r: Result<string, DateError>)
    ensures r.Ok? <==> |parts| == 3 && Atoi(parts[0]).Some? && Atoi(parts[1]).Some? && Atoi(parts[2]).Some?
    ensures r == Err(InvalidDateFormat) <==> |parts| != 3
    ensures r.Ok? ==> |r.value| >= 10
  {
    if |parts| != 3 then Err(InvalidDateFormat)
    else
      match Atoi(parts[0])
      case None => Err(NotAnInteger(0))
      case Some(month) =>
        match Atoi(parts[1])
        case None => Err(NotAnInteger(1))
        case Some(day) =>
          match Atoi(parts[2])
          case None => Err(NotAnInteger(2))
          case Some(year) =>
            var iso := FormatISO(AddInt64(year, YearOffset), month, day);
            FormatPaddedWidth(AddInt64(year, YearOffset), 4);
            FormatPaddedWidth(month, 2);
            FormatPaddedWidth(day, 2);
            Ok(iso)
  }

  /** A date column as the record builder reads it: convertMDYToISO followed by
      time.Parse("2006-01-02", …). */
  function NormalizeDate(dateStr: string): Result<CalendarDate, DateFailure> {
    match ConvertMDYToISO(dateStr)
    case Err(e) => Err(ConversionFailed(e))
    case Ok(iso) =>
      match ParseISODate(iso)
      case None => Err(CalendarRejected)
      case Some(date) => Ok(date)
  }

  /** The trimmed field is three '/'-separated parts whose integers are
      `month`, `day` and `year`, in that order. */
  predicate ReadsAsMDY(dateStr: string, month: int, day: int, year: int) {
    PartsAre(Split(TrimSpace(dateStr), '/'), month, day, year)
  }

  predicate PartsAre(parts: seq<string>, month: int, day: int, year: int) {
    |parts| == 3 && Atoi(parts[0]) == Some(month) && Atoi(parts[1]) == Some(day) && Atoi(parts[2]) == Some(year)
  }

  /** What a well-formed date field means: with M, D and YY the integers of
      its three '/'-separated parts, it is accepted exactly when
      (2000 + YY, M, D) is a calendar date with a four-digit year, and that
      date is the result; otherwise the calendar step rejects it. */
  lemma NormalizeDateWellFormed(dateStr: string, month: int, day: int, year: int)
    requires ReadsAsMDY(dateStr, month, day, year)
    ensures NormalizeDate(dateStr)
            == if ValidDate(year + YearOffset, month, day) then Ok(Date(year + YearOffset, month, day))
               else Err(CalendarRejected)
  {
    ConvertWellFormed(dateStr, month, day, year);
    ShiftedYear(year, month, day);
    NormalizeConvertedISO(dateStr, AddInt64(year, YearOffset), month, day);
  }

  lemma NormalizeConvertedISO(dateStr: string, year: int, month: int, day: int)
    requires ConvertMDYToISO(dateStr) == Ok(FormatISO(year, month, day))
    ensures NormalizeDate(dateStr) == if ValidDate(year, month, day) then Ok(Date(year, month, day)) else Err(CalendarRejected)
  {
    NormalizeConverted(dateStr, FormatISO(year, month, day));
    ParseFormatISO(year, month, day);
  }

  lemma NormalizeConverted(dateStr: string, iso: string)
    requires ConvertMDYToISO(dateStr) == Ok(iso)
    ensures NormalizeDate(dateStr) == if ParseISODate(iso).Some? then Ok(ParseISODate(iso).value) else Err(CalendarRejected)
  {
  }

  lemma ConvertWellFormed(dateStr: string, month: int, day: int, year: int)
    requires ReadsAsMDY(dateStr, month, day, year)
    ensures MinInt64 <= year <= MaxInt64
    ensures ConvertMDYToISO(dateStr) == Ok(FormatISO(AddInt64(year, YearOffset), month, day))
  {
    ConvertPartsWellFormed(Split(TrimSpace(dateStr), '/'), month, day, year);
  }

  lemma ConvertPartsWellFormed(parts: seq<string>, month: int, day: int, year: int)
    requires PartsAre(parts, month, day, year)
    ensures MinInt64 <= year <= MaxInt64
    ensures ConvertParts(parts) == Ok(FormatISO(AddInt64(year, YearOffset), month, day))
  {
  }

  /** Go's wrap-around on year + 2000 never turns an invalid year into a valid one. */
  lemma ShiftedYear(year: int, month: int, day: int)
    requires MinInt64 <= year <= MaxInt64
    ensures ValidDate(AddInt64(year, YearOffset), month, day) <==> ValidDate(year + YearOffset, month, day)
    ensures ValidDate(year + YearOffset, month, day) ==> AddInt64(year, YearOffset) == year + YearOffset
  {
  }

  /** A field that is not three '/'-separated integers fails at the
      conversion step, never at the calendar step. */
  lemma NormalizeDateMalformed(dateStr: string)
    requires var parts := Split(TrimSpace(dateStr), '/');
             !(|parts| == 3 && Atoi(parts[0]).Some? && Atoi(parts[1]).Some? && Atoi(parts[2]).Some?)
    ensures NormalizeDate(dateStr).Err? && NormalizeDate(dateStr).error.ConversionFailed?
  {
  }

  /** The input convention the normaliser reads: month and day without
      padding, the year as its last two digits. */
  function FormatMDY(month: nat, day: nat, yy: nat): string {
    PadDigits(month, 1) + "/" + PadDigits(day, 1) + "/" + PadDigits(yy, 2)
  }

  /** "M/D/YY" text splits into exactly its three numbers. */
  lemma MDYParts(month: nat, day: nat, yy: nat)
    requires month <= MaxInt64 && day <= MaxInt64 && yy <= MaxInt64
    ensures ReadsAsMDY(FormatMDY(month, day, yy), month, day, yy)
  {
    MDYSplit(month, day, yy);
    AtoiPadDigits(month, 1);
    AtoiPadDigits(day, 1);
    AtoiPadDigits(yy, 2);
    ReadsAsParts(FormatMDY(month, day, yy), PadDigits(month, 1), PadDigits(day, 1), PadDigits(yy, 2), month, day, yy);
  }

  lemma ReadsAsParts(text: string, m: string, d: string, y: string, month: int, day: int, year: int)
    requires Split(TrimSpace(text), '/') == [m, d, y]
    requires Atoi(m) == Some(month) && Atoi(d) == Some(day) && Atoi(y) == Some(year)
    ensures ReadsAsMDY(text, month, day, year)
  {
  }

  lemma MDYSplit(month: nat, day: nat, yy: nat)
    ensures Split(TrimSpace(FormatMDY(month, day, yy)), '/') == [PadDigits(month, 1), PadDigits(day, 1), PadDigits(yy, 2)]
  {
    SplitThree(PadDigits(month, 1), PadDigits(day, 1), PadDigits(yy, 2));
  }

  lemma SplitThree(m: string, d: string, y: string)
    requires AllDigits(m) && AllDigits(d) && AllDigits(y) && |m| >= 1 && |y| >= 1
    ensures Split(TrimSpace(m + "/" + d + "/" + y), '/') == [m, d, y]
  {
    TrimmedThree(m, d, y);
    SplitJoinThree(m, d, y);
  }

  lemma TrimmedThree(m: string, d: string, y: string)
    requires |m| >= 1 && |y| >= 1 && IsDigit(m[0]) && IsDigit(y[|y| - 1])
    ensures TrimSpace(m + "/" + d + "/" + y) == m + "/" + d + "/" + y
  {
    var text := m + "/" + d + "/" + y;
    assert text[0] == m[0] && text[|text| - 1] == y[|y| - 1];
    TrimSpaceOfTrimmed(text);
  }

  lemma SplitJoinThree(m: string, d: string, y: string)
    requires AllDigits(m) && AllDigits(d) && AllDigits(y)
    ensures Split(m + "/" + d + "/" + y, '/') == [m, d, y]
  {
    JoinThree(m, d, y);
    NoSeparatorInDigits(m);
    NoSeparatorInDigits(d);
    NoSeparatorInDigits(y);
    SplitJoin([m, d, y], '/');
  }

  lemma JoinThree(m: string, d: string, y: string)
    ensures Join([m, d, y], '/') == m + "/" + d + "/" + y
  {
    assert [m, d, y][1..] == [d, y] && [d, y][1..] == [y];
    assert Join([d, y], '/') == d + "/" + y;
    assert m + "/" + (d + "/" + y) == m + "/" + d + "/" + y;
  }

  /** The year is always 2000 + YY: a calendar date from the year 2000 on,
      written as M/D/YY, normalises back to itself, "69" included (2069,
      never 1969). */
  lemma NormalizeMDY(month: nat, day: nat, yy: nat)
    requires ValidDate(yy + YearOffset, month, day)
    ensures NormalizeDate(FormatMDY(month, day, yy)) == Ok(Date(yy + YearOffset, month, day))
  {
    MDYParts(month, day, yy);
    NormalizeDateWellFormed(FormatMDY(month, day, yy), month, day, yy);
  }

  lemma NoSeparatorInDigits(s: string)
    requires AllDigits(s)
    ensures '/' !in s
  {
  }

  /** The documented conversions: "9/15/69", "7/4/24" and "12/31/99". */
  lemma ConvertMDYToISOExamples()
    ensures ConvertMDYToISO("9/15/69") == Ok("2069-09-15")
    ensures ConvertMDYToISO("7/4/24") == Ok("2024-07-04")
    ensures ConvertMDYToISO("12/31/99") == Ok("2099-12-31")
  {
    ExampleInput1();
    ExampleOutput1();
    ConvertExample("9/15/69", "2069-09-15", 9, 15, 69);
    ExampleInput2();
    ExampleOutput2();
    ConvertExample("7/4/24", "2024-07-04", 7, 4, 24);
    ExampleInput3();
    ExampleOutput3();
    ConvertExample("12/31/99", "2099-12-31", 12, 31, 99);
  }

  lemma ExampleInput1() ensures FormatMDY(9, 15, 69) == "9/15/69" {}
  lemma ExampleOutput1() ensures FormatISO(2069, 9, 15) == "2069-09-15" {}
  lemma ExampleInput2() ensures FormatMDY(7, 4, 24) == "7/4/24" {}
  lemma ExampleOutput2() ensures FormatISO(2024, 7, 4) == "2024-07-04" {}
  lemma ExampleInput3() ensures FormatMDY(12, 31, 99) == "12/31/99" {}
  lemma ExampleOutput3() ensures FormatISO(2099, 12, 31) == "2099-12-31" {}

  lemma ConvertExample(text: string, iso: string, month: nat, day: nat, yy: nat)
    requires month <= MaxInt64 && day <= MaxInt64 && yy < 100
    requires text == FormatMDY(month, day, yy) && iso == FormatISO(yy + YearOffset, month, day)
    ensures ConvertMDYToISO(text) == Ok(iso)
  {
    MDYParts(month, day, yy);
    ConvertWellFormed(text, month, day, yy);
  }
}
