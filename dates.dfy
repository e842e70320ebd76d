/**
 * Calendar dates as the pipeline uses them: `datetime.strptime(s, "%m/%d/%Y")`,
 * `strptime(s, "%d-%b-%Y")`, `strftime("%m/%d/%Y")`, whole-day differences, the
 * week classifier `get_week_number` (app.py:74-96) and the year inference for
 * `DD-Mon` fragments (app.py:184-189).
 */
module Dates {
  import opened Wrappers
  import opened Text

  datatype Date = Date(year: int, month: int, day: int)

  predicate IsLeapYear(y: int) {
    y % 4 == 0 && (y % 100 != 0 || y % 400 == 0)
  }

  function DaysInMonth(y: int, m: int): int {
    if m == 2 then (if IsLeapYear(y) then 29 else 28)
    else if m == 4 || m == 6 || m == 9 || m == 11 then 30
    else 31
  }

  function YearLength(y: int): int {
    if IsLeapYear(y) then 366 else 365
  }

  /** A date Python's `datetime` accepts: years 1 to 9999 and a real day of the month. */
  predicate ValidDate(d: Date) {
    1 <= d.year <= 9999 && 1 <= d.month <= 12 && 1 <= d.day <= DaysInMonth(d.year, d.month)
  }

  /** Calendar order: earlier year, else earlier month, else earlier day. */
  predicate Before(a: Date, b: Date) {
    a.year < b.year
    || (a.year == b.year && a.month < b.month)
    || (a.year == b.year && a.month == b.month && a.day < b.day)
  }

  function DaysBeforeYear(y: int): int
    requires y >= 1
  {
    365 * (y - 1) + (y - 1) / 4 - (y - 1) / 100 + (y - 1) / 400
  }

  function DaysBeforeMonth(y: int, m: int): nat
    requires 1 <= m <= 13
    decreases m
  {
    if m == 1 then 0 else DaysBeforeMonth(y, m - 1) + DaysInMonth(y, m - 1)
  }

  /** The proleptic Gregorian ordinal (Python's `date.toordinal()`): 1 January of year 1 is day 1. */
  function DayNumber(d: Date): int
    requires ValidDate(d)
  {
    DaysBeforeYear(d.year) + DaysBeforeMonth(d.year, d.month) + d.day
  }

  /** `(a - b).days` for two dates at midnight. */
  function DaysBetween(a: Date, b: Date): int
    requires ValidDate(a) && ValidDate(b)
  {
    DayNumber(a) - DayNumber(b)
  }

  lemma {:induction false} DaysBeforeNextYear(y: int)
    requires y >= 1
    ensures DaysBeforeYear(y + 1) == DaysBeforeYear(y) + YearLength(y)
  {
    DivisionSteps(y);
  }

  /** Each multiple of 4, 100 or 400 adds one to the count of them below. */
  lemma DivisionSteps(y: int)
    ensures y / 4 - (y - 1) / 4 == (if y % 4 == 0 then 1 else 0)
    ensures y / 100 - (y - 1) / 100 == (if y % 100 == 0 then 1 else 0)
    ensures y / 400 - (y - 1) / 400 == (if y % 400 == 0 then 1 else 0)
    ensures y % 400 == 0 ==> y % 100 == 0
    ensures y % 100 == 0 ==> y % 4 == 0
  {
    DivisionStep4(y);
    DivisionStep100(y);
    DivisionStep400(y);
    if y % 400 == 0 { Multiple400(y); }
    if y % 100 == 0 { Multiple100(y); }
  }

  lemma Multiple400(y: int)
    requires y % 400 == 0
    ensures y % 100 == 0
  {
    var k := y / 400;
    assert y == 100 * (4 * k);
  }

  lemma Multiple100(y: int)
    requires y % 100 == 0
    ensures y % 4 == 0
  {
    var k := y / 100;
    assert y == 4 * (25 * k);
  }

  lemma DivisionStep4(y: int)
    ensures y / 4 - (y - 1) / 4 == (if y % 4 == 0 then 1 else 0)
  {
  }

  lemma DivisionStep100(y: int)
    ensures y / 100 - (y - 1) / 100 == (if y % 100 == 0 then 1 else 0)
  {
  }

  lemma DivisionStep400(y: int)
    ensures y / 400 - (y - 1) / 400 == (if y % 400 == 0 then 1 else 0)
  {
  }

  lemma {:induction false} DaysBeforeYearMonotone(y: int, z: int)
    requires 1 <= y <= z
    ensures DaysBeforeYear(y) + YearLength(y) * (if y < z then 1 else 0) <= DaysBeforeYear(z)
    decreases z - y
  {
    if y < z {
      DaysBeforeNextYear(y);
      if y + 1 < z { DaysBeforeYearMonotone(y + 1, z); }
    }
  }

  lemma {:induction false} DaysBeforeMonthBounds(y: int, m: int)
    requires 1 <= m <= 12
    ensures DaysBeforeMonth(y, m) + DaysInMonth(y, m) <= YearLength(y)
  {
    if m < 12 { DaysBeforeMonthMonotone(y, m, 13); }
    MonthsMakeYear(y);
  }

  /** The twelve months add up to the length of the year. */
  lemma {:induction false} MonthsMakeYear(y: int)
    ensures DaysBeforeMonth(y, 13) == YearLength(y)
  {
    var feb := DaysInMonth(y, 2);
    assert DaysBeforeMonth(y, 3) == 31 + feb;
    assert DaysBeforeMonth(y, 7) == 31 + feb + 31 + 30 + 31 + 30;
    assert DaysBeforeMonth(y, 10) == 31 + feb + 31 + 30 + 31 + 30 + 31 + 31 + 30;
  }

  lemma {:induction false} DaysBeforeMonthMonotone(y: int, m: int, n: int)
    requires 1 <= m < n <= 13
    ensures DaysBeforeMonth(y, m) + DaysInMonth(y, m) <= DaysBeforeMonth(y, n)
    decreases n - m
  {
    if m + 1 < n { DaysBeforeMonthMonotone(y, m + 1, n); }
  }

  /** The day number orders dates exactly as the calendar does. */
  lemma {:induction false} DayNumberOrder(a: Date, b: Date)
    requires ValidDate(a) && ValidDate(b)
    ensures Before(a, b) <==> DayNumber(a) < DayNumber(b)
    ensures a == b <==> DayNumber(a) == DayNumber(b)
  {
    if a.year < b.year {
      BeforeYear(a, b);
    } else if b.year < a.year {
      BeforeYear(b, a);
    } else if a.month < b.month {
      DaysBeforeMonthMonotone(a.year, a.month, b.month);
    } else if b.month < a.month {
      DaysBeforeMonthMonotone(a.year, b.month, a.month);
    }
  }

  lemma {:induction false} BeforeYear(a: Date, b: Date)
    requires ValidDate(a) && ValidDate(b) && a.year < b.year
    ensures DayNumber(a) < DayNumber(b)
  {
    DaysBeforeMonthBounds(a.year, a.month);
    DaysBeforeYearMonotone(a.year, b.year);
  }

  // ---------------------------------------------------------------------------
  // parsing and formatting

  /**
   * `datetime.strptime(s, "%m/%d/%Y")`: one or two digits of month, one or two digits of
   * day, four digits of year and nothing else, then a real calendar date.
   */
  function ParseMonthDayYear(s: string): (r: Option<Date>)
    ensures r.Some? ==> ValidDate(r.value)
  {
    var parts := Split(s, "/");
    if |parts| == 3
       && 1 <= |parts[0]| <= 2 && IsDigits(parts[0])
       && 1 <= |parts[1]| <= 2 && IsDigits(parts[1])
       && |parts[2]| == 4 && IsDigits(parts[2])
    then
      var d := Date(DigitsValue(parts[2]), DigitsValue(parts[0]), DigitsValue(parts[1]));
      if ValidDate(d) then Some(d) else None
    else None
  }

  /** `date.strftime("%m/%d/%Y")`: zero-padded month and day, four-digit year. */
  function FormatMonthDayYear(d: Date): string
    requires ValidDate(d)
  {
    ZeroPad(d.month as nat, 2) + "/" + ZeroPad(d.day as nat, 2) + "/" + ZeroPad(d.year as nat, 4)
  }

  /** Reading three digit fields of the right widths joined by slashes. */
  lemma {:induction false} ParseMonthDayYearFields(m: string, d: string, y: string)
    requires 1 <= |m| <= 2 && IsDigits(m) && 1 <= |d| <= 2 && IsDigits(d) && |y| == 4 && IsDigits(y)
    requires ValidDate(Date(DigitsValue(y), DigitsValue(m), DigitsValue(d)))
    ensures ParseMonthDayYear(m + "/" + d + "/" + y) == Some(Date(DigitsValue(y), DigitsValue(m), DigitsValue(d)))
  {
    DigitsExclude(m, '/');
    DigitsExclude(d, '/');
    DigitsExclude(y, '/');
    SplitThree(m, d, y, '/');
  }

  /** Formatting a date and reading it back gives the same date. */
  lemma {:induction false} FormatThenParse(d: Date)
    requires ValidDate(d)
    ensures ParseMonthDayYear(FormatMonthDayYear(d)) == Some(d)
  {
    NatTextLength(d.month as nat, 2);
    NatTextLength(d.day as nat, 2);
    NatTextLength(d.year as nat, 4);
    ParseMonthDayYearFields(ZeroPad(d.month as nat, 2), ZeroPad(d.day as nat, 2), ZeroPad(d.year as nat, 4));
  }

  /** The month named by a three-letter abbreviation, in any letter case (`%b`). */
  function MonthNumberIgnoringCase(t: string): (m: nat)
    ensures m <= 12
  {
    var w := LowerText(t);
    if w == "jan" then 1 else if w == "feb" then 2 else if w == "mar" then 3
    else if w == "apr" then 4 else if w == "may" then 5 else if w == "jun" then 6
    else if w == "jul" then 7 else if w == "aug" then 8 else if w == "sep" then 9
    else if w == "oct" then 10 else if w == "nov" then 11 else if w == "dec" then 12
    else 0
  }

  /**
   * `datetime.strptime(s, "%d-%b-%Y")`: one or two digits of day, a month abbreviation in
   * any case, four digits of year and nothing else, then a real calendar date.
   */
  function ParseDayMonthYear(s: string): (r: Option<Date>)
    ensures r.Some? ==> ValidDate(r.value)
  {
    var parts := Split(s, "-");
    if |parts| == 3
       && 1 <= |parts[0]| <= 2 && IsDigits(parts[0])
       && MonthNumberIgnoringCase(parts[1]) > 0
       && |parts[2]| == 4 && IsDigits(parts[2])
    then
      var d := Date(DigitsValue(parts[2]), MonthNumberIgnoringCase(parts[1]), DigitsValue(parts[0]));
      if ValidDate(d) then Some(d) else None
    else None
  }

  /** A month abbreviation holds letters only, so no `-`. */
  lemma {:induction false} MonthTextHasNoDash(t: string)
    requires MonthNumberIgnoringCase(t) > 0
    ensures !Contains(t, "-")
  {
    var w := LowerText(t);
    MonthNameLetters(w);
    forall k | 0 <= k < |t|
      ensures t[k] != '-'
    {
      assert Lower(t[k]) == w[k];
    }
    CharAbsent(t, '-');
  }

  lemma MonthNameLetters(w: string)
    requires w in ["jan", "feb", "mar", "apr", "may", "jun", "jul", "aug", "sep", "oct", "nov", "dec"]
    ensures forall k :: 0 <= k < |w| ==> 'a' <= w[k] <= 'z'
  {
  }

  /** `DD-Mon-YYYY` reads as the date its fields name when that date exists, and fails otherwise. */
  lemma {:induction false} ParseDayMonthYearFields(d: string, mon: string, y: string)
    requires 1 <= |d| <= 2 && IsDigits(d) && MonthNumberIgnoringCase(mon) > 0 && |y| == 4 && IsDigits(y)
    ensures var date := Date(DigitsValue(y), MonthNumberIgnoringCase(mon), DigitsValue(d));
            ParseDayMonthYear(d + "-" + mon + "-" + y) == if ValidDate(date) then Some(date) else None
  {
    DigitsExclude(d, '-');
    MonthTextHasNoDash(mon);
    DigitsExclude(y, '-');
    SplitThree(d, mon, y, '-');
  }

  // ---------------------------------------------------------------------------
  // week classification

  /** Which week of the 14-day period a whole-day offset from its start falls in. */
  function WeekOfOffset(daysDiff: int): (w: Option<nat>)
    ensures w.Some? <==> 0 <= daysDiff < 14
    ensures w.Some? ==> w.value == daysDiff / 7 + 1
  {
    if 0 <= daysDiff <= 6 then Some(1)
    else if 7 <= daysDiff <= 13 then Some(2)
    else None
  }

  /** The pair `(date_obj, week)` of `get_week_number`: both None, a date and no week, or both. */
  datatype WeekClass = Unparseable | OutsidePeriod(date: Date) | InWeek(date: Date, week: nat)

  /** `get_week_number(day_str, pay_period_start)` for a date string (app.py:74-96). */
  function WeekNumber(text: string, start: Date): (r: WeekClass)
    requires ValidDate(start)
    ensures r.Unparseable? <==> ParseMonthDayYear(text).None?
    ensures !r.Unparseable? ==> ParseMonthDayYear(text) == Some(r.date)
    ensures r.InWeek? ==> 0 <= DaysBetween(r.date, start) < 14
                          && r.week == DaysBetween(r.date, start) / 7 + 1
    ensures r.OutsidePeriod? ==> DaysBetween(r.date, start) < 0 || DaysBetween(r.date, start) >= 14
  {
    match ParseMonthDayYear(text)
    case None => Unparseable
    case Some(d) =>
      match WeekOfOffset(DaysBetween(d, start))
      case Some(w) => InWeek(d, w)
      case None => OutsidePeriod(d)
  }

  lemma {:induction false} JanuaryText(tens: char, units: char)
    requires IsDigit(tens) && IsDigit(units)
    requires 1 <= 10 * DigitValue(tens) + DigitValue(units) <= 31
    ensures ParseMonthDayYear(['0', '1', '/', tens, units, '/', '2', '0', '2', '5'])
            == Some(Date(2025, 1, 10 * DigitValue(tens) + DigitValue(units)))
  {
    TwoDigits(tens, units);
    TwoDigits('0', '1');
    Year2025();
    ParseMonthDayYearFields("01", [tens, units], "2025");
    assert ['0', '1', '/', tens, units, '/', '2', '0', '2', '5'] == "01" + "/" + [tens, units] + "/" + "2025";
  }

  lemma Year2025()
    ensures DigitsValue("2025") == 2025
  {
    assert "2025"[..3] == "202" && "202"[..2] == "20" && "20"[..1] == "2" && "2"[..0] == [];
  }

  /** A January 2025 date written `01/<tens><units>/2025`, classified against a period starting 6 January 2025. */
  lemma {:induction false} JanuaryWeek(tens: char, units: char)
    requires IsDigit(tens) && IsDigit(units)
    requires 1 <= 10 * DigitValue(tens) + DigitValue(units) <= 31
    ensures var day := 10 * DigitValue(tens) + DigitValue(units);
            WeekNumber(['0', '1', '/', tens, units, '/', '2', '0', '2', '5'], Date(2025, 1, 6))
            == if 6 <= day <= 12 then InWeek(Date(2025, 1, day), 1)
               else if 13 <= day <= 19 then InWeek(Date(2025, 1, day), 2)
               else OutsidePeriod(Date(2025, 1, day))
  {
    var day := 10 * DigitValue(tens) + DigitValue(units);
    JanuaryText(tens, units);
    assert DaysBetween(Date(2025, 1, day), Date(2025, 1, 6)) == day - 6;
  }

  /** The worked example of a period starting on Monday 6 January 2025. */
  lemma {:induction false} WeekNumberExample()
    ensures WeekNumber("01/06/2025", Date(2025, 1, 6)) == InWeek(Date(2025, 1, 6), 1)
    ensures WeekNumber("01/12/2025", Date(2025, 1, 6)) == InWeek(Date(2025, 1, 12), 1)
    ensures WeekNumber("01/13/2025", Date(2025, 1, 6)) == InWeek(Date(2025, 1, 13), 2)
    ensures WeekNumber("01/20/2025", Date(2025, 1, 6)) == OutsidePeriod(Date(2025, 1, 20))
  {
    JanuaryWeek('0', '6');
    JanuaryWeek('1', '2');
    JanuaryWeek('1', '3');
    JanuaryWeek('2', '0');
  }

  // ---------------------------------------------------------------------------
  // year inference for `DD-Mon` fragments

  /**
   * The year given to a `DD-Mon` fragment of month `fragmentMonth` in a report whose period
   * header starts in `headerMonth`/`headerYear` (app.py:184-189): a period that starts in
   * December and a fragment in January-June is the next year; a period that starts in
   * January-June and a fragment in December is the previous year.
   */
  function InferYear(headerMonth: int, headerYear: int, fragmentMonth: int): (y: int)
    ensures headerMonth == 12 && fragmentMonth <= 6 ==> y == headerYear + 1
    ensures headerMonth <= 6 && fragmentMonth == 12 ==> y == headerYear - 1
    ensures !(headerMonth == 12 && fragmentMonth <= 6) && !(headerMonth <= 6 && fragmentMonth == 12)
            ==> y == headerYear
  {
    if headerMonth == 12 && fragmentMonth <= 6 then headerYear + 1
    else if headerMonth <= 6 && fragmentMonth == 12 then headerYear - 1
    else headerYear
  }

  /** Months counted from year 0, to measure how far apart two (year, month) pairs are. */
  function MonthIndex(year: int, month: int): int { 12 * year + month }

  /**
   * For a real header month and fragment month, the inferred fragment lies less than a year
   * from the header month, and across a year boundary it lies at most six months away.
   */
  lemma {:induction false} InferYearStaysNear(headerMonth: int, headerYear: int, fragmentMonth: int)
    requires 1 <= headerMonth <= 12 && 1 <= fragmentMonth <= 12
    ensures var d := MonthIndex(InferYear(headerMonth, headerYear, fragmentMonth), fragmentMonth)
                     - MonthIndex(headerYear, headerMonth);
            -11 <= d <= 11
    ensures InferYear(headerMonth, headerYear, fragmentMonth) != headerYear ==>
            var d := MonthIndex(InferYear(headerMonth, headerYear, fragmentMonth), fragmentMonth)
                     - MonthIndex(headerYear, headerMonth);
            -6 <= d <= 6 && d != 0
  {
  }
}
