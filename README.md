# Payroll and timeclock pipeline, modelled in Dafny

`app.py` reads CSV exports from two kinds of point-of-sale report: the "Previous/Reclose
Payroll Report" and the "Timeclock Report". It turns each file into punch records tagged
with a store number and merges the files per store. Three reports are built from the
records:

- a formatted list of daily punches;
- a per-employee pivot of total, regular and overtime hours over a 14-day pay period, with
  overtime capped weekly at 40 hours and replaced by reported overtime where the payroll
  file carries it;
- a wage split that divides each week's regular and overtime hours across the days in
  proportion to their hours, then buckets them by a wage-change date.

This project models that pipeline, one module per stage:

| module | file | what it holds |
|---|---|---|
| `Text`, `Patterns` | text.dfy, patterns.dfy | Python's `strip`, `split`, `in` and `startswith` on strings; the fixed regular expressions the code uses, hand-coded |
| `Hours` | hours.dfy | `parse_duration_to_decimal` as `Duration`, with `float()`, `int()` and `round(x, 2)` on exact decimals |
| `Dates` | dates.dfy | `strptime` for `%m/%d/%Y` and `%d-%b-%Y`, day ordinals, `get_week_number`, and the year inference of `DD-Mon` fragments |
| `Detect` | detect.dfy | `detect_file_format` |
| `Records` | records.dfy | the record type and the punch record both parsers emit |
| `Payroll` | payroll.dfy | `parse_payroll_structure`: a method scanning the lines, then an in-place pass over an array that names or drops overtime rows |
| `Timeclock` | timeclock.dfy | `parse_timeclock_structure`: a method scanning the lines while tracking the current employee and store |
| `Stores` | stores.dfy | the upload loop that merges files per store into a map |
| `Groups` | groups.dfy | pandas `groupby(...).sum()` as key lists with totals |
| `Daily`, `Pivot`, `WageSplit` | daily.dfy, pivot.dfy, wagesplit.dfy | `generate_formatted_data` as `Formatted`, `generate_pivot_data` as `PivotTable`, `generate_wage_split_data` as `WageTable` (full-key merge) and `WageTableAsWritten` (the merge of app.py:302) |

How the modelling is done:

- **The scanners.** Each is a `method` whose loop carries the scanner's variables. Its
  `ensures` ties the result to a fold (`Run`) over the effects of the lines
  (`ClassifyLine`). The lemmas state what the fold promises about every emitted row.
- **Hours** are `real`, and the parsers compute hundredths exactly.
- **The reports** are functions over sequences. Lemmas prove they conserve hours and split
  each week correctly.
- **The current year,** read from the clock when a payroll file has no period header, is a
  parameter (`currentYear`).

Two facts about the code shape the model:

- A payroll punch's hours come from its decimal column 3. Column 2 gives its `duration`
  text (`H:MM`), and the hours are not re-derived from it.
- The wage split uses clocked hours only. Reported overtime changes only the pivot report.

One place departs from the code on purpose: the wage split. app.py:302 merges the weekly
totals back onto the day rows on `(emp_id, week)` only (see Findings). The model writes
that merge as it is (`SharesAsWritten`, `WageTableAsWritten`), but its main wage-split
report, `WageTable`, merges on the full group key `(emp_id, first_name, last_name, week)`.
`WageTableAgrees` proves the two reports equal whenever no employee id is spelled two ways
within one week. So the lemmas about `WageTable` hold for the program on such input.

## Model

| member | source | states |
|---|---|---|
| Hours.DurationAccepts | app.py:60-72 | `Duration` (`parse_duration_to_decimal`) is NA exactly when the stripped text is neither a `float()` literal (no colon) nor int literals before its first and second colon; `":30"`, `"8:"`, `"8:3x"`, `"abc:5"` and `"1.2.3"` are the examples below |
| Hours.ClockHundredths | app.py:66-70 | the hundredths for `H:MM` are `H + MM/60` rounded to two places (within a third of a hundredth of `100*H + 5*MM/3`) |
| Hours.RoundHundredths | app.py:65 | `round(x, 2)` on an exact decimal: nearest hundredth, ties to even |
| Hours.NearestEven | app.py:65 | the nearest integer quotient, with ties to the even one |
| Hours.ParseDecimalAccepts | app.py:65 | `float()` succeeds exactly on a stripped optional sign followed by digits with at most one point and at least one digit |
| Hours.ParseDecimalPoint | app.py:65 | `[sign] whole . fraction` reads as the signed value of the digits `whole fraction`, with `len(fraction)` places |
| Hours.ParseDecimalWhole | app.py:65 | `[sign] digits` reads as the signed value of the digits, with no places |
| Hours.UnsignedAccepts | app.py:65 | the unsigned reading accepts exactly digits with at most one point and at least one digit |
| Hours.ParseIntAccepts | app.py:67-68 | `int()` succeeds exactly on a stripped optional sign followed by one or more digits |
| Hours.ParseIntValue | app.py:67-68 | `[sign] digits` reads as the signed value of the digits |
| Hours.WholeExamples | app.py:65-68 | `"8"` is 8 for both `int()` and `float()` |
| Hours.NegativeExample | app.py:65 | `"-1.5"` is -1.5 |
| Hours.FractionExample | app.py:65 | `".5"` is 0.5 |
| Hours.MissingHours | app.py:66-72 | `":30"` is NA |
| Hours.MissingMinutes | app.py:66-72 | `"8:"` is NA |
| Hours.LetterInMinutes | app.py:66-72 | `"8:3x"` is NA |
| Hours.LettersInHours | app.py:66-72 | `"abc:5"` is NA |
| Hours.TwoPoints | app.py:64-65 | `"1.2.3"` is NA |
| Hours.HalfPastEight | app.py:66-70 | `"8:30"` is 8.5 hours |
| Hours.ClockTextDuration | app.py:66-70 | any `H:MM` text yields the rounded `H + MM/60` |
| Hours.ColonDuration | app.py:66-70 | digits, a colon and digits are read as hours and minutes |
| Hours.NoColonDuration | app.py:64-65 | text without a colon is read as `round(float(text), 2)` |
| Hours.CentsTextDuration | app.py:63-65 | hours written with two decimals read back as the same value, by both the duration reader and `float()` |
| Hours.PointDecimal | app.py:65 | `a.b` is read as the decimal with digits `ab` and `len(b)` places |
| Dates.ParseMonthDayYear | app.py:78 | a parsed `%m/%d/%Y` date is a real calendar date |
| Dates.FormatThenParse | app.py:190-191 | `strftime("%m/%d/%Y")` followed by `strptime` gives back the date |
| Dates.ParseDayMonthYear | app.py:190 | a parsed `%d-%b-%Y` date is a real calendar date |
| Dates.ParseDayMonthYearFields | app.py:190 | one or two day digits, a month abbreviation in any case and four year digits give that date when it is valid, and fail otherwise |
| Dates.DayNumberOrder | app.py:87 | the day ordinal orders dates as the calendar does, and equal ordinals mean equal dates |
| Dates.WeekOfOffset | app.py:89-94 | offsets 0..6 give week 1 and 7..13 give week 2; any other offset, negatives included, gives no week |
| Dates.WeekNumber | app.py:74-96 | unparseable text has no date; a parsed date is in week `days/7 + 1` when 0 <= days < 14 and outside the period otherwise |
| Dates.JanuaryWeek | app.py:87-94 | the week of every January 2025 day for a period starting 6 January 2025 |
| Dates.WeekNumberExample | app.py:89-94 | the days at both ends of the two weeks, and the first day after them |
| Dates.InferYear | app.py:184-189 | a December header with a fragment month <= 6 gives the next year; a header month <= 6 with a December fragment gives the previous year; otherwise the header year |
| Dates.InferYearStaysNear | app.py:184-189 | the inferred fragment month lies within 11 months of the header month, and within 6 when the year changes |
| Detect.Head | app.py:100 | the head is the first 1000 characters, or the whole content when it is shorter |
| Detect.DetectFormat | app.py:98-107 | payroll titles win, then timeclock titles, then `Clockset` with `ACTIVE`; anything else is payroll |
| Detect.OnlyHeadMatters | app.py:100 | text after the first 1000 characters never changes the detected format |
| Detect.LateMarkersIgnored | app.py:100-107 | a content with no marker in its head is payroll whatever follows |
| Detect.PayrollTitleFirst | app.py:101-104 | a content with a payroll title inside its first 1000 characters is payroll, whatever timeclock markers it also holds |
| Detect.PayrollTitleExample | app.py:101-104 | `"Timeclock Report / Previous Payroll Report"` is payroll |
| Patterns.StoreNumber | app.py:133-137 | a store number is a non-empty run of digits, and a `#digits` match always gives one |
| Patterns.BrandNumberFields | app.py:133 | a brand name in any case, spaces, an optional `#`, spaces and digits not followed by a digit capture those digits |
| Patterns.StoreNumberOfBrand | app.py:133-137 | the leftmost brand match gives the store number, ahead of any `#digits` |
| Patterns.HashedStoreExample | app.py:133-137 | `"Popeyes #12"` gives `"12"` |
| Patterns.BrandBeforeHashExample | app.py:133-137 | `"POPEYES 7 #12"` gives `"7"`: the brand match wins over the `#` fallback |
| Patterns.OvertimeFields | app.py:150 | an `id hours` line gives an all-digit id and a non-empty hours text |
| Patterns.OvertimeLineFields | app.py:150 | every line of the form spaces, optional quote, digits, spaces, digits-and-points, spaces, optional quote matches, capturing the two runs |
| Patterns.OvertimeFieldsShape | app.py:150 | every match has that form, and its fields are those runs |
| Patterns.OvertimeExample | app.py:150 | `"9999 3.5"` gives `("9999", "3.5")` |
| Patterns.FindPeriod | app.py:120 | the first `Period: MM/DD/YYYY` in the content, or none anywhere |
| Payroll.ReadHeader | app.py:120-126 | with no `Period:` header the header month is 12 and the year is the current year |
| Payroll.ReadHeaderOfDate | app.py:120-123 | a `Period: MM/DD/YYYY` header gives that month and year |
| Payroll.PayrollParts | app.py:140-147 | a line has columns exactly when it contains `","`, or contains `,` and does not start with a quote |
| Payroll.PayrollPartsUnquoted | app.py:146-147 | two or more fields with no quote, no comma and no blank at either end, joined with `,`, are exactly the line's columns |
| Payroll.PayrollPartsQuoted | app.py:141-145 | two or more fields with no quote and no blank at either end, each quoted and joined with `,` (commas inside fields allowed), are exactly the line's columns, unless the first field is a lone comma |
| Payroll.CutAtDoubleDash | app.py:172-173 | the name is the text before its first `--` (its length is that occurrence's index), and is unchanged when it has none |
| Payroll.FullDate | app.py:177-192 | a date is rewritten only from a `DD-Mon` fragment whose month is found, and only into a valid `MM/DD/YYYY` date |
| Payroll.FullDateFields | app.py:177-192 | a `DD-Mon` fragment becomes `MM/DD/YYYY` of that day and month in the inferred year when the date is valid, and is kept otherwise |
| Payroll.MonthNumberOfAbbreviation | app.py:183 | `strptime(..., "%b")` gives each abbreviation its month number |
| Payroll.PunchRow | app.py:165-201 | a weekday row emits a `Clockset` record field by field only with 11 columns, an id and a decimal duration other than `--` or empty; a row that qualifies yet is skipped has an unreadable duration |
| Payroll.OvertimeRow | app.py:149-163 | an `id hours` line emits an `Overtime_Reported` row named OVERTIME REPORTED; a matching line is skipped only when its hours are unreadable |
| Payroll.ClassifyLineCases | app.py:128-201 | empty lines do nothing; store lines only set the store; a `Clockset` row comes from a column row and an overtime row from a line with no columns |
| Payroll.ScanLines | app.py:128-201 | the loop's records and store are the fold of the line effects |
| Payroll.ParsePayroll | app.py:115-214 | the parser's records and store are those of the specification `PayrollResult` |
| Payroll.RunStoreOrigin | app.py:132-138 | the store number in force is the one set by the last store line, and none was set when it is absent |
| Payroll.BestMatch | app.py:205-211 | the chosen name comes from a `Clockset` row whose id starts with the overtime id |
| Payroll.BestMatchLeast | app.py:205-211 | the chosen row has the least such id, and among equal ids the first row |
| Payroll.BestMatchNone | app.py:209-213 | when there is no match, no `Clockset` row has an id starting with the overtime id |
| Payroll.Renamed | app.py:208-213 | non-overtime rows are kept unchanged; a renamed overtime row keeps its id, type and hours |
| Payroll.DroppedIffUnmatched | app.py:208-213 | a row is dropped exactly when it is an overtime row and no `Clockset` id starts with its id |
| Payroll.NamedRowCases | app.py:208-213 | an overtime row with a match takes that row's first and last names; anything else is unchanged |
| Payroll.ResolveKeepsClocksets | app.py:203-213 | the pass keeps every `Clockset` row, in order |
| Payroll.ResolvedOvertimeNamed | app.py:208-211 | every surviving overtime row carries the names of a `Clockset` row whose id starts with its id |
| Payroll.ResolveOvertime | app.py:203-213 | in place on the rows: overtime rows are renamed, and the kept rows are those of `ResolveRows` |
| Payroll.NameOvertimeRows | app.py:208-213 | every array cell is renamed as `NamedRow` says, and flagged for dropping exactly when unmatched |
| Payroll.Survivors | app.py:213 | the unflagged cells, in order, are the rows `ResolveRows` keeps |
| Payroll.InClocksetRows | app.py:205 | the `Clockset` filter keeps exactly the `Clockset` rows |
| Payroll.ClocksetRowOrigin | app.py:165-201 | every `Clockset` record comes from a line of the file with at least 11 columns, field by field |
| Payroll.OvertimeRowNamed | app.py:203-213 | every `Overtime_Reported` record in the result has the names of a `Clockset` record whose id starts with its id |
| Timeclock.SplitLines | app.py:223 | no line contains a line break, and there are no lines exactly when the content is empty |
| Timeclock.SplitLinesCanon | app.py:223 | for any non-empty content, the lines joined by `\n` are the content with each `\r\n` and each other line break written as one `\n` and a final line end dropped (`Canon`) |
| Timeclock.CarriageReturnExamples | app.py:223 | `"a\r\nb"` is the lines `a`, `b`, and `"a\r\rb"` is `a`, an empty line and `b` |
| Timeclock.SplitLinesJoin | app.py:223 | for content whose only line break is `\n` and that does not end with one, the lines joined by `\n` are the content itself |
| Timeclock.SplitLinesSingle | app.py:223 | a text without line breaks is one line |
| Timeclock.ClassifyLineMeaning | app.py:225-248 | a line sets the employee, sets the store or emits a punch exactly when it has that line form, with that form's values |
| Timeclock.DailyKind | app.py:241 | exactly `Clockset` and `Paid Break` are kept, with that type |
| Timeclock.PunchOf | app.py:236-248 | a punch needs more than six columns and a daily type, and its hours are the duration read from column 6 |
| Timeclock.ClassifyLineCases | app.py:225-248 | store lines only set the store; employee lines (all-digit first column, three columns) set id and names; punches come from other lines only |
| Timeclock.Row | app.py:243-248 | a row carries its punch's type, the current employee's id and the current store |
| Timeclock.ScanLines | app.py:224-248 | the loop's records, employee and store are the fold of the line effects |
| Timeclock.ParseTimeclock | app.py:220-249 | the parser's records and store are those of the specification `TimeclockResult` |
| Timeclock.TimeclockRowsWellFormed | app.py:241-247 | every record is `Clockset` or `Paid Break`, and its hours are its duration read |
| Timeclock.RunRowEmployee | app.py:233-248 | every record follows an employee line with no other employee line between them, carries its names, and carries the store in force at its line |
| Timeclock.RunRowOrigin | app.py:236-248 | every record comes from a punch line read while an employee was set |
| Timeclock.RunEmployeeOrigin | app.py:233-235 | the current employee is the one of the last employee line |
| Timeclock.RunStoreOrigin | app.py:228-232 | the store in force is the one of the last store line, and none was set when it is absent |
| Timeclock.TimeclockRowOrigin | app.py:220-249 | every record comes from a punch line of the content that follows an employee line with no employee line between; it carries that employee, that punch and the number of the last store line before it |
| Stores.MergeCollects | app.py:364-369 | a store is in the map iff a kept file has it; its table is its kept files' records in upload order; the count is the number of kept files |
| Stores.SkippedFileChangesNothing | app.py:364 | a file without records or without a store number changes neither the map nor the count |
| Stores.ParseFile | app.py:354-362 | a file with a payroll title in its head is parsed as payroll; else one with a timeclock marker as timeclock; anything else as payroll |
| Stores.StoreRowsNonEmpty | app.py:364-368 | a store has rows exactly when some kept file carries its number |
| Stores.MergeUploads | app.py:339-369 | the loop's map and count are those of the fold `Merge` |
| Groups.Keys | app.py:277 | group keys are distinct and cover every row |
| Groups.GroupsPartition | app.py:277-279 | the group totals add up to the total of all rows |
| Groups.TotalAppend | app.py:366 | totals over concatenated tables add up |
| Records.TotalHoursAppend | app.py:366 | hours of concatenated tables add up |
| Daily.DailyRows | app.py:257 | a record is kept exactly when it is `Clockset` or `Paid Break` |
| Daily.DailyRowsAppend | app.py:257 | filtering distributes over concatenation |
| Daily.FormattedFaithful | app.py:255-269 | `Formatted` (`generate_formatted_data`) has one row per daily record, each of a daily type, stamped with the store number when given, with the same hours in total |
| Daily.FormattedAppend | app.py:255-269 | formatting distributes over concatenation |
| Daily.InPeriod | app.py:273-276 | each kept row is daily, and its date and week are those `get_week_number` gives |
| Daily.InPeriodRows | app.py:273-276 | a record is in the period exactly when it is daily and falls in week 1 or 2 |
| Pivot.WeekSplit | app.py:278 | regular + overtime = week hours, regular <= 40, overtime >= 0, overtime > 0 iff hours > 40 |
| Pivot.WeekSumsConserve | app.py:277 | the weekly table holds the period's hours |
| Pivot.ColumnsAddUp | app.py:278-279 | an employee's regular and overtime sums add up to their total, and overtime is never negative |
| Pivot.PivotRowsBalance | app.py:278-285 | in every row, regular + overtime = total, with or without reported overtime |
| Pivot.PivotOvertimeNonNegative | app.py:278-279 | with no reported overtime, no row has negative overtime |
| Pivot.Override | app.py:283-285 | total, employee and store are kept; an id with reported overtime gets that sum as overtime and the rest as regular; other rows are unchanged |
| Pivot.PivotOverride | app.py:280-285 | `PivotTable` (`generate_pivot_data`) has the rows and totals of the computed table; overtime is the reported sum for ids that have one, and the other rows are unchanged |
| Pivot.PivotRowsFromPeriod | app.py:279-283 | every row is an employee with a punch in the period, so reported overtime alone adds no row |
| Pivot.PivotRowsDistinct | app.py:279 | no employee has two rows |
| Pivot.OverrideAllTotal | app.py:284-285 | the override does not change the total |
| Pivot.PivotConservesHours | app.py:271-285 | the `total` column of `PivotTable` (`generate_pivot_data`) adds up to the hours of the period's punches |
| Pivot.PivotTotalOfEmployee | app.py:277-279 | an employee's `total` is the sum of their weekly hours |
| WageSplit.WagePeriodOf | app.py:298-299 | a punch is in the 2025 period iff its date is strictly before the wage-change date |
| WageSplit.ShareOf | app.py:298-304 | a day's share carries its employee, week and hours, and its wage period is 2025 exactly when its date is strictly before the wage-change date; its weekly total is that of its full group key, as in the corrected merge |
| WageSplit.ShareAddsUp | app.py:303-304 | in a week with positive hours, a day's regular and overtime shares add up to its hours |
| WageSplit.WeekAllocationAddsUp | app.py:300-304 | under the corrected full-key merge, in each week with positive hours, the days' regular shares add up to `min(t, 40)` and their overtime shares to `max(0, t - 40)` |
| WageSplit.PeriodsSplitHours | app.py:305-308 | an employee's 2025 and 2026 hours add up to their hours |
| WageSplit.WageSplitConservesHours | app.py:292-308 | for `WageTable`, the report with the corrected full-key merge, `total_hours_2025 + total_hours_2026` over all rows equals the hours of the period's punches |
| WageSplit.WageSplitMatchesPivot | app.py:300-305 | under the corrected full-key merge, per employee, `total_hours_2025 + total_hours_2026` equals the pivot's `total`; for the merge as written this holds when no id is spelled two ways in a week (`SharesAsWrittenAgrees`) |
| WageSplit.MatchesOwnWeek | app.py:302 | with one spelling per id and week, each day row meets exactly one weekly row, its own |
| WageSplit.SharesAsWrittenAgrees | app.py:300-305 | with one spelling per id and week, the merge on `(emp_id, week)` gives the same day shares as the full-key merge |
| WageSplit.WageTableAgrees | app.py:292-312 | with one spelling per id and week, `WageTableAsWritten` (`generate_wage_split_data` as written) equals `WageTable`, so the lemmas above hold for the program |
| WageSplit.MergeOnIdDuplicatesHours | app.py:302 | with one id under two first names in a week, the merge as written reports 16 hours for 8 clocked, and the corrected merge reports 8 |
| WageSplit.WageTableDuplicatesHours | app.py:292-312 | on the two punch records themselves ("Ann" 5 hours on 01/06/2025, "Anne" 3 hours on 01/07/2025, id 1, period from 6 January 2025), `WageTableAsWritten` reports 16 hours and `WageTable` 8, for 8 clocked |
| WageSplit.WageColumnsByDate | app.py:298-308 | per employee, `total_hours_2025` is the sum of the hours of their punches dated strictly before the wage-change date, and `total_hours_2026` the sum over their other punches |
| WageSplit.WageTableByDate | app.py:292-312 | every row of `WageTable` carries the store number, and its two hours columns are its employee's hours before and from the wage-change date, as above |
| WageSplit.ShareSplitsHours | app.py:303-304 | when no punch has negative hours, every day's regular and overtime shares add up to its hours, including a week without positive hours, where all three are 0 |
| WageSplit.WagePeriodsAddUp | app.py:303-308 | when no punch has negative hours, `regular_2025 + overtime_2025 == total_hours_2025` and `regular_2026 + overtime_2026 == total_hours_2026` for every employee |

## Left out

- The Streamlit page, widgets, progress bar, report generation per sorted store, the concatenation into one workbook and the ZIP packaging (app.py:318-402): user interface and output plumbing.
- The UTF-8 then Latin-1 decoding of uploads (app.py:348-352): the model starts from the decoded content string.
- `datetime.now().year` (app.py:126) is the parameter `currentYear`.
- Hours.Duration: `round(x, 2)` is modelled on the exact decimal value; Python rounds the nearest binary double (2.675 gives 2.67), and binary floating point is not modelled.
- Hours.ParseDecimal: `float()`'s exponents, `inf`, `nan` and digit-group underscores are not accepted.
- Hours.ParseInt: `int()`'s digit-group underscores (`"1_0"`) and non-ASCII digits are not accepted, so such text is NA in the model.
- Python's Unicode digits, whitespace and case folding: the model uses ASCII digits, the whitespace characters of `str.isspace()` and ASCII case folding.
- Dates.ParseMonthDayYear: `strptime` also accepts space-padded fields such as `" 5"`; the model reads only digits.
- Payroll.PayrollPartsQuoted: a first field that is a lone comma is excluded, because the line `",","b"` then holds `","` at its first character and the code splits it there.
- WageSplit.WagePeriodsAddUp: stated for punches without negative hours. With negative hours, a week whose total is not positive gives its days no regular or overtime share, whatever their hours.
- The `.round(2)` applied to the pivot and wage-split tables (app.py:290, 312): the model keeps exact sums.
- The order of report rows: pandas `groupby` and the outer merge sort their keys, while the model lists keys in first-appearance order. The sets of rows and their values are the same.
- The constant `name` column (app.py:287, 310) and the column renaming (app.py:288-289, 311) carry no information.
- The `except` branch of `detect_file_format` (app.py:108-109) cannot fire on a string.
- The `'Clockset  '` alternative at app.py:241 can never match a stripped type and has no effect.
- Missing hours (NA) count as 0 in sums, as pandas `sum` skips them.
- The empty-frame early returns of the three generators (app.py:256, 272-274, 293-295) return an empty table; the model's functions return empty tables for the same inputs.
- The left merge and `fillna(0)` of the wage split's 2025 and 2026 columns are modelled as sums that are 0 for a missing period.

## Findings

| source | as written | input that shows it | evidently intended | confidence | as-written member | corrected member |
|---|---|---|---|---|---|---|
| app.py:302 | the weekly totals, grouped by `(emp_id, first_name, last_name, week)`, are merged back onto the day rows on `['emp_id', 'week']` only | employee id 1 with a 5-hour punch as "Ann" and a 3-hour punch as "Anne" in week 1: each day row matches both weekly rows, so the split reports 16 hours for 8 clocked | merge on the full group key `(emp_id, first_name, last_name, week)`, so each day row matches its own week once | not executed | WageSplit.WageTableDuplicatesHours | WageSplit.WageSplitConservesHours |
