/**
 * `parse_payroll_structure` (app.py:115-214): a scan over the lines of a payroll report that
 * keeps the current store number and emits one row per weekday punch row and per overtime
 * correction, followed by a pass that names each overtime correction after the employee whose
 * id it prefixes, or drops it.
 */
module Payroll {
  import opened Wrappers
  import opened Text
  import opened Patterns
  import opened Dates
  import opened Hours
  import opened Records

  // ---------------------------------------------------------------------------
  // the period header

  /** The month and year the pay period starts in, as the header gives them. */
  datatype Header = Header(month: int, year: int)

  /**
   * The first `Period: MM/DD/YYYY` of the file gives the month and year; without one the
   * period is taken to start in December of `currentYear` (`datetime.now().year`).
   */
  function ReadHeader(content: string, currentYear: int): (h: Header)
    ensures FindPeriod(content, 0).None? ==> h == Header(12, currentYear)
    ensures FindPeriod(content, 0).Some? ==> h.month >= 0 && h.year >= 0
  {
    match FindPeriod(content, 0)
    case None => Header(12, currentYear)
    case Some(i) => Header(DigitsValue(content[i + 8..i + 10]), DigitsValue(content[i + 14..i + 18]))
  }

  /** A file that opens with a period header of a real date has that date's month and year. */
  lemma {:induction false} ReadHeaderOfDate(d: Date, rest: string, currentYear: int)
    requires ValidDate(d)
    ensures ReadHeader("Period: " + FormatMonthDayYear(d) + rest, currentYear) == Header(d.month, d.year)
  {
    var m, dd, y := ZeroPad(d.month as nat, 2), ZeroPad(d.day as nat, 2), ZeroPad(d.year as nat, 4);
    NatTextLength(d.month as nat, 2);
    NatTextLength(d.day as nat, 2);
    NatTextLength(d.year as nat, 4);
    PeriodFields(m, dd, y, rest);
  }

  lemma PeriodFields(m: string, dd: string, y: string, rest: string)
    requires |m| == 2 && |dd| == 2 && |y| == 4 && IsDigits(m) && IsDigits(dd) && IsDigits(y)
    ensures var s := "Period: " + (m + "/" + dd + "/" + y) + rest;
            PeriodAt(s, 0) && s[8..10] == m && s[14..18] == y
  {
    var s := "Period: " + (m + "/" + dd + "/" + y) + rest;
    assert s[8..10] == m && s[11..13] == dd && s[14..18] == y;
    assert s[..8] == "Period: ";
  }

  // ---------------------------------------------------------------------------
  // one line

  /** What one line does to the scan. */
  datatype LineEffect = Skip | SetStore(number: string) | Emit(row: PunchRecord)

  /** A line naming the brand (case-sensitive, as the `in` tests are). */
  predicate IsStoreLine(line: string) {
    Contains(line, "Popeye's") || Contains(line, "Popeyes") || Contains(line, "POPEYES")
  }

  predicate IsWeekday(s: string) {
    s in ["Mon", "Tue", "Wed", "Thu", "Fri", "Sat", "Sun"]
  }

  /**
   * The columns of a line: split on `","` when it occurs (each field stripped of blanks and
   * quotes, a leading quote of the first and trailing quotes or newlines of the last removed),
   * else on `,` when the line does not start with a quote; otherwise the line has no columns.
   */
  function PayrollParts(line: string): (r: Option<seq<string>>)
    ensures r.Some? ==> |r.value| >= 1
    ensures r.Some? <==> Contains(line, "\",\"") || (Contains(line, ",") && !IsPrefix("\"", line))
  {
    if Contains(line, "\",\"") then
      var ps := StripFieldsAndQuotes(Split(line, "\",\""));
      var first := ps[0 := LStripSet(ps[0], Quote)];
      Some(first[|first| - 1 := RStripSet(first[|first| - 1], QuoteOrNewline)])
    else if Contains(line, ",") && !IsPrefix("\"", line) then Some(StripFields(Split(line, ",")))
    else None
  }

  /** Plain fields without commas, joined with `,`, come back as the columns of the line. */
  lemma {:induction false} PayrollPartsUnquoted(fs: seq<string>)
    requires |fs| >= 2
    requires forall i :: 0 <= i < |fs| ==> PlainField(fs[i]) && Avoids(fs[i], ',')
    ensures PayrollParts(Join(fs, ",")) == Some(fs)
  {
    var line := Join(fs, ",");
    assert !Contains(line, "\",\"") by {
      JoinAvoids(fs, ",", '"');
      NoQuoteCommaQuote(line);
    }
    assert Contains(line, ",") && !IsPrefix("\"", line) by {
      JoinCons(fs[0], fs[1..], ",");
      assert fs == [fs[0]] + fs[1..];
      assert line[|fs[0]|..|fs[0]| + 1] == ",";
      ContainsAt(line, ",", |fs[0]|);
      JoinAvoids(fs, ",", '"');
      assert |line| >= 1 ==> line[..1][0] == line[0];
    }
    assert Split(line, ",") == fs by {
      forall i | 0 <= i < |fs|
        ensures !Contains(fs[i] + ","[..0], ",")
      {
        assert fs[i] + ","[..0] == fs[i];
        CharAbsent(fs[i], ',');
      }
      SplitJoinPieces(fs, ",");
    }
    forall i | 0 <= i < |fs|
      ensures Strip(fs[i]) == fs[i]
    {
      PlainFieldStrips(fs[i]);
    }
    UnquotedColumns(line, fs);
  }

  /** A line split on `,` into stripped fields has those fields as columns. */
  lemma UnquotedColumns(line: string, fs: seq<string>)
    requires !Contains(line, "\",\"") && Contains(line, ",") && !IsPrefix("\"", line)
    requires Split(line, ",") == fs && forall i :: 0 <= i < |fs| ==> Strip(fs[i]) == fs[i]
    ensures PayrollParts(line) == Some(fs)
  {
    assert StripFields(fs) == fs;
  }

  /** The fields of a quoted line as the split on `","` cuts them: the quotes at its ends stay on. */
  function QuotedPieces(fs: seq<string>): (gs: seq<string>)
    requires |fs| >= 2
    ensures |gs| == |fs| && gs[0] == "\"" + fs[0] && gs[|fs| - 1] == fs[|fs| - 1] + "\""
    ensures forall i :: 0 < i < |fs| - 1 ==> gs[i] == fs[i]
  {
    fs[0 := "\"" + fs[0]][|fs| - 1 := fs[|fs| - 1] + "\""]
  }

  lemma {:induction false} QuotedLineJoin(fs: seq<string>)
    requires |fs| >= 2
    ensures "\"" + Join(fs, "\",\"") + "\"" == Join(QuotedPieces(fs), "\",\"")
  {
    var sep := "\",\"";
    var g0 := fs[0 := "\"" + fs[0]];
    assert Join(g0, sep) == "\"" + Join(fs, sep) by {
      assert g0[1..] == fs[1..];
    }
    JoinAppendLast(g0, sep, "\"");
    assert QuotedPieces(fs) == g0[|fs| - 1 := g0[|fs| - 1] + "\""];
  }

  lemma {:induction false} QuotedLineSplit(fs: seq<string>)
    requires |fs| >= 2 && fs[0] != ","
    requires forall i :: 0 <= i < |fs| ==> PlainField(fs[i])
    ensures Split(Join(QuotedPieces(fs), "\",\""), "\",\"") == QuotedPieces(fs)
  {
    var sep := "\",\"";
    var gs := QuotedPieces(fs);
    assert sep[..2] == "\",";
    OpenQuoteFree(fs[0]);
    forall i | 0 <= i < |gs| - 1
      ensures !Contains(gs[i] + sep[..2], sep)
    {
      if i > 0 { InnerFree(fs[i]); }
    }
    CloseQuoteFree(fs[|fs| - 1]);
    SplitJoinPieces(gs, sep);
  }

  lemma {:induction false} QuotedPiecesStrip(fs: seq<string>)
    requires |fs| >= 2
    requires forall i :: 0 <= i < |fs| ==> PlainField(fs[i])
    ensures StripFieldsAndQuotes(QuotedPieces(fs)) == fs
  {
    var ps := StripFieldsAndQuotes(QuotedPieces(fs));
    forall i | 0 <= i < |fs|
      ensures ps[i] == fs[i]
    {
      if i == 0 {
        StripOpenQuote(fs[0]);
      } else if i == |fs| - 1 {
        StripCloseQuote(fs[i]);
      } else {
        PlainFieldStrips(fs[i]);
      }
    }
  }

  /**
   * Plain fields, each quoted and joined with `,` (the line `"f0","f1",…,"fn"`), come back as
   * the columns of the line; commas inside a field are kept. A first field that is a lone
   * comma is not: the line then starts with `","` and splits there.
   */
  lemma {:induction false} PayrollPartsQuoted(fs: seq<string>)
    requires |fs| >= 2 && fs[0] != ","
    requires forall i :: 0 <= i < |fs| ==> PlainField(fs[i])
    ensures PayrollParts("\"" + Join(fs, "\",\"") + "\"") == Some(fs)
  {
    QuotedLineCuts(fs);
    QuotedColumns("\"" + Join(fs, "\",\"") + "\"", fs);
  }

  /** A line holding `","` that is cut into the quoted pieces of plain fields has those fields as columns. */
  lemma {:induction false} QuotedColumns(line: string, fs: seq<string>)
    requires |fs| >= 2 && forall i :: 0 <= i < |fs| ==> PlainField(fs[i])
    requires Contains(line, "\",\"") && Split(line, "\",\"") == QuotedPieces(fs)
    ensures PayrollParts(line) == Some(fs)
  {
    var ps := StripFieldsAndQuotes(Split(line, "\",\""));
    var n := |fs|;
    assert ps == fs by { QuotedPiecesStrip(fs); }
    assert LStripSet(fs[0], Quote) == fs[0] by { PlainFieldStrips(fs[0]); }
    assert RStripSet(fs[n - 1], QuoteOrNewline) == fs[n - 1] by { PlainFieldStrips(fs[n - 1]); }
    OuterQuotesGone(ps, fs);
  }

  /** Removing a leading quote from the first column and trailing quotes from the last changes nothing when there are none. */
  lemma OuterQuotesGone(ps: seq<string>, fs: seq<string>)
    requires ps == fs && |fs| >= 1
    requires LStripSet(fs[0], Quote) == fs[0] && RStripSet(fs[|fs| - 1], QuoteOrNewline) == fs[|fs| - 1]
    ensures var first := ps[0 := LStripSet(ps[0], Quote)];
            first[|first| - 1 := RStripSet(first[|first| - 1], QuoteOrNewline)] == fs
  {
  }

  /** A quoted line holds `","` and is cut into its quoted pieces. */
  lemma {:induction false} QuotedLineCuts(fs: seq<string>)
    requires |fs| >= 2 && fs[0] != ","
    requires forall i :: 0 <= i < |fs| ==> PlainField(fs[i])
    ensures var line := "\"" + Join(fs, "\",\"") + "\"";
            Contains(line, "\",\"") && Split(line, "\",\"") == QuotedPieces(fs)
  {
    var sep := "\",\"";
    var line := "\"" + Join(fs, sep) + "\"";
    assert line[|fs[0]| + 1..|fs[0]| + 4] == sep by {
      JoinCons(fs[0], fs[1..], sep);
      assert fs == [fs[0]] + fs[1..];
    }
    ContainsAt(line, sep, |fs[0]| + 1);
    QuotedLineJoin(fs);
    QuotedLineSplit(fs);
  }

  /** A text in which no quote is followed by a comma and a quote does not contain `","`. */
  lemma {:induction false} NoQuoteCommaQuote(s: string)
    requires forall k :: 0 <= k < |s| - 2 ==> !(s[k] == '"' && s[k + 1] == ',' && s[k + 2] == '"')
    ensures !Contains(s, "\",\"")
  {
    forall v: nat | v + 3 <= |s|
      ensures !OccursAt(s, "\",\"", v)
    {
      assert s[v..v + 3][0] == s[v] && s[v..v + 3][1] == s[v + 1] && s[v..v + 3][2] == s[v + 2];
    }
  }

  lemma {:induction false} InnerFree(f: string)
    requires Avoids(f, '"')
    ensures !Contains(f + "\",", "\",\"")
  {
    NoQuoteCommaQuote(f + "\",");
  }

  lemma {:induction false} CloseQuoteFree(f: string)
    requires Avoids(f, '"')
    ensures !Contains(f + "\"", "\",\"")
  {
    NoQuoteCommaQuote(f + "\"");
  }

  lemma {:induction false} OpenQuoteFree(f: string)
    requires Avoids(f, '"') && f != ","
    ensures !Contains("\"" + f + "\",", "\",\"")
  {
    var s := "\"" + f + "\",";
    if |f| == 1 {
      assert f == [f[0]];
    }
    NoQuoteCommaQuote(s);
  }

  /** `re.sub(r'--.*', '', s)`: the text before the first `--`. */
  function CutAtDoubleDash(s: string): (r: string)
    ensures IsPrefix(r, s) && !Contains(r, "--")
    ensures !Contains(s, "--") ==> r == s
    ensures Contains(s, "--") ==> IndexOf(s, "--") == Some(|r|)
  {
    match IndexOf(s, "--")
    case None => s
    case Some(i) => NoEarlierOccurrence(s, "--"); s[..i]
  }

  /**
   * The date column of a punch row: a `DD-Mon` fragment whose month abbreviation is found is
   * completed with the inferred year and rewritten as `MM/DD/YYYY`; anything else, including
   * a fragment `strptime` rejects, stays as it is.
   */
  function FullDate(dateText: string, header: Header): (r: string)
    ensures !Contains(dateText, "-") || FirstMonth(dateText, 0).None? ==> r == dateText
    ensures r != dateText ==> ParseMonthDayYear(r).Some?
  {
    if !Contains(dateText, "-") then dateText
    else match FirstMonth(dateText, 0)
      case None => dateText
      case Some(m) =>
        var year := InferYear(header.month, header.year, m);
        match ParseDayMonthYear(dateText + "-" + IntText(year))
        case None => dateText
        case Some(d) => FormatThenParse(d); FormatMonthDayYear(d)
  }

  /** Each English abbreviation reads, ignoring case, as its own month. */
  lemma MonthNumberOfAbbreviation(m: nat)
    requires 1 <= m <= 12
    ensures MonthNumberIgnoringCase(MonthAbbreviations[m - 1]) == m
  {
    var a := MonthAbbreviations[m - 1];
    var w := LowerText(a);
    assert w == [Lower(a[0]), Lower(a[1]), Lower(a[2])];
    if m <= 6 {
      assert w == ["jan", "feb", "mar", "apr", "may", "jun"][m - 1];
    } else {
      assert w == ["jul", "aug", "sep", "oct", "nov", "dec"][m - 7];
    }
  }

  /** In `DD-Mon` the first abbreviation found is the one after the `-`. */
  lemma {:induction false} FragmentMonth(dd: string, m: nat)
    requires 1 <= |dd| <= 2 && IsDigits(dd) && 1 <= m <= 12
    ensures var s := dd + "-" + MonthAbbreviations[m - 1];
            Contains(s, "-") && FirstMonth(s, 0) == Some(m)
  {
    var s := dd + "-" + MonthAbbreviations[m - 1];
    assert s[|dd|] == '-';
    CharPresent(s, "-"[0], |dd|);
    forall k | 0 <= k <= |dd|
      ensures MonthAt(s, k) == 0
    {
      if k < |dd| {
        assert s[k] == dd[k];
      }
      NoMonthAt(s, k);
    }
    assert s[|dd| + 1..|dd| + 4] == MonthAbbreviations[m - 1];
    MonthAtAbbreviation(s, |dd| + 1, m);
    FirstMonthAt(s, 0, |dd| + 1);
  }

  /** A year of four digits is written with four digits. */
  lemma YearText(y: int)
    requires 1000 <= y <= 9999
    ensures IntText(y) == NatText(y) && |NatText(y)| == 4
  {
    assert Pow10(3) == 1000 && Pow10(4) == 10000;
    NatTextLength(y, 4);
    NatTextAtLeast(y, 4);
  }

  /**
   * A `DD-Mon` fragment becomes `MM/DD/YYYY` with the year inferred from the header when
   * that day exists in that month and year, and stays as it is otherwise (`31-Feb`).
   */
  lemma {:induction false} FullDateFields(dd: string, m: nat, header: Header)
    requires 1 <= |dd| <= 2 && IsDigits(dd) && 1 <= m <= 12
    requires 1000 <= InferYear(header.month, header.year, m) <= 9999
    ensures var d := Date(InferYear(header.month, header.year, m), m, DigitsValue(dd));
            FullDate(dd + "-" + MonthAbbreviations[m - 1], header)
            == if ValidDate(d) then FormatMonthDayYear(d) else dd + "-" + MonthAbbreviations[m - 1]
  {
    var mon := MonthAbbreviations[m - 1];
    var y := InferYear(header.month, header.year, m);
    FragmentMonth(dd, m);
    YearText(y);
    MonthNumberOfAbbreviation(m);
    ParseDayMonthYearFields(dd, mon, NatText(y));
    assert dd + "-" + mon + "-" + IntText(y) == dd + "-" + mon + "-" + NatText(y);
  }

  /** What a weekday punch row emits, stated field by field. */
  predicate FromPunchRow(parts: seq<string>, header: Header, r: PunchRecord)
    requires |parts| >= 11
  {
    IsWeekday(Strip(parts[0])) && r.day == Strip(parts[0])
    && r.kind == Clockset
    && Strip(parts[3]) != "--" && Strip(parts[3]) != ""
    && r.hours.Some? && r.hours == FloatHours(Strip(parts[3]))
    && r.duration == Strip(parts[2])
    && r.empId != [] && r.empId == LeadingDigits(Strip(parts[6]))
    && r.firstName == Strip(CutAtDoubleDash(Strip(parts[8])))
    && r.lastName == Strip(CutAtDoubleDash(Strip(parts[9])))
    && r.date == FullDate(Strip(parts[1]), header)
    && r.startTime == "" && r.endTime == ""
  }

  /**
   * A row whose first column is a weekday and that has at least 11 columns becomes a
   * `Clockset` row when it has an employee id (the leading digits of column 6) and a
   * decimal duration (column 3) that is not `--`, not empty and readable by `float()`.
   */
  function PunchRow(parts: seq<string>, header: Header): (e: LineEffect)
    requires |parts| >= 1
    ensures e.Skip? || e.Emit?
    ensures e.Emit? ==> |parts| >= 11 && FromPunchRow(parts, header, e.row) && e.row.store.None?
    ensures (e.Skip? && |parts| >= 11 && IsWeekday(Strip(parts[0])) && LeadingDigits(Strip(parts[6])) != []
             && Strip(parts[3]) != "--") ==> FloatHours(Strip(parts[3])).None?
  {
    var day := Strip(parts[0]);
    if !IsWeekday(day) || |parts| < 11 then Skip
    else
      var decimalText := Strip(parts[3]);
      var empId := LeadingDigits(Strip(parts[6]));
      if decimalText == "--" || decimalText == [] || empId == [] then Skip
      else match FloatHours(decimalText)
        case None => Skip
        case Some(h) =>
          Emit(PunchRecord(empId, Strip(CutAtDoubleDash(Strip(parts[8]))), Strip(CutAtDoubleDash(Strip(parts[9]))),
                           day, FullDate(Strip(parts[1]), header), "", "", Clockset, Strip(parts[2]), Some(h), None))
  }

  /** What an overtime-correction line emits. */
  predicate FromOvertimeLine(line: string, r: PunchRecord) {
    OvertimeFields(line).Some?
    && r.empId == Strip(OvertimeFields(line).value.0) && r.duration == Strip(OvertimeFields(line).value.1)
    && r.kind == OvertimeReported && r.firstName == "OVERTIME" && r.lastName == "REPORTED"
    && r.day == "" && r.date == "" && r.startTime == "" && r.endTime == ""
    && r.hours.Some? && r.hours == FloatHours(r.duration)
  }

  /** A line without columns of the form `id hours` is an overtime correction. */
  function OvertimeRow(line: string): (e: LineEffect)
    ensures e.Skip? || e.Emit?
    ensures e.Emit? ==> FromOvertimeLine(line, e.row) && e.row.store.None?
    ensures e.Skip? && OvertimeFields(line).Some? ==> FloatHours(Strip(OvertimeFields(line).value.1)).None?
  {
    match OvertimeFields(line)
    case None => Skip
    case Some(fields) =>
      var text := Strip(fields.1);
      match FloatHours(text)
      case None => Skip
      case Some(h) => Emit(PunchRecord(Strip(fields.0), "OVERTIME", "REPORTED", "", "", "", "", OvertimeReported, text, Some(h), None))
  }

  /** The body of the line loop (app.py:128-203), for one raw line. */
  function ClassifyLine(raw: string, header: Header): LineEffect {
    var line := Strip(raw);
    if line == [] then Skip
    else if IsStoreLine(line) then
      match StoreNumber(line)
      case Some(n) => SetStore(n)
      case None => Skip
    else match PayrollParts(line)
      case None => OvertimeRow(line)
      case Some(parts) => PunchRow(parts, header)
  }

  /**
   * What a line can do: a blank line nothing; a store line at most set the store number; a
   * row is emitted only by a weekday punch row with columns or by an overtime line without.
   */
  lemma ClassifyLineCases(raw: string, header: Header)
    ensures var e := ClassifyLine(raw, header);
            && (Strip(raw) == [] ==> e.Skip?)
            && (e.SetStore? ==> IsStoreLine(Strip(raw)) && StoreNumber(Strip(raw)) == Some(e.number))
            && (IsStoreLine(Strip(raw)) ==> !e.Emit?)
            && (e.Emit? ==> e.row.store.None?)
            && (e.Emit? && e.row.kind == Clockset ==>
                  var parts := PayrollParts(Strip(raw));
                  parts.Some? && |parts.value| >= 11 && FromPunchRow(parts.value, header, e.row))
            && (e.Emit? && e.row.kind != Clockset ==>
                  PayrollParts(Strip(raw)).None? && FromOvertimeLine(Strip(raw), e.row))
  {
  }

  // ---------------------------------------------------------------------------
  // the scan

  /** The loop's variables: the rows so far (`data`) and the current `store_no`. */
  datatype ScanState = ScanState(rows: seq<PunchRecord>, store: Option<string>)

  function Apply(st: ScanState, e: LineEffect): ScanState {
    match e
    case Skip => st
    case SetStore(n) => st.(store := Some(n))
    case Emit(r) => st.(rows := st.rows + [r.(store := st.store)])
  }

  /** The lines of the file as `StringIO` yields them, less their line ends (stripped anyway). */
  function Lines(content: string): seq<string> {
    Split(content, "\n")
  }

  /** The effects of the lines, in order. */
  function Effects(lines: seq<string>, header: Header): (es: seq<LineEffect>)
    ensures |es| == |lines|
    decreases |lines|
  {
    if lines == [] then [] else Effects(lines[..|lines| - 1], header) + [ClassifyLine(lines[|lines| - 1], header)]
  }

  lemma {:induction false} EffectsAt(lines: seq<string>, header: Header, j: nat)
    requires j < |lines|
    ensures Effects(lines, header)[j] == ClassifyLine(lines[j], header)
    decreases |lines|
  {
    if j < |lines| - 1 {
      EffectsAt(lines[..|lines| - 1], header, j);
      assert lines[..|lines| - 1][j] == lines[j];
    }
  }

  /** The state after the given effects, from an empty scan. */
  function Run(es: seq<LineEffect>): ScanState
    decreases |es|
  {
    if es == [] then ScanState([], None) else Apply(Run(es[..|es| - 1]), es[|es| - 1])
  }

  /** Each row a run holds was emitted by one of the effects, with the store in force before it. */
  lemma {:induction false} RunRowOrigin(es: seq<LineEffect>, k: nat)
    requires k < |Run(es).rows|
    ensures exists j :: 0 <= j < |es| && es[j].Emit? && es[j].row.(store := Run(es[..j]).store) == Run(es).rows[k]
    decreases |es|
  {
    var init := es[..|es| - 1];
    var before := Run(init);
    if k < |before.rows| {
      RunRowOrigin(init, k);
      var j :| 0 <= j < |init| && init[j].Emit? && init[j].row.(store := Run(init[..j]).store) == before.rows[k];
      assert init[j] == es[j] && init[..j] == es[..j];
      assert Run(es).rows[k] == before.rows[k];
    } else {
      var j := |es| - 1;
      assert es[..j] == init;
    }
  }

  /** The store of a run is the number of its last `SetStore`, or none when there is none. */
  lemma {:induction false} RunStoreOrigin(es: seq<LineEffect>)
    ensures Run(es).store.Some? ==>
              exists j :: 0 <= j < |es| && es[j] == SetStore(Run(es).store.value)
                          && forall i :: j < i < |es| ==> !es[i].SetStore?
    ensures Run(es).store.None? ==> forall i :: 0 <= i < |es| ==> !es[i].SetStore?
    decreases |es|
  {
    if es != [] {
      var init := es[..|es| - 1];
      RunStoreOrigin(init);
      if !es[|es| - 1].SetStore? {
        assert Run(es).store == Run(init).store;
        if Run(init).store.Some? {
          var j :| 0 <= j < |init| && init[j] == SetStore(Run(init).store.value)
                   && forall i :: j < i < |init| ==> !init[i].SetStore?;
          assert es[j] == init[j];
          forall i | j < i < |es|
            ensures !es[i].SetStore?
          {
            if i < |init| { assert es[i] == init[i]; }
          }
        } else {
          forall i | 0 <= i < |es|
            ensures !es[i].SetStore?
          {
            if i < |init| { assert es[i] == init[i]; }
          }
        }
      }
    }
  }

  /** The rows and store after all lines of a file, before the post-pass. */
  function Scan(lines: seq<string>, header: Header): ScanState {
    Run(Effects(lines, header))
  }

  // ---------------------------------------------------------------------------
  // naming the overtime corrections

  /** A row of `name_map` whose id starts with `id`. */
  predicate Candidate(r: PunchRecord, id: string) {
    r.kind == Clockset && IsPrefix(id, r.empId)
  }

  /**
   * The `name_map` row the post-pass picks for an overtime id: among the `Clockset` rows whose
   * id starts with it, the least id in string order (`name_map` is sorted by id), and of the
   * rows with that id the first (`'first'` aggregation). The result indexes `table`.
   */
  function BestMatch(table: seq<PunchRecord>, id: string): (b: Option<nat>)
    ensures b.Some? ==> b.value < |table| && Candidate(table[b.value], id)
    decreases |table|
  {
    if table == [] then None
    else
      var b := BestMatch(table[..|table| - 1], id);
      var last := |table| - 1;
      if !Candidate(table[last], id) then b
      else if b.None? || LexLess(table[last].empId, table[b.value].empId) then Some(last)
      else b
  }

  /** No match means no `Clockset` id starts with the overtime id. */
  lemma {:induction false} BestMatchNone(table: seq<PunchRecord>, id: string, j: nat)
    requires BestMatch(table, id).None? && j < |table|
    ensures !Candidate(table[j], id)
    decreases |table|
  {
    if j < |table| - 1 {
      assert table[..|table| - 1][j] == table[j];
      BestMatchNone(table[..|table| - 1], id, j);
    }
  }

  /** The match has the least id of all candidates, and no earlier candidate has the same id. */
  lemma {:induction false} BestMatchLeast(table: seq<PunchRecord>, id: string, j: nat)
    requires BestMatch(table, id).Some? && j < |table| && Candidate(table[j], id)
    ensures var b := BestMatch(table, id).value;
            !LexLess(table[j].empId, table[b].empId) && (j < b ==> table[j].empId != table[b].empId)
    decreases |table|
  {
    var init := table[..|table| - 1];
    var last := |table| - 1;
    var b0 := BestMatch(init, id);
    var b := BestMatch(table, id).value;
    if j < last {
      assert init[j] == table[j];
      if b0.None? {
        BestMatchNone(init, id, j);
      } else {
        BestMatchLeast(init, id, j);
        assert init[b0.value] == table[b0.value];
        if b == last {
          // the last row beat the earlier match, so it is below every earlier candidate
          if LexLess(table[j].empId, table[b].empId) {
            LexLessTransitive(table[j].empId, table[b].empId, table[b0.value].empId);
            assert false;
          }
          if table[j].empId == table[b].empId {
            assert false;
          }
        }
      }
    } else if b != last {
      assert b0.Some? && b == b0.value && !LexLess(table[last].empId, table[b].empId);
    } else {
      LexLessIrreflexive(table[j].empId);
    }
  }

  /** One row after the post-pass: an overtime row is named after its match or dropped. */
  function Renamed(table: seq<PunchRecord>, r: PunchRecord): (o: Option<PunchRecord>)
    ensures r.kind != OvertimeReported ==> o == Some(r)
    ensures o.Some? ==> o.value.kind == r.kind && o.value.empId == r.empId && o.value.hours == r.hours
  {
    if r.kind != OvertimeReported then Some(r)
    else match BestMatch(table, r.empId)
      case None => None
      case Some(b) => Some(r.(firstName := table[b].firstName, lastName := table[b].lastName))
  }

  /** The rows of `rs` that survive the post-pass, as named by `table`. */
  function ResolveRows(table: seq<PunchRecord>, rs: seq<PunchRecord>): seq<PunchRecord>
    decreases |rs|
  {
    if rs == [] then []
    else
      var r := Renamed(table, rs[|rs| - 1]);
      ResolveRows(table, rs[..|rs| - 1]) + (if r.Some? then [r.value] else [])
  }

  /** `df[df['type'] == 'Clockset']` */
  function ClocksetRows(rs: seq<PunchRecord>): (c: seq<PunchRecord>)
    ensures forall i :: 0 <= i < |c| ==> c[i].kind == Clockset
    decreases |rs|
  {
    if rs == [] then []
    else ClocksetRows(rs[..|rs| - 1]) + (if rs[|rs| - 1].kind == Clockset then [rs[|rs| - 1]] else [])
  }

  /** The post-pass leaves the `Clockset` rows exactly as they were, in order. */
  lemma {:induction false} ResolveKeepsClocksets(table: seq<PunchRecord>, rs: seq<PunchRecord>)
    ensures ClocksetRows(ResolveRows(table, rs)) == ClocksetRows(rs)
    decreases |rs|
  {
    if rs != [] {
      var init := rs[..|rs| - 1];
      var r := Renamed(table, rs[|rs| - 1]);
      ResolveKeepsClocksets(table, init);
      var tail := if r.Some? then [r.value] else [];
      ClocksetRowsAppend(ResolveRows(table, init), tail);
    }
  }

  lemma {:induction false} ClocksetRowsAppend(a: seq<PunchRecord>, b: seq<PunchRecord>)
    requires |b| <= 1
    ensures ClocksetRows(a + b) == ClocksetRows(a) + ClocksetRows(b)
  {
    if b == [] {
      assert a + b == a;
    } else {
      assert (a + b)[..|a + b| - 1] == a;
      assert b[..0] == [];
    }
  }

  /**
   * Every overtime row that survives the post-pass carries an id that starts some `Clockset`
   * id of the table, and that employee's first and last name.
   */
  lemma {:induction false} ResolvedOvertimeNamed(table: seq<PunchRecord>, rs: seq<PunchRecord>, k: nat)
    requires k < |ResolveRows(table, rs)| && ResolveRows(table, rs)[k].kind == OvertimeReported
    ensures var r := ResolveRows(table, rs)[k];
            exists c :: c in table && Candidate(c, r.empId) && r.firstName == c.firstName && r.lastName == c.lastName
    decreases |rs|
  {
    var init := rs[..|rs| - 1];
    var o := Renamed(table, rs[|rs| - 1]);
    if k < |ResolveRows(table, init)| {
      ResolvedOvertimeNamed(table, init, k);
      assert ResolveRows(table, rs)[k] == ResolveRows(table, init)[k];
    } else {
      var b := BestMatch(table, rs[|rs| - 1].empId).value;
      assert table[b] in table;
    }
  }

  /** An overtime row is dropped exactly when its id starts no `Clockset` id of the table. */
  lemma {:induction false} DroppedIffUnmatched(table: seq<PunchRecord>, r: PunchRecord)
    ensures Renamed(table, r).None? <==>
            r.kind == OvertimeReported && forall j :: 0 <= j < |table| ==> !Candidate(table[j], r.empId)
  {
    if r.kind == OvertimeReported && BestMatch(table, r.empId).None? {
      forall j | 0 <= j < |table|
        ensures !Candidate(table[j], r.empId)
      {
        BestMatchNone(table, r.empId, j);
      }
    }
  }

  /** A row as the post-pass leaves it in the frame: renamed when it has a match, else as it was. */
  function NamedRow(table: seq<PunchRecord>, r: PunchRecord): PunchRecord {
    if Renamed(table, r).Some? then Renamed(table, r).value else r
  }

  /**
   * The post-pass on the rows in place (app.py:203-213): overtime rows get the names of their
   * match, unmatched ones are marked and left out of the result.
   */
  method ResolveOvertime(rows: array<PunchRecord>) returns (kept: seq<PunchRecord>)
    modifies rows
    ensures kept == ResolveRows(old(rows[..]), old(rows[..]))
    ensures forall i :: 0 <= i < rows.Length ==> rows[i] == NamedRow(old(rows[..]), old(rows[i]))
  {
    var table := rows[..];
    var dropped := NameOvertimeRows(rows, table);
    kept := Survivors(rows, dropped, table);
  }

  /** The loop over the overtime rows: rename in place, or mark for dropping. */
  method NameOvertimeRows(rows: array<PunchRecord>, table: seq<PunchRecord>) returns (dropped: array<bool>)
    requires rows[..] == table
    modifies rows
    ensures fresh(dropped) && dropped.Length == rows.Length
    ensures forall j :: 0 <= j < rows.Length ==> dropped[j] == Renamed(table, table[j]).None?
    ensures forall j :: 0 <= j < rows.Length ==> rows[j] == NamedRow(table, table[j])
  {
    dropped := new bool[rows.Length];
    var i := 0;
    while i < rows.Length
      invariant 0 <= i <= rows.Length
      invariant rows[i..] == table[i..]
      invariant forall j :: 0 <= j < i ==>
                  rows[j] == NamedRow(table, table[j]) && dropped[j] == Renamed(table, table[j]).None?
    {
      assert rows[i] == rows[i..][0];
      var r := rows[i];
      NamedRowCases(table, r);
      if r.kind == OvertimeReported {
        var b := BestMatch(table, r.empId);
        if b.Some? {
          rows[i] := r.(firstName := table[b.value].firstName, lastName := table[b.value].lastName);
          dropped[i] := false;
        } else {
          dropped[i] := true;
        }
      } else {
        dropped[i] := false;
      }
      i := i + 1;
    }
  }

  lemma NamedRowCases(table: seq<PunchRecord>, r: PunchRecord)
    ensures r.kind != OvertimeReported ==> Renamed(table, r).Some? && NamedRow(table, r) == r
    ensures r.kind == OvertimeReported && BestMatch(table, r.empId).None? ==>
              Renamed(table, r).None? && NamedRow(table, r) == r
    ensures r.kind == OvertimeReported && BestMatch(table, r.empId).Some? ==>
              var b := BestMatch(table, r.empId).value;
              Renamed(table, r).Some? && NamedRow(table, r) == r.(firstName := table[b].firstName, lastName := table[b].lastName)
  {
  }

  /** `df` after `df.drop(index)` of every marked row. */
  method Survivors(rows: array<PunchRecord>, dropped: array<bool>, table: seq<PunchRecord>) returns (kept: seq<PunchRecord>)
    requires dropped.Length == rows.Length == |table|
    requires forall j :: 0 <= j < rows.Length ==> dropped[j] == Renamed(table, table[j]).None?
    requires forall j :: 0 <= j < rows.Length ==> rows[j] == NamedRow(table, table[j])
    ensures kept == ResolveRows(table, table)
  {
    kept := [];
    var i := 0;
    while i < rows.Length
      invariant 0 <= i <= rows.Length
      invariant kept == ResolveRows(table, table[..i])
    {
      assert table[..i + 1][..i] == table[..i];
      if !dropped[i] {
        kept := kept + [rows[i]];
      }
      i := i + 1;
    }
    assert table[..rows.Length] == table;
  }

  // ---------------------------------------------------------------------------
  // the whole parser

  /** What `parse_payroll_structure` returns: the rows after the post-pass, and the last store number. */
  function PayrollResult(content: string, currentYear: int): (seq<PunchRecord>, Option<string>) {
    var st := Scan(Lines(content), ReadHeader(content, currentYear));
    (ResolveRows(st.rows, st.rows), st.store)
  }

  /** `parse_payroll_structure(content)`, with the current year passed in. */
  method ParsePayroll(content: string, currentYear: int) returns (rows: seq<PunchRecord>, store: Option<string>)
    ensures (rows, store) == PayrollResult(content, currentYear)
  {
    var header := ReadHeader(content, currentYear);
    var data;
    data, store := ScanLines(Lines(content), header);
    var frame := new PunchRecord[|data|](j requires 0 <= j < |data| => data[j]);
    assert frame[..] == data;
    rows := ResolveOvertime(frame);
  }

  /** One pass of the loop body: `data` and `store_no` after one line's effect. */
  method Step(data: seq<PunchRecord>, store: Option<string>, e: LineEffect)
    returns (data': seq<PunchRecord>, store': Option<string>)
    ensures ScanState(data', store') == Apply(ScanState(data, store), e)
  {
    data', store' := data, store;
    match e {
      case Skip =>
      case SetStore(n) =>
        store' := Some(n);
      case Emit(r) =>
        data' := data + [r.(store := store)];
    }
  }

  /** The line loop (app.py:128-203): `data` and `store_no` after every line. */
  method ScanLines(lines: seq<string>, header: Header) returns (data: seq<PunchRecord>, store: Option<string>)
    ensures ScanState(data, store) == Scan(lines, header)
  {
    data := [];
    store := None;
    var i := 0;
    while i < |lines|
      invariant 0 <= i <= |lines|
      invariant Run(Effects(lines[..i], header)) == ScanState(data, store)
    {
      var e := ClassifyLine(lines[i], header);
      RunStep(lines, header, i, ScanState(data, store), e);
      data, store := Step(data, store, e);
      i := i + 1;
    }
    assert lines[..|lines|] == lines;
  }

  /** One more line applies its effect to the state after the lines before it. */
  lemma {:induction false} RunStep(lines: seq<string>, header: Header, i: nat, st: ScanState, e: LineEffect)
    requires i < |lines| && Run(Effects(lines[..i], header)) == st && e == ClassifyLine(lines[i], header)
    ensures Run(Effects(lines[..i + 1], header)) == Apply(st, e)
  {
    assert lines[..i + 1][..i] == lines[..i];
    var es := Effects(lines[..i + 1], header);
    assert es[..i] == Effects(lines[..i], header);
  }

  lemma {:induction false} InClocksetRows(rs: seq<PunchRecord>, r: PunchRecord)
    ensures r in ClocksetRows(rs) <==> r in rs && r.kind == Clockset
    decreases |rs|
  {
    if rs != [] {
      var init := rs[..|rs| - 1];
      InClocksetRows(init, r);
      assert rs == init + [rs[|rs| - 1]];
    }
  }

  /**
   * Every `Clockset` row of the result comes from a line with at least 11 columns whose first
   * is a weekday, with a leading-digit employee id and a readable decimal duration that is
   * neither `--` nor empty.
   */
  lemma {:induction false} ClocksetRowOrigin(content: string, currentYear: int, r: PunchRecord)
    requires r in PayrollResult(content, currentYear).0 && r.kind == Clockset
    ensures var header := ReadHeader(content, currentYear);
            exists line :: line in Lines(content)
                           && PayrollParts(Strip(line)).Some? && |PayrollParts(Strip(line)).value| >= 11
                           && FromPunchRow(PayrollParts(Strip(line)).value, header, r.(store := None))
  {
    var header := ReadHeader(content, currentYear);
    var lines := Lines(content);
    var es := Effects(lines, header);
    var scanned := Run(es).rows;
    InClocksetRows(ResolveRows(scanned, scanned), r);
    ResolveKeepsClocksets(scanned, scanned);
    InClocksetRows(scanned, r);
    var k :| 0 <= k < |scanned| && scanned[k] == r;
    RunRowOrigin(es, k);
    var j :| 0 <= j < |es| && es[j].Emit? && es[j].row.(store := Run(es[..j]).store) == r;
    EffectsAt(lines, header, j);
    ClassifyLineCases(lines[j], header);
    assert es[j].row == r.(store := None);
    assert lines[j] in lines;
  }

  /**
   * Every overtime row of the result carries an id that starts the id of a `Clockset` row of
   * the result, and that row's first and last name.
   */
  lemma {:induction false} OvertimeRowNamed(content: string, currentYear: int, r: PunchRecord)
    requires r in PayrollResult(content, currentYear).0 && r.kind == OvertimeReported
    ensures exists c :: c in PayrollResult(content, currentYear).0 && c.kind == Clockset
                        && IsPrefix(r.empId, c.empId) && r.firstName == c.firstName && r.lastName == c.lastName
  {
    var scanned := Scan(Lines(content), ReadHeader(content, currentYear)).rows;
    var out := ResolveRows(scanned, scanned);
    var k :| 0 <= k < |out| && out[k] == r;
    ResolvedOvertimeNamed(scanned, scanned, k);
    var c :| c in scanned && Candidate(c, r.empId) && r.firstName == c.firstName && r.lastName == c.lastName;
    InClocksetRows(scanned, c);
    ResolveKeepsClocksets(scanned, scanned);
    InClocksetRows(out, c);
  }
}
