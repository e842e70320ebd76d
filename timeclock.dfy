/**
 * `parse_timeclock_structure` (app.py:220-249): a scan over the lines of a timeclock report
 * that keeps the current store number and the current employee (from an employee header
 * line) and emits one row per `Clockset` or `Paid Break` punch line.
 */
module Timeclock {
  import opened Wrappers
  import opened Text
  import opened Patterns
  import opened Hours
  import opened Records

  // ---------------------------------------------------------------------------
  // str.splitlines

  /** The characters `str.splitlines()` ends a line at. */
  predicate IsLineBreak(c: char) {
    var n := c as int;
    (0x0A <= n <= 0x0D) || (0x1C <= n <= 0x1E) || n == 0x85 || n == 0x2028 || n == 0x2029
  }

  /** The first line break at or after `i`, or the end of the text. */
  function LineEnd(s: string, i: nat): (j: nat)
    requires i <= |s|
    ensures i <= j <= |s| && (j == |s| || IsLineBreak(s[j]))
    ensures forall k :: i <= k < j ==> !IsLineBreak(s[k])
    decreases |s| - i
  {
    if i == |s| || IsLineBreak(s[i]) then i else LineEnd(s, i + 1)
  }

  /** The lines from position `i` on; `\r\n` ends one line, a final line break adds no empty line. */
  function LinesFrom(s: string, i: nat): (lines: seq<string>)
    requires i <= |s|
    ensures lines == [] <==> i == |s|
    ensures forall k, m :: 0 <= k < |lines| && 0 <= m < |lines[k]| ==> !IsLineBreak(lines[k][m])
    decreases |s| - i
  {
    if i == |s| then []
    else
      var j := LineEnd(s, i);
      if j == |s| then [s[i..]]
      else
        var next := if s[j] == '\r' && j + 1 < |s| && s[j + 1] == '\n' then j + 2 else j + 1;
        [s[i..j]] + LinesFrom(s, next)
  }

  /** `content.splitlines()` */
  function SplitLines(s: string): (lines: seq<string>)
    ensures lines == [] <==> s == []
    ensures forall k, m :: 0 <= k < |lines| && 0 <= m < |lines[k]| ==> !IsLineBreak(lines[k][m])
  {
    LinesFrom(s, 0)
  }

  /**
   * The text from position `i` on with `\n` as its only line end: `\r\n` and every other
   * line break become one `\n`, and a line end at the very end is dropped.
   */
  function CanonFrom(s: string, i: nat): string
    requires i <= |s|
    decreases |s| - i
  {
    if i == |s| then []
    else if IsLineBreak(s[i]) then
      var next := if s[i] == '\r' && i + 1 < |s| && s[i + 1] == '\n' then i + 2 else i + 1;
      if next == |s| then [] else "\n" + CanonFrom(s, next)
    else [s[i]] + CanonFrom(s, i + 1)
  }

  function Canon(s: string): string {
    CanonFrom(s, 0)
  }

  /** `splitlines` keeps every character but the line ends: joined by `\n`, the lines are the text. */
  lemma {:induction false} SplitLinesCanon(s: string)
    ensures s != [] ==> Join(SplitLines(s), "\n") == Canon(s)
  {
    if s != [] {
      LinesFromCanon(s, 0);
    }
  }

  lemma {:induction false} LinesFromCanon(s: string, i: nat)
    requires i < |s|
    ensures LinesFrom(s, i) != [] && Join(LinesFrom(s, i), "\n") == CanonFrom(s, i)
    decreases |s| - i
  {
    var j := LineEnd(s, i);
    if j < |s| && BreakEnd(s, j) < |s| {
      LinesFromCanon(s, BreakEnd(s, j));
      CanonStep(s, i);
    } else {
      CanonLastLine(s, i);
    }
  }

  /** A line ended by a line break that is not the last character: the line, `\n`, the rest. */
  lemma {:induction false} CanonStep(s: string, i: nat)
    requires i < |s| && LineEnd(s, i) < |s| && BreakEnd(s, LineEnd(s, i)) < |s|
    requires var rest := LinesFrom(s, BreakEnd(s, LineEnd(s, i)));
             rest != [] && Join(rest, "\n") == CanonFrom(s, BreakEnd(s, LineEnd(s, i)))
    ensures LinesFrom(s, i) != [] && Join(LinesFrom(s, i), "\n") == CanonFrom(s, i)
  {
    var j := LineEnd(s, i);
    var next := BreakEnd(s, j);
    var line := s[i..j];
    var rest := LinesFrom(s, next);
    assert CanonFrom(s, i) == line + CanonFrom(s, j) by {
      CanonPlain(s, i, j);
    }
    assert CanonFrom(s, j) == "\n" + CanonFrom(s, next) by {
      CanonFromBreak(s, j);
    }
    assert LinesFrom(s, i) == [line] + rest by {
      LinesFromBreak(s, i);
    }
    JoinGlue(line, rest, CanonFrom(s, next));
  }

  /** A line followed by lines that join into `tail` joins into the line, a `\n` and `tail`. */
  lemma JoinGlue(line: string, rest: seq<string>, tail: string)
    requires rest != [] && Join(rest, "\n") == tail
    ensures Join([line] + rest, "\n") == line + ("\n" + tail)
  {
    JoinCons(line, rest, "\n");
    assert line + "\n" + tail == line + ("\n" + tail);
  }

  /** The last line, ended by the text's end or by a line break that is its last character. */
  lemma {:induction false} CanonLastLine(s: string, i: nat)
    requires i < |s| && (LineEnd(s, i) == |s| || BreakEnd(s, LineEnd(s, i)) == |s|)
    ensures LinesFrom(s, i) != [] && Join(LinesFrom(s, i), "\n") == CanonFrom(s, i)
  {
    var j := LineEnd(s, i);
    var line := s[i..j];
    assert CanonFrom(s, i) == line + CanonFrom(s, j) by {
      CanonPlain(s, i, j);
    }
    if j < |s| {
      assert CanonFrom(s, j) == [] by {
        CanonFromBreak(s, j);
      }
      assert LinesFrom(s, i) == [line] + LinesFrom(s, |s|) by {
        LinesFromBreak(s, i);
      }
      assert LinesFrom(s, i) == [line];
    } else {
      assert LinesFrom(s, i) == [line] by {
        LinesFromLast(s, i);
        assert line == s[i..];
      }
      assert CanonFrom(s, j) == [];
    }
    assert line + [] == line;
  }

  /** Where the line end at `j` stops: after `\r\n`, or after the one character. */
  function BreakEnd(s: string, j: nat): (next: nat)
    requires j < |s|
    ensures j < next <= |s|
  {
    if s[j] == '\r' && j + 1 < |s| && s[j + 1] == '\n' then j + 2 else j + 1
  }

  lemma LinesFromBreak(s: string, i: nat)
    requires i < |s| && LineEnd(s, i) < |s|
    ensures LinesFrom(s, i) == [s[i..LineEnd(s, i)]] + LinesFrom(s, BreakEnd(s, LineEnd(s, i)))
  {
  }

  lemma CanonFromBreak(s: string, j: nat)
    requires j < |s| && IsLineBreak(s[j])
    ensures CanonFrom(s, j) == if BreakEnd(s, j) == |s| then [] else "\n" + CanonFrom(s, BreakEnd(s, j))
  {
  }

  /** Characters that are not line ends are copied as they are. */
  lemma {:induction false} CanonPlain(s: string, i: nat, j: nat)
    requires i <= j <= |s| && forall k :: i <= k < j ==> !IsLineBreak(s[k])
    ensures CanonFrom(s, i) == s[i..j] + CanonFrom(s, j)
    decreases j - i
  {
    if i < j {
      var rest := CanonFrom(s, i + 1);
      assert CanonFrom(s, i) == [s[i]] + rest by {
        assert !IsLineBreak(s[i]);
      }
      assert rest == s[i + 1..j] + CanonFrom(s, j) by {
        CanonPlain(s, i + 1, j);
      }
      assert s[i..j] == [s[i]] + s[i + 1..j];
      assert [s[i]] + (s[i + 1..j] + CanonFrom(s, j)) == ([s[i]] + s[i + 1..j]) + CanonFrom(s, j);
    } else {
      assert s[i..j] == [];
    }
  }

  /** `\r\n` ends one line, and two `\r` end two. */
  lemma CarriageReturnExamples()
    ensures SplitLines("a\r\nb") == ["a", "b"]
    ensures SplitLines("a\r\rb") == ["a", "", "b"]
  {
    var s := "a\r\nb";
    assert LineEnd(s, 0) == 1 && LineEnd(s, 3) == 4;
    assert s[0..1] == "a" && s[3..] == "b";
    var t := "a\r\rb";
    assert LineEnd(t, 0) == 1 && LineEnd(t, 2) == 2 && LineEnd(t, 3) == 4;
    assert t[0..1] == "a" && t[2..2] == "" && t[3..] == "b";
  }

  /** A text whose only line break is `\n` and that does not end with one is its lines joined by `\n`. */
  lemma {:induction false} SplitLinesJoin(s: string)
    requires s != [] && !IsLineBreak(s[|s| - 1])
    requires forall k :: 0 <= k < |s| && IsLineBreak(s[k]) ==> s[k] == '\n'
    ensures SplitLines(s) != [] && Join(SplitLines(s), "\n") == s
  {
    LinesFromJoin(s, 0);
  }

  lemma {:induction false} LinesFromJoin(s: string, i: nat)
    requires i < |s| && !IsLineBreak(s[|s| - 1])
    requires forall k :: i <= k < |s| && IsLineBreak(s[k]) ==> s[k] == '\n'
    ensures LinesFrom(s, i) != [] && Join(LinesFrom(s, i), "\n") == s[i..]
    decreases |s| - i
  {
    var j := LineEnd(s, i);
    if j < |s| {
      assert j < |s| - 1 && s[j] == '\n';
      var rest := LinesFrom(s, j + 1);
      assert rest != [] && Join(rest, "\n") == s[j + 1..] by {
        LinesFromJoin(s, j + 1);
      }
      assert LinesFrom(s, i) == [s[i..j]] + rest by {
        LinesFromNewline(s, i, j);
      }
      JoinCons(s[i..j], rest, "\n");
      NewlineSplits(s, i, j);
    } else {
      LinesFromLast(s, i);
    }
  }

  lemma LinesFromLast(s: string, i: nat)
    requires i < |s| && LineEnd(s, i) == |s|
    ensures LinesFrom(s, i) == [s[i..]] && Join(LinesFrom(s, i), "\n") == s[i..]
  {
  }

  lemma NewlineSplits(s: string, i: nat, j: nat)
    requires i <= j < |s| && s[j] == '\n'
    ensures s[i..] == s[i..j] + "\n" + s[j + 1..]
  {
    assert s[i..] == s[i..j] + s[j..j + 1] + s[j + 1..];
  }

  /** A line ended by `\n` is followed by the lines after it. */
  lemma LinesFromNewline(s: string, i: nat, j: nat)
    requires i < |s| && j == LineEnd(s, i) && j < |s| - 1 && s[j] == '\n'
    ensures LinesFrom(s, i) == [s[i..j]] + LinesFrom(s, j + 1)
  {
  }

  /** A non-empty text without line breaks is a single line. */
  lemma SplitLinesSingle(s: string)
    requires s != [] && forall k :: 0 <= k < |s| ==> !IsLineBreak(s[k])
    ensures SplitLines(s) == [s]
  {
    assert LineEnd(s, 0) == |s|;
  }

  // ---------------------------------------------------------------------------
  // one line

  /** The employee the loop remembers (`current_emp_id`, `current_first_name`, `current_last_name`). */
  datatype Employee = Employee(id: string, firstName: string, lastName: string)

  /** The columns of a punch line the row is built from. */
  datatype Punch = Punch(day: string, date: string, startTime: string, endTime: string, kind: RecordType,
                         duration: string, hours: Option<real>)

  /** What one line does to the scan. */
  datatype LineEffect = Skip | SetStore(number: string) | SetEmployee(employee: Employee) | Emit(punch: Punch)

  /** The columns: split on `","` when it occurs, else on `,`; each stripped of blanks, then of quotes. */
  function TimeclockParts(line: string): (parts: seq<string>)
    ensures |parts| >= 1
  {
    StripFieldsAndQuotes(if Contains(line, "\",\"") then Split(line, "\",\"") else Split(line, ","))
  }

  /** A first column naming the brand (case-sensitive). */
  predicate IsStoreField(field: string) {
    Contains(field, "Popeye's") || Contains(field, "POPEYES") || Contains(field, "Popeyes") || Contains(field, "POPEYE'S")
  }

  /** The record types the scan keeps, by the stripped text of the type column. */
  function DailyKind(t: string): (k: Option<RecordType>)
    ensures k.Some? ==> (k.value == Clockset || k.value == PaidBreak) && TypeName(k.value) == t
    ensures t == "Clockset" || t == "Paid Break" ==> k.Some?
  {
    if t == "Clockset" then Some(Clockset)
    else if t == "Paid Break" then Some(PaidBreak)
    else None
  }

  /** The text of the first match of a pattern, or `''`. */
  function MatchOrEmpty(m: Option<string>): string {
    if m.Some? then m.value else ""
  }

  /** A line naming an employee: a first column of digits and at least three columns. */
  predicate IsEmployeeLine(parts: seq<string>)
    requires |parts| >= 1
  {
    Strip(parts[0]) != [] && IsDigits(Strip(parts[0])) && |parts| >= 3
  }

  /** The punch of a line of at least seven columns whose type column is kept. */
  function PunchOf(parts: seq<string>): (p: Option<Punch>)
    requires |parts| >= 1
    ensures p.Some? ==> |parts| > 6 && DailyKind(Strip(parts[5])) == Some(p.value.kind)
                        && p.value.day == parts[2] && p.value.duration == parts[6] && p.value.hours == Duration(parts[6])
    ensures |parts| > 6 && DailyKind(Strip(parts[5])).Some? ==> p.Some?
  {
    if |parts| > 6 && DailyKind(Strip(parts[5])).Some? then
      Some(Punch(parts[2], MatchOrEmpty(Search(parts[3], DatePattern, 0)), MatchOrEmpty(Search(parts[3], TimePattern, 0)),
                 MatchOrEmpty(Search(parts[4], TimePattern, 0)), DailyKind(Strip(parts[5])).value, parts[6], Duration(parts[6])))
    else None
  }

  /** The body of the line loop (app.py:225-248), for one raw line. */
  function ClassifyLine(raw: string): LineEffect {
    var line := Strip(raw);
    if line == [] then Skip
    else
      var parts := TimeclockParts(line);
      if IsStoreField(parts[0]) then
        match StoreNumber(parts[0])
        case Some(n) => SetStore(n)
        case None => Skip
      else if IsEmployeeLine(parts) then SetEmployee(Employee(Strip(parts[0]), Strip(parts[1]), Strip(parts[2])))
      else match PunchOf(parts)
        case Some(p) => Emit(p)
        case None => Skip
  }

  /**
   * What a line can do: a store line at most sets the store number, an employee line sets
   * the employee, and a punch comes only from a line of at least seven columns whose type
   * column is `Clockset` or `Paid Break`, with the columns in their places.
   */
  lemma ClassifyLineCases(raw: string)
    ensures var e := ClassifyLine(raw);
            var parts := TimeclockParts(Strip(raw));
            && (Strip(raw) == [] ==> e.Skip?)
            && (Strip(raw) != [] && IsStoreField(parts[0]) ==> e.Skip? || e.SetStore?)
            && (e.SetStore? ==> Strip(raw) != [] && IsStoreField(parts[0]) && StoreNumber(parts[0]) == Some(e.number))
            && (e.SetEmployee? ==> Strip(raw) != [] && !IsStoreField(parts[0]) && IsEmployeeLine(parts)
                                   && e.employee == Employee(Strip(parts[0]), Strip(parts[1]), Strip(parts[2])))
            && (e.Emit? ==> Strip(raw) != [] && !IsStoreField(parts[0]) && !IsEmployeeLine(parts)
                            && PunchOf(parts) == Some(e.punch))
  {
    ClassifyLineBranches(raw);
  }

  /** `ClassifyLine` by its branches. */
  lemma ClassifyLineBranches(raw: string)
    ensures var line := Strip(raw);
            var parts := TimeclockParts(line);
            ClassifyLine(raw)
            == if line == [] then Skip
               else if IsStoreField(parts[0]) then (if StoreNumber(parts[0]).Some? then SetStore(StoreNumber(parts[0]).value) else Skip)
               else if IsEmployeeLine(parts) then SetEmployee(Employee(Strip(parts[0]), Strip(parts[1]), Strip(parts[2])))
               else if PunchOf(parts).Some? then Emit(PunchOf(parts).value)
               else Skip
  {
  }

  // ---------------------------------------------------------------------------
  // the scan

  /** The loop's variables: `data`, the current employee and `store_no`. */
  datatype ScanState = ScanState(rows: seq<PunchRecord>, employee: Option<Employee>, store: Option<string>)

  /** The row a punch line gives under the current employee and store. */
  function Row(emp: Employee, p: Punch, store: Option<string>): (r: PunchRecord)
    ensures r.kind == p.kind && r.empId == emp.id && r.store == store
  {
    PunchRecord(emp.id, emp.firstName, emp.lastName, p.day, p.date, p.startTime, p.endTime,
                p.kind, p.duration, p.hours, store)
  }

  function Apply(st: ScanState, e: LineEffect): ScanState {
    match e
    case Skip => st
    case SetStore(n) => st.(store := Some(n))
    case SetEmployee(emp) => st.(employee := Some(emp))
    case Emit(p) => if st.employee.Some? then st.(rows := st.rows + [Row(st.employee.value, p, st.store)]) else st
  }

  function Effects(lines: seq<string>): (es: seq<LineEffect>)
    ensures |es| == |lines|
    decreases |lines|
  {
    if lines == [] then [] else Effects(lines[..|lines| - 1]) + [ClassifyLine(lines[|lines| - 1])]
  }

  lemma {:induction false} EffectsAt(lines: seq<string>, j: nat)
    requires j < |lines|
    ensures Effects(lines)[j] == ClassifyLine(lines[j])
    decreases |lines|
  {
    if j < |lines| - 1 {
      EffectsAt(lines[..|lines| - 1], j);
      assert lines[..|lines| - 1][j] == lines[j];
    }
  }

  /** The state after the given effects, from the initial one (no rows, no employee, no store). */
  function Run(es: seq<LineEffect>): ScanState
    decreases |es|
  {
    if es == [] then ScanState([], None, None) else Apply(Run(es[..|es| - 1]), es[|es| - 1])
  }

  /** The rows and store `parse_timeclock_structure` returns. */
  function TimeclockResult(content: string): (seq<PunchRecord>, Option<string>) {
    var st := Run(Effects(SplitLines(content)));
    (st.rows, st.store)
  }

  /** One more line applies its effect to the state after the lines before it. */
  lemma {:induction false} RunStep(lines: seq<string>, i: nat, st: ScanState, e: LineEffect)
    requires i < |lines| && Run(Effects(lines[..i])) == st && e == ClassifyLine(lines[i])
    ensures Run(Effects(lines[..i + 1])) == Apply(st, e)
  {
    assert lines[..i + 1][..i] == lines[..i];
    var es := Effects(lines[..i + 1]);
    assert es[..i] == Effects(lines[..i]);
  }

  /** `parse_timeclock_structure(content)` */
  method ParseTimeclock(content: string) returns (rows: seq<PunchRecord>, store: Option<string>)
    ensures (rows, store) == TimeclockResult(content)
  {
    var lines := SplitLines(content);
    var st := ScanLines(lines);
    rows, store := st.rows, st.store;
  }

  /** The line loop of `parse_timeclock_structure`. */
  /** One pass of the loop body: the scanner's variables after one line's effect. */
  method Step(rows: seq<PunchRecord>, employee: Option<Employee>, store: Option<string>, e: LineEffect)
    returns (rows': seq<PunchRecord>, employee': Option<Employee>, store': Option<string>)
    ensures ScanState(rows', employee', store') == Apply(ScanState(rows, employee, store), e)
  {
    rows', employee', store' := rows, employee, store;
    match e {
      case Skip =>
      case SetStore(n) =>
        store' := Some(n);
      case SetEmployee(emp) =>
        employee' := Some(emp);
      case Emit(p) =>
        if employee.Some? {
          rows' := rows + [Row(employee.value, p, store)];
        }
    }
  }

  method ScanLines(lines: seq<string>) returns (st: ScanState)
    ensures st == Run(Effects(lines))
  {
    var rows: seq<PunchRecord> := [];
    var employee: Option<Employee> := None;
    var store: Option<string> := None;
    var i := 0;
    while i < |lines|
      invariant 0 <= i <= |lines|
      invariant Run(Effects(lines[..i])) == ScanState(rows, employee, store)
    {
      var e := ClassifyLine(lines[i]);
      RunStep(lines, i, ScanState(rows, employee, store), e);
      rows, employee, store := Step(rows, employee, store, e);
      i := i + 1;
    }
    assert lines[..|lines|] == lines;
    st := ScanState(rows, employee, store);
  }

  // ---------------------------------------------------------------------------
  // what the scan guarantees

  /** A punch the scan can emit: a kept type, and hours read from its duration text. */
  predicate WellFormedPunch(p: Punch) {
    (p.kind == Clockset || p.kind == PaidBreak) && p.hours == Duration(p.duration)
  }

  /** A row of the timeclock output: daily, with hours read from its duration text. */
  predicate WellFormedRow(r: PunchRecord) {
    IsDaily(r) && r.hours == Duration(r.duration)
  }

  lemma {:induction false} RunRowsWellFormed(es: seq<LineEffect>)
    requires forall i :: 0 <= i < |es| && es[i].Emit? ==> WellFormedPunch(es[i].punch)
    ensures forall r :: r in Run(es).rows ==> WellFormedRow(r)
    decreases |es|
  {
    if es != [] {
      var init := es[..|es| - 1];
      assert forall i :: 0 <= i < |init| ==> init[i] == es[i];
      RunRowsWellFormed(init);
    }
  }

  /**
   * The timeclock parser only ever emits `Clockset` and `Paid Break` rows, and each row's
   * hours are `parse_duration_to_decimal` of its duration column.
   */
  lemma {:induction false} TimeclockRowsWellFormed(content: string)
    ensures forall r :: r in TimeclockResult(content).0 ==> WellFormedRow(r)
  {
    var lines := SplitLines(content);
    var es := Effects(lines);
    forall i | 0 <= i < |es| && es[i].Emit?
      ensures WellFormedPunch(es[i].punch)
    {
      EffectsAt(lines, i);
      ClassifyLineCases(lines[i]);
    }
    RunRowsWellFormed(es);
  }

  /** Each row comes from a punch effect and carries the employee and store in force before it. */
  lemma {:induction false} RunRowOrigin(es: seq<LineEffect>, k: nat)
    requires k < |Run(es).rows|
    ensures exists j :: 0 <= j < |es| && es[j].Emit? && Run(es[..j]).employee.Some?
                        && Run(es).rows[k] == Row(Run(es[..j]).employee.value, es[j].punch, Run(es[..j]).store)
    decreases |es|
  {
    var init := es[..|es| - 1];
    var before := Run(init);
    if k < |before.rows| {
      RunRowOrigin(init, k);
      var j :| 0 <= j < |init| && init[j].Emit? && Run(init[..j]).employee.Some?
               && before.rows[k] == Row(Run(init[..j]).employee.value, init[j].punch, Run(init[..j]).store);
      assert init[j] == es[j] && init[..j] == es[..j];
      assert Run(es).rows[k] == before.rows[k];
    } else {
      var j := |es| - 1;
      assert es[..j] == init;
    }
  }

  /** The current employee is the one of the last employee line, if any. */
  lemma {:induction false} RunEmployeeOrigin(es: seq<LineEffect>)
    ensures Run(es).employee.Some? ==>
              exists i :: 0 <= i < |es| && es[i] == SetEmployee(Run(es).employee.value)
                          && forall m :: i < m < |es| ==> !es[m].SetEmployee?
    decreases |es|
  {
    if es != [] {
      var init := es[..|es| - 1];
      RunEmployeeOrigin(init);
      if !es[|es| - 1].SetEmployee? {
        assert Run(es).employee == Run(init).employee;
        if Run(init).employee.Some? {
          var i :| 0 <= i < |init| && init[i] == SetEmployee(Run(init).employee.value)
                   && forall m :: i < m < |init| ==> !init[m].SetEmployee?;
          assert es[i] == init[i];
          forall m | i < m < |es|
            ensures !es[m].SetEmployee?
          {
            if m < |init| { assert es[m] == init[m]; }
          }
        }
      }
    }
  }

  /** The store of a run is the number of its last `SetStore`, or none when there is none. */
  lemma {:induction false} RunStoreOrigin(es: seq<LineEffect>)
    ensures Run(es).store.Some? ==>
              exists j :: 0 <= j < |es| && es[j] == SetStore(Run(es).store.value)
                          && forall i :: j < i < |es| ==> !es[i].SetStore?
    ensures Run(es).store.None? ==> forall i :: 0 <= i < |es| ==> !es[i].SetStore?
    decreases |es|
  {
    if es != [] {
      var init := es[..|es| - 1];
      RunStoreOrigin(init);
      if es[|es| - 1].SetStore? {
        assert es[|es| - 1] == SetStore(Run(es).store.value);
      } else if Run(init).store.Some? {
        var j :| 0 <= j < |init| && init[j] == SetStore(Run(init).store.value)
                 && forall i :: j < i < |init| ==> !init[i].SetStore?;
        assert es[j] == init[j];
        forall i | j < i < |es|
          ensures !es[i].SetStore?
        {
          if i < |init| { assert es[i] == init[i]; }
        }
      } else {
        forall i | 0 <= i < |es|
          ensures !es[i].SetStore?
        {
          if i < |init| { assert es[i] == init[i]; }
        }
      }
    }
  }

  /**
   * Each row comes from a punch effect `j`; its employee is the one of the last employee
   * effect `i` before it, and its store the one in force before `j`.
   */
  lemma {:induction false} RunRowEmployee(es: seq<LineEffect>, k: nat)
    requires k < |Run(es).rows|
    ensures exists i, j :: 0 <= i < j < |es| && es[i].SetEmployee? && es[j].Emit?
                           && (forall m :: i < m < j ==> !es[m].SetEmployee?)
                           && Run(es).rows[k] == Row(es[i].employee, es[j].punch, Run(es[..j]).store)
  {
    RunRowOrigin(es, k);
    var j :| 0 <= j < |es| && es[j].Emit? && Run(es[..j]).employee.Some?
             && Run(es).rows[k] == Row(Run(es[..j]).employee.value, es[j].punch, Run(es[..j]).store);
    var pre := es[..j];
    RunEmployeeOrigin(pre);
    var i :| 0 <= i < |pre| && pre[i] == SetEmployee(Run(pre).employee.value)
             && forall m :: i < m < |pre| ==> !pre[m].SetEmployee?;
    assert es[i] == pre[i];
    assert forall m :: i < m < j ==> pre[m] == es[m];
  }

  // ---------------------------------------------------------------------------
  // where a row of the file comes from

  /** A line that names an employee: not a store line, a first column of digits, three columns. */
  predicate EmployeeHeader(raw: string) {
    Strip(raw) != [] && !IsStoreField(TimeclockParts(Strip(raw))[0]) && IsEmployeeLine(TimeclockParts(Strip(raw)))
  }

  /** The employee such a line names: id, first name and last name, stripped. */
  function HeaderEmployee(raw: string): Employee
    requires EmployeeHeader(raw)
  {
    var parts := TimeclockParts(Strip(raw));
    Employee(Strip(parts[0]), Strip(parts[1]), Strip(parts[2]))
  }

  /** A store line whose store number is found. */
  predicate StoreLine(raw: string) {
    Strip(raw) != [] && IsStoreField(TimeclockParts(Strip(raw))[0]) && StoreNumber(TimeclockParts(Strip(raw))[0]).Some?
  }

  function LineStore(raw: string): string
    requires StoreLine(raw)
  {
    StoreNumber(TimeclockParts(Strip(raw))[0]).value
  }

  /** A punch line: neither a store nor an employee line, with a kept type column. */
  predicate PunchLine(raw: string) {
    Strip(raw) != [] && !IsStoreField(TimeclockParts(Strip(raw))[0]) && !IsEmployeeLine(TimeclockParts(Strip(raw)))
    && PunchOf(TimeclockParts(Strip(raw))).Some?
  }

  function LinePunch(raw: string): Punch
    requires PunchLine(raw)
  {
    PunchOf(TimeclockParts(Strip(raw))).value
  }

  /** What `ClassifyLine` decides, in terms of the line's columns, both ways. */
  lemma ClassifyLineMeaning(raw: string)
    ensures ClassifyLine(raw).SetEmployee? <==> EmployeeHeader(raw)
    ensures EmployeeHeader(raw) ==> ClassifyLine(raw).employee == HeaderEmployee(raw)
    ensures ClassifyLine(raw).SetStore? <==> StoreLine(raw)
    ensures StoreLine(raw) ==> ClassifyLine(raw).number == LineStore(raw)
    ensures ClassifyLine(raw).Emit? <==> PunchLine(raw)
    ensures PunchLine(raw) ==> ClassifyLine(raw).punch == LinePunch(raw)
  {
    ClassifyLineBranches(raw);
  }

  /** The store in force before line `j`: the number of the last store line before it, or none. */
  predicate StoreBefore(lines: seq<string>, j: nat, store: Option<string>)
    requires j <= |lines|
  {
    (store.Some? ==> exists m :: 0 <= m < j && StoreLine(lines[m]) && LineStore(lines[m]) == store.value
                                 && forall n :: m < n < j ==> !StoreLine(lines[n]))
    && (store.None? ==> forall n :: 0 <= n < j ==> !StoreLine(lines[n]))
  }

  lemma {:induction false} StoreBeforeOf(lines: seq<string>, j: nat)
    requires j <= |lines|
    ensures StoreBefore(lines, j, Run(Effects(lines)[..j]).store)
  {
    var es := Effects(lines);
    var pre := es[..j];
    RunStoreOrigin(pre);
    forall n | 0 <= n < j
      ensures pre[n].SetStore? <==> StoreLine(lines[n])
      ensures StoreLine(lines[n]) ==> pre[n].number == LineStore(lines[n])
    {
      EffectsAt(lines, n);
      ClassifyLineMeaning(lines[n]);
    }
  }

  /**
   * Each row of the timeclock output comes from a punch line `j` of the file; its id and
   * names are those of the last employee line `i` before it, its day, date, times, type,
   * duration and hours those of the punch line, and its store that of the last store line
   * before the punch line (none when there is none).
   */
  lemma {:induction false} TimeclockRowOrigin(content: string, k: nat)
    requires k < |TimeclockResult(content).0|
    ensures var lines := SplitLines(content);
            var r := TimeclockResult(content).0[k];
            exists i, j :: 0 <= i < j < |lines| && EmployeeHeader(lines[i]) && PunchLine(lines[j])
                           && (forall m :: i < m < j ==> !EmployeeHeader(lines[m]))
                           && r == Row(HeaderEmployee(lines[i]), LinePunch(lines[j]), r.store)
                           && StoreBefore(lines, j, r.store)
  {
    var lines := SplitLines(content);
    var r := TimeclockResult(content).0[k];
    var i, j := RowLines(lines, k);
    StoreBeforeOf(lines, j);
    assert r == Row(HeaderEmployee(lines[i]), LinePunch(lines[j]), r.store);
  }

  /** `TimeclockRowOrigin` over the lines: the employee line and the punch line of row `k`. */
  lemma {:induction false} RowLines(lines: seq<string>, k: nat) returns (i: nat, j: nat)
    requires k < |Run(Effects(lines)).rows|
    ensures i < j < |lines| && EmployeeHeader(lines[i]) && PunchLine(lines[j])
    ensures forall m :: i < m < j ==> !EmployeeHeader(lines[m])
    ensures Run(Effects(lines)).rows[k] == Row(HeaderEmployee(lines[i]), LinePunch(lines[j]), Run(Effects(lines)[..j]).store)
  {
    var es := Effects(lines);
    RunRowEmployee(es, k);
    i, j :| 0 <= i < j < |es| && es[i].SetEmployee? && es[j].Emit?
            && (forall m :: i < m < j ==> !es[m].SetEmployee?)
            && Run(es).rows[k] == Row(es[i].employee, es[j].punch, Run(es[..j]).store);
    EffectMeaning(lines, i);
    EffectMeaning(lines, j);
    forall m | i < m < j
      ensures !EmployeeHeader(lines[m])
    {
      EffectMeaning(lines, m);
    }
  }

  /** The effect of line `n` in terms of the line's columns. */
  lemma EffectMeaning(lines: seq<string>, n: nat)
    requires n < |lines|
    ensures var e := Effects(lines)[n];
            && (e.SetEmployee? <==> EmployeeHeader(lines[n]))
            && (e.SetEmployee? ==> e.employee == HeaderEmployee(lines[n]))
            && (e.Emit? <==> PunchLine(lines[n]))
            && (e.Emit? ==> e.punch == LinePunch(lines[n]))
  {
    EffectsAt(lines, n);
    ClassifyLineMeaning(lines[n]);
  }
}
