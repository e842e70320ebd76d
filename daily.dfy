/**
 * The selections the three reports start from: the daily rows (`Clockset` or `Paid Break`),
 * the formatted daily report (app.py:255-269), and the daily rows that fall in a week of the
 * pay period (the `get_week_number` column and `week.notna()` filter, app.py:274-276 and
 * app.py:295-296).
 */
module Daily {
  import opened Wrappers
  import opened Dates
  import opened Records

  /** `df[df['type'].isin(['Clockset', 'Paid Break'])]`, in row order. */
  function DailyRows(rs: seq<PunchRecord>): (ds: seq<PunchRecord>)
    ensures |ds| <= |rs|
    ensures forall r :: r in ds <==> r in rs && IsDaily(r)
    decreases |rs|
  {
    if rs == [] then []
    else
      var init := DailyRows(rs[..|rs| - 1]);
      assert rs == rs[..|rs| - 1] + [rs[|rs| - 1]];
      if IsDaily(rs[|rs| - 1]) then init + [rs[|rs| - 1]] else init
  }

  /** Selecting the daily rows of two tables one after the other is selecting from their concatenation. */
  lemma {:induction false} DailyRowsAppend(a: seq<PunchRecord>, b: seq<PunchRecord>)
    ensures DailyRows(a + b) == DailyRows(a) + DailyRows(b)
    decreases |b|
  {
    if b == [] {
      assert a + b == a;
    } else {
      assert (a + b)[..|a + b| - 1] == a + b[..|b| - 1];
      DailyRowsAppend(a, b[..|b| - 1]);
    }
  }

  // ---------------------------------------------------------------------------
  // the formatted report

  /** One row of the formatted report; `duration` holds the row's decimal hours. */
  datatype FormattedRow = FormattedRow(
    store: Option<string>, empId: string, firstName: string, lastName: string,
    day: string, date: string, startTime: string, endTime: string,
    kind: RecordType, duration: Option<real>)

  /** The report row of one record: the given store number when it is not empty, else the record's own. */
  function FormatRow(r: PunchRecord, storeNo: string): FormattedRow {
    FormattedRow(if storeNo != [] then Some(storeNo) else r.store, r.empId, r.firstName, r.lastName,
                 r.day, r.date, r.startTime, r.endTime, r.kind, r.hours)
  }

  function FormatRows(ds: seq<PunchRecord>, storeNo: string): (fs: seq<FormattedRow>)
    ensures |fs| == |ds|
    ensures forall i :: 0 <= i < |ds| ==> fs[i] == FormatRow(ds[i], storeNo)
  {
    seq(|ds|, i requires 0 <= i < |ds| => FormatRow(ds[i], storeNo))
  }

  /** `generate_formatted_data(df, store_no)`: the daily rows, projected, in row order. */
  function Formatted(rs: seq<PunchRecord>, storeNo: string): seq<FormattedRow> {
    FormatRows(DailyRows(rs), storeNo)
  }

  /** The sum of the `duration` column (NA adds nothing). */
  function FormattedHours(fs: seq<FormattedRow>): real
    decreases |fs|
  {
    if fs == [] then 0.0
    else FormattedHours(fs[..|fs| - 1]) + (if fs[|fs| - 1].duration.Some? then fs[|fs| - 1].duration.value else 0.0)
  }

  lemma {:induction false} FormatRowsHours(ds: seq<PunchRecord>, storeNo: string)
    ensures FormattedHours(FormatRows(ds, storeNo)) == TotalHours(ds)
    decreases |ds|
  {
    if ds != [] {
      var init := ds[..|ds| - 1];
      FormatRowsHours(init, storeNo);
      assert FormatRows(ds, storeNo)[..|ds| - 1] == FormatRows(init, storeNo);
    }
  }

  /**
   * The formatted report has one row per daily record, of a daily type, with the given store
   * number when there is one, and its hours add up to the hours of the daily records.
   */
  lemma {:induction false} FormattedFaithful(rs: seq<PunchRecord>, storeNo: string)
    ensures var fs := Formatted(rs, storeNo);
            && |fs| == |DailyRows(rs)|
            && (forall f :: f in fs ==> f.kind == Clockset || f.kind == PaidBreak)
            && (storeNo != [] ==> forall f :: f in fs ==> f.store == Some(storeNo))
            && FormattedHours(fs) == TotalHours(DailyRows(rs))
  {
    var ds := DailyRows(rs);
    var fs := Formatted(rs, storeNo);
    forall f | f in fs
      ensures f.kind == Clockset || f.kind == PaidBreak
      ensures storeNo != [] ==> f.store == Some(storeNo)
    {
      var i :| 0 <= i < |fs| && fs[i] == f;
      assert ds[i] in ds;
    }
    FormatRowsHours(ds, storeNo);
  }

  /** The report of a merged store table is the reports of its parts, one after the other. */
  lemma {:induction false} FormattedAppend(a: seq<PunchRecord>, b: seq<PunchRecord>, storeNo: string)
    ensures Formatted(a + b, storeNo) == Formatted(a, storeNo) + Formatted(b, storeNo)
  {
    DailyRowsAppend(a, b);
  }

  // ---------------------------------------------------------------------------
  // rows in a week of the pay period

  /** A daily row with the `date_obj` and `week` `get_week_number` gave it. */
  datatype Dated = Dated(row: PunchRecord, date: Date, week: nat)

  /** The daily rows whose date falls in a week of the period starting `start`, in row order. */
  function InPeriod(rs: seq<PunchRecord>, start: Date): (ds: seq<Dated>)
    requires ValidDate(start)
    ensures |ds| <= |rs|
    ensures forall d :: d in ds ==> IsDaily(d.row) && WeekNumber(d.row.date, start) == InWeek(d.date, d.week)
    decreases |rs|
  {
    if rs == [] then []
    else
      var init := InPeriod(rs[..|rs| - 1], start);
      var r := rs[|rs| - 1];
      if IsDaily(r) && WeekNumber(r.date, start).InWeek? then
        init + [Dated(r, WeekNumber(r.date, start).date, WeekNumber(r.date, start).week)]
      else init
  }

  /** Every daily row with a week in the period is kept, and every kept row is one of the table's. */
  lemma {:induction false} InPeriodRows(rs: seq<PunchRecord>, start: Date, r: PunchRecord)
    requires ValidDate(start)
    ensures (exists d :: d in InPeriod(rs, start) && d.row == r) <==> r in rs && IsDaily(r) && WeekNumber(r.date, start).InWeek?
    decreases |rs|
  {
    if rs != [] {
      var init := rs[..|rs| - 1];
      InPeriodRows(init, start, r);
      assert rs == init + [rs[|rs| - 1]];
      var last := rs[|rs| - 1];
      if IsDaily(last) && WeekNumber(last.date, start).InWeek? {
        var d := Dated(last, WeekNumber(last.date, start).date, WeekNumber(last.date, start).week);
        assert InPeriod(rs, start) == InPeriod(init, start) + [d];
        if r == last {
          assert d in InPeriod(rs, start);
        }
      }
    }
  }

  /** The employee key of the groupings: `(emp_id, first_name, last_name)`. */
  datatype EmpKey = EmpKey(id: string, firstName: string, lastName: string)

  function KeyOf(r: PunchRecord): EmpKey {
    EmpKey(r.empId, r.firstName, r.lastName)
  }

  /** The hours of the rows in the period. */
  function PeriodHours(ds: seq<Dated>): real
    decreases |ds|
  {
    if ds == [] then 0.0 else PeriodHours(ds[..|ds| - 1]) + HoursOrZero(ds[|ds| - 1].row)
  }
}
