/**
 * `generate_wage_split_data` (app.py:292-312): every daily row in the period gets a share of
 * its week's regular and overtime hours in proportion to its hours, and the shares are summed
 * per employee on each side of the wage-change date.
 */
module WageSplit {
  import opened Wrappers
  import opened Dates
  import opened Records
  import opened Groups
  import opened Daily
  import opened Pivot

  /** The `wage_period` column: `'2025'` or `'2026'`. */
  datatype WagePeriod = Wages2025 | Wages2026

  /** A row dated strictly before the wage-change date is paid at the old rate. */
  function WagePeriodOf(date: Date, change: Date): (p: WagePeriod)
    ensures p == Wages2025 <==> Before(date, change)
    ensures p == Wages2026 <==> !Before(date, change)
  {
    if Before(date, change) then Wages2025 else Wages2026
  }

  /** `dp`: a row's part of its week's hours, 0 for a week without positive hours. */
  function Proportion(hours: real, weekHours: real): real {
    if weekHours > 0.0 then hours / weekHours else 0.0
  }

  /** `dp * wrh` or `dp * woh`: the part of a week's regular or overtime hours a row gets. */
  function Allotted(hours: real, weekHours: real, split: real): real {
    Proportion(hours, weekHours) * split
  }

  /** One row of the merged daily table: its week, wage period, hours, `drh` and `doh`. */
  datatype Share = Share(key: WeekKey, period: WagePeriod, hours: real, regular: real, overtime: real)

  /** The share of row `d` of a week with `weekHours` hours in all. */
  function ShareOf(d: Dated, change: Date, weekHours: real): (s: Share)
    ensures s.key == WeekKey(KeyOf(d.row), d.week) && s.hours == HoursOrZero(d.row)
    ensures s.period == Wages2025 <==> Before(d.date, change)
  {
    var h := HoursOrZero(d.row);
    Share(WeekKey(KeyOf(d.row), d.week), WagePeriodOf(d.date, change), h,
          Allotted(h, weekHours, Regular(weekHours)), Allotted(h, weekHours, Overtime(weekHours)))
  }

  /** A row whose week has positive hours gets regular and overtime shares adding up to its hours. */
  lemma ShareAddsUp(d: Dated, change: Date, weekHours: real)
    requires weekHours > 0.0
    ensures ShareOf(d, change, weekHours).regular + ShareOf(d, change, weekHours).overtime == HoursOrZero(d.row)
  {
    var h := HoursOrZero(d.row);
    WeekSplit(weekHours);
    Factor(h / weekHours, Regular(weekHours), Overtime(weekHours));
    assert h / weekHours * weekHours == h;
  }

  lemma Factor(p: real, a: real, b: real)
    ensures p * a + p * b == p * (a + b)
  {
  }

  // ---------------------------------------------------------------------------
  // the merge with the weekly totals

  /** The week total of a row: `twh` of its `(emp_id, first_name, last_name, week)` group in `whole`. */
  function WeekTotalOf(whole: seq<Dated>, d: Dated): real {
    Total(WeekPairs(whole), WeekKey(KeyOf(d.row), d.week))
  }

  /** The rows of `part` merged with the weekly totals of `whole` on the full weekly key. */
  function SharesWith(part: seq<Dated>, whole: seq<Dated>, change: Date): (ss: seq<Share>)
    ensures |ss| == |part|
    ensures forall i :: 0 <= i < |part| ==> ss[i] == ShareOf(part[i], change, WeekTotalOf(whole, part[i]))
  {
    seq(|part|, i requires 0 <= i < |part| => ShareOf(part[i], change, WeekTotalOf(whole, part[i])))
  }

  /** Each row of the period with its share, merged on the full weekly key. */
  function Shares(ds: seq<Dated>, change: Date): seq<Share> {
    SharesWith(ds, ds, change)
  }

  /** A weekly row the as-written merge pairs with row `d`. */
  predicate MatchesOnId(w: WeekSum, d: Dated) {
    w.key.emp.id == d.row.empId && w.key.week == d.week
  }

  /** The rows a row of `ds` becomes when the merge matches on `(emp_id, week)` only: one per matching weekly row. */
  function MatchesAsWritten(d: Dated, ws: seq<WeekSum>, change: Date): seq<Share>
    decreases |ws|
  {
    if ws == [] then []
    else
      var w := ws[|ws| - 1];
      MatchesAsWritten(d, ws[..|ws| - 1], change)
      + (if MatchesOnId(w, d) then [ShareOf(d, change, w.hours)] else [])
  }

  function SharesAsWrittenWith(part: seq<Dated>, ws: seq<WeekSum>, change: Date): seq<Share>
    decreases |part|
  {
    if part == [] then []
    else SharesAsWrittenWith(part[..|part| - 1], ws, change) + MatchesAsWritten(part[|part| - 1], ws, change)
  }

  /** The merge as app.py:302 writes it: on `(emp_id, week)`, so rows of an id spelled two ways in a week are repeated. */
  function SharesAsWritten(ds: seq<Dated>, change: Date): seq<Share> {
    SharesAsWrittenWith(ds, WeekSums(ds), change)
  }

  // ---------------------------------------------------------------------------
  // the summary per employee and wage period

  /** Which column of the merged table a sum adds: `decimal_hours`, `drh` or `doh`. */
  datatype ShareColumn = ShareHours | ShareRegular | ShareOvertime

  function ShareValue(s: Share, c: ShareColumn): real {
    match c
    case ShareHours => s.hours
    case ShareRegular => s.regular
    case ShareOvertime => s.overtime
  }

  /** The merged table as ((employee, wage period), column value) pairs. */
  function PeriodPairs(ss: seq<Share>, c: ShareColumn): (ps: seq<((EmpKey, WagePeriod), real)>)
    ensures |ps| == |ss|
    ensures forall i :: 0 <= i < |ss| ==> ps[i] == ((ss[i].key.emp, ss[i].period), ShareValue(ss[i], c))
  {
    seq(|ss|, i requires 0 <= i < |ss| => ((ss[i].key.emp, ss[i].period), ShareValue(ss[i], c)))
  }

  /** The merged table as (employee, hours) pairs. */
  function EmpHours(ss: seq<Share>): (ps: seq<(EmpKey, real)>)
    ensures |ps| == |ss|
    ensures forall i :: 0 <= i < |ss| ==> ps[i] == (ss[i].key.emp, ss[i].hours)
  {
    seq(|ss|, i requires 0 <= i < |ss| => (ss[i].key.emp, ss[i].hours))
  }

  /** One row of the wage-split report (its `name` column is always empty and not modelled). */
  datatype WageRow = WageRow(store: string, emp: EmpKey,
                             hours2025: real, regular2025: real, overtime2025: real,
                             hours2026: real, regular2026: real, overtime2026: real)

  /** The row of employee `e`: `p25` and `p26` outer-merged, a missing side filled with 0. */
  function WageRowOf(ss: seq<Share>, storeNo: string, e: EmpKey): WageRow {
    WageRow(storeNo, e,
            Total(PeriodPairs(ss, ShareHours), (e, Wages2025)), Total(PeriodPairs(ss, ShareRegular), (e, Wages2025)),
            Total(PeriodPairs(ss, ShareOvertime), (e, Wages2025)),
            Total(PeriodPairs(ss, ShareHours), (e, Wages2026)), Total(PeriodPairs(ss, ShareRegular), (e, Wages2026)),
            Total(PeriodPairs(ss, ShareOvertime), (e, Wages2026)))
  }

  function WageRowsOver(ss: seq<Share>, storeNo: string, es: seq<EmpKey>): (w: seq<WageRow>)
    ensures |w| == |es|
    ensures forall i :: 0 <= i < |es| ==> w[i] == WageRowOf(ss, storeNo, es[i])
  {
    seq(|es|, i requires 0 <= i < |es| => WageRowOf(ss, storeNo, es[i]))
  }

  /** One row per employee of the merged table. */
  function WageRows(ss: seq<Share>, storeNo: string): seq<WageRow> {
    WageRowsOver(ss, storeNo, Keys(EmpHours(ss)))
  }

  /** `generate_wage_split_data(df, store_no, pay_period_start, wage_change_date)`, merged on the full weekly key, before `round(2)`. */
  function WageTable(rs: seq<PunchRecord>, storeNo: string, start: Date, change: Date): seq<WageRow>
    requires ValidDate(start)
  {
    WageRows(Shares(InPeriod(rs, start), change), storeNo)
  }

  /** The same report with the merge on `(emp_id, week)`, as app.py:302 writes it. */
  function WageTableAsWritten(rs: seq<PunchRecord>, storeNo: string, start: Date, change: Date): seq<WageRow>
    requires ValidDate(start)
  {
    WageRows(SharesAsWritten(InPeriod(rs, start), change), storeNo)
  }

  /** The hours of both wage periods over all rows. */
  function WageHours(w: seq<WageRow>): real
    decreases |w|
  {
    if w == [] then 0.0 else WageHours(w[..|w| - 1]) + w[|w| - 1].hours2025 + w[|w| - 1].hours2026
  }

  // ---------------------------------------------------------------------------
  // hours in equal hours out

  /** An employee's hours are those of the two wage periods. */
  lemma {:induction false} PeriodsSplitHours(ss: seq<Share>, e: EmpKey)
    ensures Total(PeriodPairs(ss, ShareHours), (e, Wages2025)) + Total(PeriodPairs(ss, ShareHours), (e, Wages2026))
            == Total(EmpHours(ss), e)
    decreases |ss|
  {
    if ss != [] {
      var init := ss[..|ss| - 1];
      var last := ss[|ss| - 1];
      PeriodsSplitHours(init, e);
      assert PeriodPairs(ss, ShareHours)[..|ss| - 1] == PeriodPairs(init, ShareHours);
      assert EmpHours(ss)[..|ss| - 1] == EmpHours(init);
      assert PeriodPairs(ss, ShareHours)[|ss| - 1] == ((last.key.emp, last.period), last.hours);
      assert EmpHours(ss)[|ss| - 1] == (last.key.emp, last.hours);
      assert Total(EmpHours(ss), e) == Total(EmpHours(init), e) + (if last.key.emp == e then last.hours else 0.0);
      assert Total(PeriodPairs(ss, ShareHours), (e, Wages2025)) == Total(PeriodPairs(init, ShareHours), (e, Wages2025)) + (if last.key.emp == e && last.period == Wages2025 then last.hours else 0.0);
      assert Total(PeriodPairs(ss, ShareHours), (e, Wages2026)) == Total(PeriodPairs(init, ShareHours), (e, Wages2026)) + (if last.key.emp == e && last.period == Wages2026 then last.hours else 0.0);
    }
  }

  lemma {:induction false} WageRowsOverHours(ss: seq<Share>, storeNo: string, es: seq<EmpKey>)
    ensures WageHours(WageRowsOver(ss, storeNo, es)) == TotalsOver(es, EmpHours(ss))
    decreases |es|
  {
    if es != [] {
      var init := es[..|es| - 1];
      WageRowsOverHours(ss, storeNo, init);
      assert WageRowsOver(ss, storeNo, es)[..|es| - 1] == WageRowsOver(ss, storeNo, init);
      PeriodsSplitHours(ss, es[|es| - 1]);
    }
  }

  /** The hours of a merged table. */
  function ShareHoursSum(ss: seq<Share>): real
    decreases |ss|
  {
    if ss == [] then 0.0 else ShareHoursSum(ss[..|ss| - 1]) + ss[|ss| - 1].hours
  }

  lemma {:induction false} EmpHoursSum(ss: seq<Share>)
    ensures Sum(EmpHours(ss)) == ShareHoursSum(ss)
    decreases |ss|
  {
    if ss != [] {
      EmpHoursSum(ss[..|ss| - 1]);
      assert EmpHours(ss)[..|ss| - 1] == EmpHours(ss[..|ss| - 1]);
    }
  }

  /** The report's hours are the hours of the merged table, whichever way it was merged. */
  lemma {:induction false} WageRowsConserve(ss: seq<Share>, storeNo: string)
    ensures WageHours(WageRows(ss, storeNo)) == ShareHoursSum(ss)
  {
    WageRowsOverHours(ss, storeNo, Keys(EmpHours(ss)));
    GroupsPartition(EmpHours(ss));
    EmpHoursSum(ss);
  }

  lemma {:induction false} SharesWithHours(part: seq<Dated>, whole: seq<Dated>, change: Date)
    ensures ShareHoursSum(SharesWith(part, whole, change)) == PeriodHours(part)
    decreases |part|
  {
    if part != [] {
      var init := part[..|part| - 1];
      SharesWithHours(init, whole, change);
      assert SharesWith(part, whole, change)[..|part| - 1] == SharesWith(init, whole, change);
    }
  }

  /**
   * Hours in equal hours out: `total_hours_2025 + total_hours_2026` over all rows is the
   * hours of the daily rows in the period.
   */
  lemma {:induction false} WageSplitConservesHours(rs: seq<PunchRecord>, storeNo: string, start: Date, change: Date)
    requires ValidDate(start)
    ensures WageHours(WageTable(rs, storeNo, start, change)) == PeriodHours(InPeriod(rs, start))
  {
    var ds := InPeriod(rs, start);
    WageRowsConserve(Shares(ds, change), storeNo);
    SharesWithHours(ds, ds, change);
  }

  // ---------------------------------------------------------------------------
  // a week's allocation adds up to its split

  /** The merged table as (weekly key, column value) pairs. */
  function WeekSharePairs(ss: seq<Share>, c: ShareColumn): (ps: seq<(WeekKey, real)>)
    ensures |ps| == |ss|
    ensures forall i :: 0 <= i < |ss| ==> ps[i] == (ss[i].key, ShareValue(ss[i], c))
  {
    seq(|ss|, i requires 0 <= i < |ss| => (ss[i].key, ShareValue(ss[i], c)))
  }

  /** Allotments of one week add up like the hours they are allotted for. */
  lemma Distribute(a: real, h: real, t: real, c: real)
    requires t > 0.0
    ensures Allotted(a, t, c) + Allotted(h, t, c) == Allotted(a + h, t, c)
  {
    assert a / t * c + h / t * c == (a / t + h / t) * c;
    assert a / t + h / t == (a + h) / t;
  }

  /** A week's hours are allotted all of its split. */
  lemma WholeWeek(t: real, c: real)
    requires t > 0.0
    ensures Allotted(t, t, c) == c
  {
    assert t / t == 1.0;
  }

  /** The week's regular or overtime hours, for the `drh` or `doh` column. */
  function SplitOf(c: ShareColumn, t: real): real {
    if c == ShareRegular then Regular(t) else Overtime(t)
  }

  /**
   * Within the rows of `part`, the `drh` (or `doh`) shares of week `k` add up to that
   * week's hours in `part` over its hours in `whole`, times its regular (or overtime)
   * hours in `whole`.
   */
  lemma {:induction false} WeekSharesWith(part: seq<Dated>, whole: seq<Dated>, change: Date, k: WeekKey, c: ShareColumn)
    requires Total(WeekPairs(whole), k) > 0.0 && c != ShareHours
    ensures var t := Total(WeekPairs(whole), k);
            Total(WeekSharePairs(SharesWith(part, whole, change), c), k) == Allotted(Total(WeekPairs(part), k), t, SplitOf(c, t))
    decreases |part|
  {
    var t := Total(WeekPairs(whole), k);
    var split := SplitOf(c, t);
    if part == [] {
      assert Allotted(0.0, t, split) == 0.0;
    } else {
      var init := part[..|part| - 1];
      var d := part[|part| - 1];
      WeekSharesWith(init, whole, change, k, c);
      var ss := SharesWith(part, whole, change);
      var sp, wp := WeekSharePairs(ss, c), WeekPairs(part);
      assert sp[..|part| - 1] == WeekSharePairs(SharesWith(init, whole, change), c);
      assert wp[..|part| - 1] == WeekPairs(init);
      var a := Total(WeekPairs(init), k);
      var h := HoursOrZero(d.row);
      var prev := Total(WeekSharePairs(SharesWith(init, whole, change), c), k);
      assert prev == Allotted(a, t, split);
      if WeekKey(KeyOf(d.row), d.week) == k {
        assert sp[|part| - 1] == (k, Allotted(h, t, split));
        assert Total(sp, k) == prev + Allotted(h, t, split);
        assert Total(wp, k) == a + h;
        Distribute(a, h, t, split);
      } else {
        assert Total(sp, k) == prev;
        assert Total(wp, k) == a;
      }
    }
  }

  /**
   * In each week with positive hours, the rows' `drh` add up to the week's `min(t, 40)` and
   * their `doh` to its `max(0, t - 40)`.
   */
  lemma {:induction false} WeekAllocationAddsUp(ds: seq<Dated>, change: Date, k: WeekKey)
    requires Total(WeekPairs(ds), k) > 0.0
    ensures var t := Total(WeekPairs(ds), k);
            && Total(WeekSharePairs(Shares(ds, change), ShareRegular), k) == Regular(t)
            && Total(WeekSharePairs(Shares(ds, change), ShareOvertime), k) == Overtime(t)
  {
    var t := Total(WeekPairs(ds), k);
    WeekSharesWith(ds, ds, change, k, ShareRegular);
    WeekSharesWith(ds, ds, change, k, ShareOvertime);
    WholeWeek(t, Regular(t));
    WholeWeek(t, Overtime(t));
  }

  // ---------------------------------------------------------------------------
  // the merge on (emp_id, week) as written

  /** Two punches of employee 1 in week 1, with the first name spelled two ways. */
  function TwoSpellings(): seq<Dated> {
    [Dated(PunchRecord("1", "Ann", "Lee", "Mon", "01/06/2025", "", "", Clockset, "5", Some(5.0), None), Date(2025, 1, 6), 1),
     Dated(PunchRecord("1", "Anne", "Lee", "Tue", "01/07/2025", "", "", Clockset, "3", Some(3.0), None), Date(2025, 1, 7), 1)]
  }

  lemma {:induction false} TwoSpellingsWeeks()
    ensures WeekSums(TwoSpellings())
            == [WeekSum(WeekKey(EmpKey("1", "Ann", "Lee"), 1), 5.0), WeekSum(WeekKey(EmpKey("1", "Anne", "Lee"), 1), 3.0)]
  {
    var wps := WeekPairs(TwoSpellings());
    var ann := WeekKey(EmpKey("1", "Ann", "Lee"), 1);
    var anne := WeekKey(EmpKey("1", "Anne", "Lee"), 1);
    var one: seq<(WeekKey, real)> := [(ann, 5.0)];
    assert wps == one + [(anne, 3.0)];
    assert wps[..1] == one && one[..0] == [];
    assert Keys(one) == [ann];
    assert ann != anne by { assert "Ann"[3..] == [] && "Anne"[3..] != []; }
    assert Keys(wps) == [ann, anne];
    assert Total(one, ann) == 5.0;
    assert Total(one, anne) == 0.0;
  }

  /** A row of id 1 in week 1 matches both weekly rows of id 1. */
  lemma {:induction false} MatchesBoth(d: Dated, change: Date)
    requires d.row.empId == "1" && d.week == 1
    ensures MatchesAsWritten(d, WeekSums(TwoSpellings()), change) == [ShareOf(d, change, 5.0), ShareOf(d, change, 3.0)]
  {
    TwoSpellingsWeeks();
    var ws := WeekSums(TwoSpellings());
    assert ws[..1] == [ws[0]] && ws[..1][..0] == [];
  }

  lemma {:induction false} ShareHoursSumAppend(a: seq<Share>, b: seq<Share>)
    ensures ShareHoursSum(a + b) == ShareHoursSum(a) + ShareHoursSum(b)
    decreases |b|
  {
    if b == [] {
      assert a + b == a;
    } else {
      assert (a + b)[..|a + b| - 1] == a + b[..|b| - 1];
      ShareHoursSumAppend(a, b[..|b| - 1]);
    }
  }

  /** The as-written merge of two rows is the matches of the first, then those of the second. */
  lemma {:induction false} SharesAsWrittenTwo(d0: Dated, d1: Dated, ws: seq<WeekSum>, change: Date)
    ensures SharesAsWrittenWith([d0, d1], ws, change) == MatchesAsWritten(d0, ws, change) + MatchesAsWritten(d1, ws, change)
  {
    assert [d0, d1][..1] == [d0] && [d0][..0] == [];
    assert SharesAsWrittenWith([d0], ws, change) == [] + MatchesAsWritten(d0, ws, change);
    assert [] + MatchesAsWritten(d0, ws, change) == MatchesAsWritten(d0, ws, change);
  }

  /** The pair of shares a row of id 1 matches adds its hours twice. */
  lemma {:induction false} MatchedTwice(d: Dated, change: Date)
    requires d.row.empId == "1" && d.week == 1
    ensures ShareHoursSum(MatchesAsWritten(d, WeekSums(TwoSpellings()), change)) == 2.0 * HoursOrZero(d.row)
  {
    MatchesBoth(d, change);
    var m := [ShareOf(d, change, 5.0), ShareOf(d, change, 3.0)];
    assert m[..1] == [m[0]] && m[..1][..0] == [];
    assert ShareHoursSum(m[..1]) == m[0].hours;
    assert ShareHoursSum(m) == m[0].hours + m[1].hours;
  }

  lemma {:induction false} AsWrittenHours(change: Date)
    ensures ShareHoursSum(SharesAsWritten(TwoSpellings(), change)) == 16.0
  {
    var ds := TwoSpellings();
    var ws := WeekSums(ds);
    MatchedTwice(ds[0], change);
    MatchedTwice(ds[1], change);
    SharesAsWrittenTwo(ds[0], ds[1], ws, change);
    assert ds == [ds[0], ds[1]];
    ShareHoursSumAppend(MatchesAsWritten(ds[0], ws, change), MatchesAsWritten(ds[1], ws, change));
  }

  lemma {:induction false} TwoSpellingsHours()
    ensures PeriodHours(TwoSpellings()) == 8.0
  {
    var ds := TwoSpellings();
    assert ds[..1][..0] == [];
  }

  /**
   * With the merge on `(emp_id, week)`, each of the two punches matches both weekly rows of
   * id 1, so the report counts 16 hours for 8 hours worked; merged on the full key it
   * counts 8.
   */
  lemma {:induction false} MergeOnIdDuplicatesHours(change: Date)
    ensures PeriodHours(TwoSpellings()) == 8.0
    ensures WageHours(WageRows(SharesAsWritten(TwoSpellings(), change), "1")) == 16.0
    ensures WageHours(WageRows(Shares(TwoSpellings(), change), "1")) == 8.0
  {
    var ds := TwoSpellings();
    TwoSpellingsHours();
    AsWrittenHours(change);
    WageRowsConserve(SharesAsWritten(ds, change), "1");
    WageRowsConserve(Shares(ds, change), "1");
    SharesWithHours(ds, ds, change);
  }

  /** The two punches of `TwoSpellings` as the parsed table holds them. */
  function TwoSpellingsPunches(): seq<PunchRecord> {
    [TwoSpellings()[0].row, TwoSpellings()[1].row]
  }

  /** Both punches fall in week 1 of the period starting Monday 6 January 2025. */
  lemma {:induction false} TwoSpellingsInPeriod(rs: seq<PunchRecord>, ds: seq<Dated>, start: Date)
    requires rs == TwoSpellingsPunches() && ds == TwoSpellings() && start == Date(2025, 1, 6)
    ensures InPeriod(rs, start) == ds
  {
    FirstPunchKept(ds[0], start);
    SecondPunchKept(ds[1], start);
    InPeriodPair(rs, ds, start);
  }

  /** Two daily rows that both fall in a week of the period are both kept, in order. */
  lemma InPeriodPair(rs: seq<PunchRecord>, ds: seq<Dated>, start: Date)
    requires ValidDate(start) && |ds| == 2 && rs == [ds[0].row, ds[1].row]
    requires IsDaily(ds[0].row) && WeekNumber(ds[0].row.date, start) == InWeek(ds[0].date, ds[0].week)
    requires IsDaily(ds[1].row) && WeekNumber(ds[1].row.date, start) == InWeek(ds[1].date, ds[1].week)
    ensures InPeriod(rs, start) == ds
  {
    assert rs[..1] == [ds[0].row] && rs[..1][..0] == [];
    assert ds == [ds[0], ds[1]];
  }

  lemma FirstPunchKept(d: Dated, start: Date)
    requires d == TwoSpellings()[0] && start == Date(2025, 1, 6)
    ensures IsDaily(d.row) && WeekNumber(d.row.date, start) == InWeek(d.date, d.week)
  {
    JanuaryWeek('0', '6');
    assert d.row.date == ['0', '1', '/', '0', '6', '/', '2', '0', '2', '5'];
  }

  lemma SecondPunchKept(d: Dated, start: Date)
    requires d == TwoSpellings()[1] && start == Date(2025, 1, 6)
    ensures IsDaily(d.row) && WeekNumber(d.row.date, start) == InWeek(d.date, d.week)
  {
    JanuaryWeek('0', '7');
    assert d.row.date == ['0', '1', '/', '0', '7', '/', '2', '0', '2', '5'];
  }

  /**
   * On the punch table itself: for 8 clocked hours, `generate_wage_split_data` as written
   * reports 16, and the report with the full-key merge reports 8.
   */
  lemma {:induction false} WageTableDuplicatesHours(change: Date)
    ensures PeriodHours(InPeriod(TwoSpellingsPunches(), Date(2025, 1, 6))) == 8.0
    ensures WageHours(WageTableAsWritten(TwoSpellingsPunches(), "1", Date(2025, 1, 6), change)) == 16.0
    ensures WageHours(WageTable(TwoSpellingsPunches(), "1", Date(2025, 1, 6), change)) == 8.0
  {
    TwoSpellingsInPeriod(TwoSpellingsPunches(), TwoSpellings(), Date(2025, 1, 6));
    MergeOnIdDuplicatesHours(change);
  }

  // ---------------------------------------------------------------------------
  // the two reports agree per employee

  lemma EmpHoursOfShares(ds: seq<Dated>, change: Date)
    ensures EmpHours(Shares(ds, change)) == EmpOfPairs(WeekPairs(ds))
  {
  }

  /**
   * For every employee, `total_hours_2025 + total_hours_2026` of the wage-split report is
   * the `total_hours` of the pivot report before its override.
   */
  lemma {:induction false} WageSplitMatchesPivot(ds: seq<Dated>, change: Date, storeNo: string, e: EmpKey)
    ensures var w := WageRowOf(Shares(ds, change), storeNo, e);
            w.hours2025 + w.hours2026 == PivotOf(WeekSums(ds), storeNo, e).total
  {
    PeriodsSplitHours(Shares(ds, change), e);
    EmpHoursOfShares(ds, change);
    PivotTotalOfEmployee(ds, storeNo, e);
  }

  // ---------------------------------------------------------------------------
  // when the merge on (emp_id, week) is harmless

  /** No employee id is spelled with two names within one week. */
  predicate OneSpellingPerWeek(ds: seq<Dated>) {
    forall a, b :: 0 <= a < |ds| && 0 <= b < |ds| && ds[a].row.empId == ds[b].row.empId && ds[a].week == ds[b].week
                   ==> KeyOf(ds[a].row) == KeyOf(ds[b].row)
  }

  lemma {:induction false} MatchesNone(d: Dated, ws: seq<WeekSum>, change: Date)
    requires forall n :: 0 <= n < |ws| ==> !MatchesOnId(ws[n], d)
    ensures MatchesAsWritten(d, ws, change) == []
    decreases |ws|
  {
    if ws != [] {
      var init := ws[..|ws| - 1];
      assert forall n :: 0 <= n < |init| ==> init[n] == ws[n];
      MatchesNone(d, init, change);
    }
  }

  /** A row that matches exactly one weekly row becomes exactly one share. */
  lemma {:induction false} MatchesSingle(d: Dated, ws: seq<WeekSum>, change: Date, i: nat)
    requires i < |ws| && MatchesOnId(ws[i], d)
    requires forall n :: 0 <= n < |ws| && MatchesOnId(ws[n], d) ==> n == i
    ensures MatchesAsWritten(d, ws, change) == [ShareOf(d, change, ws[i].hours)]
    decreases |ws|
  {
    var init := ws[..|ws| - 1];
    assert forall n :: 0 <= n < |init| ==> init[n] == ws[n];
    if i == |ws| - 1 {
      MatchesNone(d, init, change);
    } else {
      MatchesSingle(d, init, change, i);
    }
  }

  /** Without a second spelling, a row of `ds` matches only the weekly row of its own full key. */
  lemma {:induction false} MatchesOwnWeek(ds: seq<Dated>, d: Dated, change: Date)
    requires OneSpellingPerWeek(ds) && d in ds
    ensures MatchesAsWritten(d, WeekSums(ds), change) == [ShareOf(d, change, WeekTotalOf(ds, d))]
  {
    var ps := WeekPairs(ds);
    var ks := Keys(ps);
    var ws := WeekSums(ds);
    var k := WeekKey(KeyOf(d.row), d.week);
    var a :| 0 <= a < |ds| && ds[a] == d;
    assert ps[a].0 == k;
    var i :| 0 <= i < |ks| && ks[i] == k;
    forall n | 0 <= n < |ws| && MatchesOnId(ws[n], d)
      ensures n == i
    {
      KeysFromRows(ps, ks[n]);
      var b :| 0 <= b < |ps| && ps[b].0 == ks[n];
      assert KeyOf(ds[b].row) == KeyOf(ds[a].row);
    }
    MatchesSingle(d, ws, change, i);
  }

  lemma {:induction false} SharesAsWrittenWithAgrees(part: seq<Dated>, whole: seq<Dated>, change: Date)
    requires OneSpellingPerWeek(whole) && forall d :: d in part ==> d in whole
    ensures SharesAsWrittenWith(part, WeekSums(whole), change) == SharesWith(part, whole, change)
    decreases |part|
  {
    if part != [] {
      var init := part[..|part| - 1];
      var d := part[|part| - 1];
      SharesAsWrittenWithAgrees(init, whole, change);
      MatchesOwnWeek(whole, d, change);
      assert SharesWith(part, whole, change) == SharesWith(init, whole, change) + [ShareOf(d, change, WeekTotalOf(whole, d))];
    }
  }

  /** When no employee id has two spellings in a week, the merge on `(emp_id, week)` changes nothing. */
  lemma {:induction false} SharesAsWrittenAgrees(ds: seq<Dated>, change: Date)
    requires OneSpellingPerWeek(ds)
    ensures SharesAsWritten(ds, change) == Shares(ds, change)
  {
    SharesAsWrittenWithAgrees(ds, ds, change);
  }

  /** ... and the report as written is the report merged on the full key. */
  lemma {:induction false} WageTableAgrees(rs: seq<PunchRecord>, storeNo: string, start: Date, change: Date)
    requires ValidDate(start) && OneSpellingPerWeek(InPeriod(rs, start))
    ensures WageTableAsWritten(rs, storeNo, start, change) == WageTable(rs, storeNo, start, change)
  {
    SharesAsWrittenAgrees(InPeriod(rs, start), change);
  }

  // ---------------------------------------------------------------------------
  // the wage periods follow the punch dates

  /** The hours of employee `e`'s rows of `ds` dated before the wage-change date (`early`) or on and after it. */
  function DatedHours(ds: seq<Dated>, e: EmpKey, change: Date, early: bool): real
    decreases |ds|
  {
    if ds == [] then 0.0
    else
      var d := ds[|ds| - 1];
      DatedHours(ds[..|ds| - 1], e, change, early)
      + (if KeyOf(d.row) == e && Before(d.date, change) == early then HoursOrZero(d.row) else 0.0)
  }

  lemma {:induction false} PeriodHoursWith(part: seq<Dated>, whole: seq<Dated>, change: Date, e: EmpKey)
    ensures Total(PeriodPairs(SharesWith(part, whole, change), ShareHours), (e, Wages2025)) == DatedHours(part, e, change, true)
    ensures Total(PeriodPairs(SharesWith(part, whole, change), ShareHours), (e, Wages2026)) == DatedHours(part, e, change, false)
    decreases |part|
  {
    if part != [] {
      var init := part[..|part| - 1];
      var d := part[|part| - 1];
      PeriodHoursWith(init, whole, change, e);
      var ps := PeriodPairs(SharesWith(part, whole, change), ShareHours);
      assert ps[..|part| - 1] == PeriodPairs(SharesWith(init, whole, change), ShareHours);
      assert ps[|part| - 1].1 == HoursOrZero(d.row);
      assert ps[|part| - 1].0 == (KeyOf(d.row), WagePeriodOf(d.date, change));
    }
  }

  /**
   * An employee's `total_hours_2025` are the hours of their punches dated strictly before the
   * wage-change date, and `total_hours_2026` the hours of the others.
   */
  lemma {:induction false} WageColumnsByDate(ds: seq<Dated>, change: Date, storeNo: string, e: EmpKey)
    ensures WageRowOf(Shares(ds, change), storeNo, e).hours2025 == DatedHours(ds, e, change, true)
    ensures WageRowOf(Shares(ds, change), storeNo, e).hours2026 == DatedHours(ds, e, change, false)
  {
    PeriodHoursWith(ds, ds, change, e);
  }

  /** ... and so for every row of the report: its columns are its employee's hours on each side of the change date. */
  lemma {:induction false} WageTableByDate(rs: seq<PunchRecord>, storeNo: string, start: Date, change: Date)
    requires ValidDate(start)
    ensures var w := WageTable(rs, storeNo, start, change);
            forall i :: 0 <= i < |w| ==>
              && w[i].store == storeNo
              && w[i].hours2025 == DatedHours(InPeriod(rs, start), w[i].emp, change, true)
              && w[i].hours2026 == DatedHours(InPeriod(rs, start), w[i].emp, change, false)
  {
    var ds := InPeriod(rs, start);
    var w := WageTable(rs, storeNo, start, change);
    forall i | 0 <= i < |w|
      ensures w[i].hours2025 == DatedHours(ds, w[i].emp, change, true)
      ensures w[i].hours2026 == DatedHours(ds, w[i].emp, change, false)
    {
      WageColumnsByDate(ds, change, storeNo, w[i].emp);
    }
  }

  // ---------------------------------------------------------------------------
  // each wage period's regular and overtime add up to its hours

  /** No row has negative hours. */
  predicate NoNegativeHours(ds: seq<Dated>) {
    forall i :: 0 <= i < |ds| ==> HoursOrZero(ds[i].row) >= 0.0
  }

  /** Without negative values, a group's sum is at least each of its values. */
  lemma {:induction false} TotalAtLeastRow<K>(rows: seq<(K, real)>, i: nat)
    requires i < |rows| && forall j :: 0 <= j < |rows| ==> rows[j].1 >= 0.0
    ensures Total(rows, rows[i].0) >= rows[i].1
    decreases |rows|
  {
    var init := rows[..|rows| - 1];
    assert forall j :: 0 <= j < |init| ==> init[j] == rows[j];
    if i < |init| {
      TotalAtLeastRow(init, i);
    } else {
      TotalAtLeast(init, rows[i].0);
    }
  }

  lemma {:induction false} TotalAtLeast<K>(rows: seq<(K, real)>, k: K)
    requires forall j :: 0 <= j < |rows| ==> rows[j].1 >= 0.0
    ensures Total(rows, k) >= 0.0
    decreases |rows|
  {
    if rows != [] {
      var init := rows[..|rows| - 1];
      assert forall j :: 0 <= j < |init| ==> init[j] == rows[j];
      TotalAtLeast(init, k);
    }
  }

  /** Without negative hours, every day's regular and overtime shares add up to its hours. */
  lemma {:induction false} ShareSplitsHours(ds: seq<Dated>, change: Date, i: nat)
    requires NoNegativeHours(ds) && i < |ds|
    ensures var s := Shares(ds, change)[i]; s.regular + s.overtime == s.hours
  {
    var d := ds[i];
    var t := WeekTotalOf(ds, d);
    var h := HoursOrZero(d.row);
    if t > 0.0 {
      ShareAddsUp(d, change, t);
    } else {
      var ps := WeekPairs(ds);
      assert ps[i] == (WeekKey(KeyOf(d.row), d.week), h);
      TotalAtLeastRow(ps, i);
      assert h == 0.0;
    }
  }

  lemma {:induction false} PeriodColumnsAddUp(ss: seq<Share>, key: (EmpKey, WagePeriod))
    requires forall i :: 0 <= i < |ss| ==> ss[i].regular + ss[i].overtime == ss[i].hours
    ensures Total(PeriodPairs(ss, ShareRegular), key) + Total(PeriodPairs(ss, ShareOvertime), key)
            == Total(PeriodPairs(ss, ShareHours), key)
    decreases |ss|
  {
    if ss != [] {
      var init := ss[..|ss| - 1];
      assert forall i :: 0 <= i < |init| ==> init[i] == ss[i];
      PeriodColumnsAddUp(init, key);
      assert PeriodPairs(ss, ShareRegular)[..|ss| - 1] == PeriodPairs(init, ShareRegular);
      assert PeriodPairs(ss, ShareOvertime)[..|ss| - 1] == PeriodPairs(init, ShareOvertime);
      assert PeriodPairs(ss, ShareHours)[..|ss| - 1] == PeriodPairs(init, ShareHours);
    }
  }

  /**
   * Without negative hours, `regular_2025 + overtime_2025 == total_hours_2025` and
   * `regular_2026 + overtime_2026 == total_hours_2026` for every employee.
   */
  lemma {:induction false} WagePeriodsAddUp(ds: seq<Dated>, change: Date, storeNo: string, e: EmpKey)
    requires NoNegativeHours(ds)
    ensures var w := WageRowOf(Shares(ds, change), storeNo, e);
            && w.regular2025 + w.overtime2025 == w.hours2025
            && w.regular2026 + w.overtime2026 == w.hours2026
  {
    var ss := Shares(ds, change);
    forall i | 0 <= i < |ss|
      ensures ss[i].regular + ss[i].overtime == ss[i].hours
    {
      ShareSplitsHours(ds, change, i);
    }
    PeriodColumnsAddUp(ss, (e, Wages2025));
    PeriodColumnsAddUp(ss, (e, Wages2026));
  }
}
