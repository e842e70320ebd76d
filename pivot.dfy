/**
 * `generate_pivot_data` (app.py:271-290): hours per employee and week, split at 40 hours a
 * week into regular and overtime, summed per employee, then overridden by the reported
 * overtime of payroll files when there is any.
 */
module Pivot {
  import opened Dates
  import opened Records
  import opened Groups
  import opened Daily

  /** The weekly limit of regular hours. */
  const WeeklyLimit: real := 40.0

  /** `min(x, 40)` */
  function Regular(h: real): real {
    if h < WeeklyLimit then h else WeeklyLimit
  }

  /** `max(0, x - 40)` */
  function Overtime(h: real): real {
    if 0.0 < h - WeeklyLimit then h - WeeklyLimit else 0.0
  }

  /** A week's hours split into at most 40 regular hours and the non-negative rest. */
  lemma WeekSplit(h: real)
    ensures Regular(h) + Overtime(h) == h
    ensures Regular(h) <= WeeklyLimit && Overtime(h) >= 0.0
    ensures Overtime(h) > 0.0 <==> h > WeeklyLimit
  {
  }

  // ---------------------------------------------------------------------------
  // per employee and week

  /** The key of the weekly grouping: `(emp_id, first_name, last_name, week)`. */
  datatype WeekKey = WeekKey(emp: EmpKey, week: nat)

  /** The rows as (weekly key, hours) pairs. */
  function WeekPairs(ds: seq<Dated>): (ps: seq<(WeekKey, real)>)
    ensures |ps| == |ds|
    ensures forall i :: 0 <= i < |ds| ==> ps[i] == (WeekKey(KeyOf(ds[i].row), ds[i].week), HoursOrZero(ds[i].row))
  {
    seq(|ds|, i requires 0 <= i < |ds| => (WeekKey(KeyOf(ds[i].row), ds[i].week), HoursOrZero(ds[i].row)))
  }

  /** One row of `ws`: an employee's hours in one week. */
  datatype WeekSum = WeekSum(key: WeekKey, hours: real)

  function SumsOver(keys: seq<WeekKey>, ps: seq<(WeekKey, real)>): (ws: seq<WeekSum>)
    ensures |ws| == |keys|
    ensures forall i :: 0 <= i < |keys| ==> ws[i] == WeekSum(keys[i], Total(ps, keys[i]))
  {
    seq(|keys|, i requires 0 <= i < |keys| => WeekSum(keys[i], Total(ps, keys[i])))
  }

  /** `ws`: one row per employee and week with `wh`, the sum of the week's hours. */
  function WeekSums(ds: seq<Dated>): seq<WeekSum> {
    SumsOver(Keys(WeekPairs(ds)), WeekPairs(ds))
  }

  /** The hours of a weekly table. */
  function WeekHours(ws: seq<WeekSum>): real
    decreases |ws|
  {
    if ws == [] then 0.0 else WeekHours(ws[..|ws| - 1]) + ws[|ws| - 1].hours
  }

  lemma {:induction false} SumsOverHours(keys: seq<WeekKey>, ps: seq<(WeekKey, real)>)
    ensures WeekHours(SumsOver(keys, ps)) == TotalsOver(keys, ps)
    decreases |keys|
  {
    if keys != [] {
      SumsOverHours(keys[..|keys| - 1], ps);
      assert SumsOver(keys, ps)[..|keys| - 1] == SumsOver(keys[..|keys| - 1], ps);
    }
  }

  lemma {:induction false} WeekPairsSum(ds: seq<Dated>)
    ensures Sum(WeekPairs(ds)) == PeriodHours(ds)
    decreases |ds|
  {
    if ds != [] {
      WeekPairsSum(ds[..|ds| - 1]);
      assert WeekPairs(ds)[..|ds| - 1] == WeekPairs(ds[..|ds| - 1]);
    }
  }

  /** The weekly sums keep every hour of the period. */
  lemma {:induction false} WeekSumsConserve(ds: seq<Dated>)
    ensures WeekHours(WeekSums(ds)) == PeriodHours(ds)
  {
    SumsOverHours(Keys(WeekPairs(ds)), WeekPairs(ds));
    GroupsPartition(WeekPairs(ds));
    WeekPairsSum(ds);
  }

  // ---------------------------------------------------------------------------
  // per employee

  /** Which column of `ws` a per-employee sum adds: `wh`, `calc_reg` or `calc_ot`. */
  datatype Column = WeekTotal | WeekRegular | WeekOvertime

  function ColumnValue(c: Column, h: real): real {
    match c
    case WeekTotal => h
    case WeekRegular => Regular(h)
    case WeekOvertime => Overtime(h)
  }

  /** The weekly table as (employee, column value) pairs. */
  function EmpPairs(ws: seq<WeekSum>, c: Column): (ps: seq<(EmpKey, real)>)
    ensures |ps| == |ws|
    ensures forall i :: 0 <= i < |ws| ==> ps[i] == (ws[i].key.emp, ColumnValue(c, ws[i].hours))
  {
    seq(|ws|, i requires 0 <= i < |ws| => (ws[i].key.emp, ColumnValue(c, ws[i].hours)))
  }

  /** One row of the pivot report (its `name` column is always empty and not modelled). */
  datatype PivotRow = PivotRow(store: string, total: real, regular: real, overtime: real, emp: EmpKey)

  function PivotOf(ws: seq<WeekSum>, storeNo: string, e: EmpKey): PivotRow {
    PivotRow(storeNo, Total(EmpPairs(ws, WeekTotal), e), Total(EmpPairs(ws, WeekRegular), e),
             Total(EmpPairs(ws, WeekOvertime), e), e)
  }

  function PivotsOver(ws: seq<WeekSum>, storeNo: string, es: seq<EmpKey>): (p: seq<PivotRow>)
    ensures |p| == |es|
    ensures forall i :: 0 <= i < |es| ==> p[i] == PivotOf(ws, storeNo, es[i])
  {
    seq(|es|, i requires 0 <= i < |es| => PivotOf(ws, storeNo, es[i]))
  }

  /** `p` before the override: one row per employee of the weekly table. */
  function EmployeeSums(ws: seq<WeekSum>, storeNo: string): seq<PivotRow> {
    PivotsOver(ws, storeNo, Keys(EmpPairs(ws, WeekTotal)))
  }

  /** Per employee, the regular and overtime sums add up to the total. */
  lemma {:induction false} ColumnsAddUp(ws: seq<WeekSum>, e: EmpKey)
    ensures Total(EmpPairs(ws, WeekRegular), e) + Total(EmpPairs(ws, WeekOvertime), e) == Total(EmpPairs(ws, WeekTotal), e)
    ensures Total(EmpPairs(ws, WeekOvertime), e) >= 0.0
    decreases |ws|
  {
    if ws != [] {
      var init := ws[..|ws| - 1];
      ColumnsAddUp(init, e);
      forall c: Column
        ensures EmpPairs(ws, c)[..|ws| - 1] == EmpPairs(init, c)
      {
      }
      WeekSplit(ws[|ws| - 1].hours);
    }
  }

  // ---------------------------------------------------------------------------
  // reported overtime

  /** `reported_ot_df` as (emp_id, hours) pairs, in row order. */
  function ReportedPairs(rs: seq<PunchRecord>): (ps: seq<(string, real)>)
    ensures |ps| <= |rs|
    decreases |rs|
  {
    if rs == [] then []
    else
      var init := ReportedPairs(rs[..|rs| - 1]);
      var r := rs[|rs| - 1];
      if r.kind == OvertimeReported then init + [(r.empId, HoursOrZero(r))] else init
  }

  /** The left merge with `rots` on `emp_id`: a matched row takes the reported overtime and keeps its total. */
  function Override(p: PivotRow, rots: seq<(string, real)>): (q: PivotRow)
    ensures q.total == p.total && q.emp == p.emp && q.store == p.store
    ensures p.emp.id in Keys(rots) ==> q.overtime == Total(rots, p.emp.id) && q.regular == q.total - q.overtime
    ensures p.emp.id !in Keys(rots) ==> q == p
  {
    if p.emp.id in Keys(rots) then
      var ot := Total(rots, p.emp.id);
      p.(overtime := ot, regular := p.total - ot)
    else p
  }

  function OverrideAll(ps: seq<PivotRow>, rots: seq<(string, real)>): (qs: seq<PivotRow>)
    ensures |qs| == |ps|
    ensures forall i :: 0 <= i < |ps| ==> qs[i] == Override(ps[i], rots)
  {
    seq(|ps|, i requires 0 <= i < |ps| => Override(ps[i], rots))
  }

  /** `generate_pivot_data(df, store_no, pay_period_start)`, before `round(2)`. */
  function PivotTable(rs: seq<PunchRecord>, storeNo: string, start: Date): seq<PivotRow>
    requires ValidDate(start)
  {
    var base := EmployeeSums(WeekSums(InPeriod(rs, start)), storeNo);
    var rots := ReportedPairs(rs);
    if rots == [] then base else OverrideAll(base, rots)
  }

  /** The sum of the `total` column. */
  function PivotTotal(ps: seq<PivotRow>): real
    decreases |ps|
  {
    if ps == [] then 0.0 else PivotTotal(ps[..|ps| - 1]) + ps[|ps| - 1].total
  }

  // ---------------------------------------------------------------------------
  // what the report guarantees

  /** Each row's regular and overtime hours add up to its total, with or without the override. */
  lemma {:induction false} PivotRowsBalance(rs: seq<PunchRecord>, storeNo: string, start: Date)
    requires ValidDate(start)
    ensures forall p :: p in PivotTable(rs, storeNo, start) ==> p.regular + p.overtime == p.total
  {
    var ws := WeekSums(InPeriod(rs, start));
    var base := EmployeeSums(ws, storeNo);
    forall p | p in base
      ensures p.regular + p.overtime == p.total
    {
      var i :| 0 <= i < |base| && base[i] == p;
      ColumnsAddUp(ws, p.emp);
    }
  }

  /** Without reported overtime, no row's overtime is negative. */
  lemma {:induction false} PivotOvertimeNonNegative(rs: seq<PunchRecord>, storeNo: string, start: Date)
    requires ValidDate(start) && ReportedPairs(rs) == []
    ensures forall p :: p in PivotTable(rs, storeNo, start) ==> p.overtime >= 0.0
  {
    var ws := WeekSums(InPeriod(rs, start));
    var base := EmployeeSums(ws, storeNo);
    forall p | p in base
      ensures p.overtime >= 0.0
    {
      var i :| 0 <= i < |base| && base[i] == p;
      ColumnsAddUp(ws, p.emp);
    }
  }

  /**
   * The override: a row whose id has reported overtime carries its sum as overtime, a row
   * without keeps its computed split, and the rows and their totals are those before it.
   */
  lemma {:induction false} PivotOverride(rs: seq<PunchRecord>, storeNo: string, start: Date)
    requires ValidDate(start)
    ensures var base := EmployeeSums(WeekSums(InPeriod(rs, start)), storeNo);
            var table := PivotTable(rs, storeNo, start);
            var rots := ReportedPairs(rs);
            && |table| == |base|
            && (forall i :: 0 <= i < |table| ==> table[i].emp == base[i].emp && table[i].total == base[i].total)
            && (forall i :: 0 <= i < |table| && base[i].emp.id in Keys(rots) ==> table[i].overtime == Total(rots, base[i].emp.id))
            && (forall i :: 0 <= i < |table| && base[i].emp.id !in Keys(rots) ==> table[i] == base[i])
  {
    var base := EmployeeSums(WeekSums(InPeriod(rs, start)), storeNo);
    var rots := ReportedPairs(rs);
    if rots == [] {
      assert Keys(rots) == [];
    }
  }

  /** Every row of the weekly table is keyed by an employee and week of a row in the period. */
  lemma {:induction false} WeekSumsFromPeriod(ds: seq<Dated>, j: nat)
    requires j < |WeekSums(ds)|
    ensures exists d :: d in ds && KeyOf(d.row) == WeekSums(ds)[j].key.emp
  {
    var wps := WeekPairs(ds);
    var k := WeekSums(ds)[j].key;
    assert k == Keys(wps)[j];
    KeysFromRows(wps, k);
    var m :| 0 <= m < |wps| && wps[m].0 == k;
    assert ds[m] in ds;
  }

  /** Every row of the per-employee table is an employee of the weekly table, and no employee has two rows. */
  lemma {:induction false} EmployeeSumsFromWeeks(ws: seq<WeekSum>, storeNo: string, i: nat)
    requires i < |EmployeeSums(ws, storeNo)|
    ensures exists j :: 0 <= j < |ws| && ws[j].key.emp == EmployeeSums(ws, storeNo)[i].emp
    ensures forall m :: 0 <= m < |EmployeeSums(ws, storeNo)| && m != i ==> EmployeeSums(ws, storeNo)[m].emp != EmployeeSums(ws, storeNo)[i].emp
  {
    var eps := EmpPairs(ws, WeekTotal);
    var e := Keys(eps)[i];
    KeysFromRows(eps, e);
    var j :| 0 <= j < |eps| && eps[j].0 == e;
  }

  /** Every row is an employee with hours in the period: reported overtime alone adds no row. */
  lemma {:induction false} PivotRowsFromPeriod(rs: seq<PunchRecord>, storeNo: string, start: Date)
    requires ValidDate(start)
    ensures forall i :: 0 <= i < |PivotTable(rs, storeNo, start)| ==>
              exists d :: d in InPeriod(rs, start) && KeyOf(d.row) == PivotTable(rs, storeNo, start)[i].emp
  {
    var ds := InPeriod(rs, start);
    var ws := WeekSums(ds);
    var base := EmployeeSums(ws, storeNo);
    var table := PivotTable(rs, storeNo, start);
    PivotOverride(rs, storeNo, start);
    forall i | 0 <= i < |table|
      ensures exists d :: d in ds && KeyOf(d.row) == table[i].emp
    {
      EmployeeSumsFromWeeks(ws, storeNo, i);
      var j :| 0 <= j < |ws| && ws[j].key.emp == base[i].emp;
      WeekSumsFromPeriod(ds, j);
    }
  }

  /** No employee has two rows. */
  lemma {:induction false} PivotRowsDistinct(rs: seq<PunchRecord>, storeNo: string, start: Date)
    requires ValidDate(start)
    ensures forall i, j :: 0 <= i < j < |PivotTable(rs, storeNo, start)| ==>
              PivotTable(rs, storeNo, start)[i].emp != PivotTable(rs, storeNo, start)[j].emp
  {
    var ws := WeekSums(InPeriod(rs, start));
    var table := PivotTable(rs, storeNo, start);
    PivotOverride(rs, storeNo, start);
    forall i, j | 0 <= i < j < |table|
      ensures table[i].emp != table[j].emp
    {
      EmployeeSumsFromWeeks(ws, storeNo, i);
    }
  }

  lemma {:induction false} PivotsOverTotal(ws: seq<WeekSum>, storeNo: string, es: seq<EmpKey>)
    ensures PivotTotal(PivotsOver(ws, storeNo, es)) == TotalsOver(es, EmpPairs(ws, WeekTotal))
    decreases |es|
  {
    if es != [] {
      PivotsOverTotal(ws, storeNo, es[..|es| - 1]);
      assert PivotsOver(ws, storeNo, es)[..|es| - 1] == PivotsOver(ws, storeNo, es[..|es| - 1]);
    }
  }

  lemma {:induction false} EmpPairsSum(ws: seq<WeekSum>)
    ensures Sum(EmpPairs(ws, WeekTotal)) == WeekHours(ws)
    decreases |ws|
  {
    if ws != [] {
      EmpPairsSum(ws[..|ws| - 1]);
      assert EmpPairs(ws, WeekTotal)[..|ws| - 1] == EmpPairs(ws[..|ws| - 1], WeekTotal);
    }
  }

  lemma {:induction false} OverrideAllTotal(ps: seq<PivotRow>, rots: seq<(string, real)>)
    ensures PivotTotal(OverrideAll(ps, rots)) == PivotTotal(ps)
    decreases |ps|
  {
    if ps != [] {
      OverrideAllTotal(ps[..|ps| - 1], rots);
      assert OverrideAll(ps, rots)[..|ps| - 1] == OverrideAll(ps[..|ps| - 1], rots);
    }
  }

  /** Hours in equal hours out: the `total` column adds up to the hours of the rows in the period. */
  lemma {:induction false} PivotConservesHours(rs: seq<PunchRecord>, storeNo: string, start: Date)
    requires ValidDate(start)
    ensures PivotTotal(PivotTable(rs, storeNo, start)) == PeriodHours(InPeriod(rs, start))
  {
    var ds := InPeriod(rs, start);
    var ws := WeekSums(ds);
    var eps := EmpPairs(ws, WeekTotal);
    var base := EmployeeSums(ws, storeNo);
    PivotsOverTotal(ws, storeNo, Keys(eps));
    GroupsPartition(eps);
    EmpPairsSum(ws);
    WeekSumsConserve(ds);
    OverrideAllTotal(base, ReportedPairs(rs));
  }

  // ---------------------------------------------------------------------------
  // an employee's total is the hours of the employee's rows

  /** The weekly pairs with the hours of every employee but `e` set to 0. */
  function Masked(ps: seq<(WeekKey, real)>, e: EmpKey): (qs: seq<(WeekKey, real)>)
    ensures |qs| == |ps|
    ensures forall i :: 0 <= i < |ps| ==> qs[i] == (ps[i].0, if ps[i].0.emp == e then ps[i].1 else 0.0)
  {
    seq(|ps|, i requires 0 <= i < |ps| => (ps[i].0, if ps[i].0.emp == e then ps[i].1 else 0.0))
  }

  /** The weekly pairs as (employee, hours) pairs. */
  function EmpOfPairs(ps: seq<(WeekKey, real)>): (qs: seq<(EmpKey, real)>)
    ensures |qs| == |ps|
    ensures forall i :: 0 <= i < |ps| ==> qs[i] == (ps[i].0.emp, ps[i].1)
  {
    seq(|ps|, i requires 0 <= i < |ps| => (ps[i].0.emp, ps[i].1))
  }

  lemma {:induction false} TotalMasked(ps: seq<(WeekKey, real)>, e: EmpKey, k: WeekKey)
    ensures Total(Masked(ps, e), k) == if k.emp == e then Total(ps, k) else 0.0
    decreases |ps|
  {
    if ps != [] {
      var n := |ps| - 1;
      assert Masked(ps, e)[..n] == Masked(ps[..n], e);
      TotalMasked(ps[..n], e, k);
    }
  }

  lemma {:induction false} SumMasked(ps: seq<(WeekKey, real)>, e: EmpKey)
    ensures Sum(Masked(ps, e)) == Total(EmpOfPairs(ps), e)
    decreases |ps|
  {
    if ps != [] {
      var n := |ps| - 1;
      assert Masked(ps, e)[..n] == Masked(ps[..n], e);
      assert EmpOfPairs(ps)[..n] == EmpOfPairs(ps[..n]);
      SumMasked(ps[..n], e);
    }
  }

  lemma {:induction false} TotalsOverMasked(ks: seq<WeekKey>, ps: seq<(WeekKey, real)>, e: EmpKey)
    ensures TotalsOver(ks, Masked(ps, e)) == Total(EmpPairs(SumsOver(ks, ps), WeekTotal), e)
    decreases |ks|
  {
    if ks != [] {
      var n := |ks| - 1;
      TotalsOverMasked(ks[..n], ps, e);
      assert EmpPairs(SumsOver(ks, ps), WeekTotal)[..n] == EmpPairs(SumsOver(ks[..n], ps), WeekTotal);
      TotalMasked(ps, e, ks[n]);
    }
  }

  /**
   * The `total_hours` of employee `e` before the override is the hours of the weekly pairs
   * of `e`: the weekly grouping neither loses nor double-counts hours of one employee.
   */
  lemma {:induction false} PivotTotalOfEmployee(ds: seq<Dated>, storeNo: string, e: EmpKey)
    ensures PivotOf(WeekSums(ds), storeNo, e).total == Total(EmpOfPairs(WeekPairs(ds)), e)
  {
    var ps := WeekPairs(ds);
    var qs := Masked(ps, e);
    SumMasked(ps, e);
    GroupsPartition(qs);
    KeysOfKeyColumn(qs, ps);
    TotalsOverMasked(Keys(ps), ps, e);
  }
}
