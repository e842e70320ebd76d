/**
 * The rows both parsers produce (one dictionary per row in app.py), and the hour sums the
 * reports are built from.
 */
module Records {
  import opened Wrappers

  /** The `type` column. */
  datatype RecordType = Clockset | PaidBreak | OvertimeReported

  /** The text of the `type` column. */
  function TypeName(t: RecordType): (name: string)
    ensures name != []
  {
    match t
    case Clockset => "Clockset"
    case PaidBreak => "Paid Break"
    case OvertimeReported => "Overtime_Reported"
  }

  /** The record type a `type` text names, if any. */
  function TypeOf(name: string): (t: Option<RecordType>)
    ensures t.Some? ==> TypeName(t.value) == name
  {
    if name == "Clockset" then Some(Clockset)
    else if name == "Paid Break" then Some(PaidBreak)
    else if name == "Overtime_Reported" then Some(OvertimeReported)
    else None
  }

  /** Every record type reads back from its own name, so the names are distinct. */
  lemma {:induction false} TypeNameRoundTrip(t: RecordType)
    ensures TypeOf(TypeName(t)) == Some(t)
  {
    match t
    case Clockset =>
    case PaidBreak =>
      assert TypeName(t) != "Clockset";
    case OvertimeReported =>
      assert TypeName(t) != "Clockset" && TypeName(t) != "Paid Break";
  }

  /**
   * One row. `hours` is `decimal_hours` (`None` is `pd.NA`), `duration` the text it was
   * read from, `store` the `store_no` in force when the row was read.
   */
  datatype PunchRecord = PunchRecord(
    empId: string, firstName: string, lastName: string,
    day: string, date: string, startTime: string, endTime: string,
    kind: RecordType, duration: string, hours: Option<real>, store: Option<string>)

  /** A row of the daily reports: `type` is `Clockset` or `Paid Break`. */
  predicate IsDaily(r: PunchRecord) {
    r.kind == Clockset || r.kind == PaidBreak
  }

  /** The hours a pandas sum adds for this row: `NA` adds nothing. */
  function HoursOrZero(r: PunchRecord): real {
    if r.hours.Some? then r.hours.value else 0.0
  }

  /** The sum of the hours of all rows. */
  function TotalHours(rs: seq<PunchRecord>): real
    decreases |rs|
  {
    if rs == [] then 0.0 else TotalHours(rs[..|rs| - 1]) + HoursOrZero(rs[|rs| - 1])
  }

  lemma {:induction false} TotalHoursAppend(a: seq<PunchRecord>, b: seq<PunchRecord>)
    ensures TotalHours(a + b) == TotalHours(a) + TotalHours(b)
    decreases |b|
  {
    if b != [] {
      assert (a + b)[..|a + b| - 1] == a + b[..|b| - 1];
      TotalHoursAppend(a, b[..|b| - 1]);
    } else {
      assert a + b == a;
    }
  }
}
