/** `detect_file_format` (app.py:98-109): which of the two report layouts a file holds. */
module Detect {
  import opened Text

  datatype Format = Payroll | Timeclock

  /** How much of the file is inspected. */
  const HeadLength: nat := 1000

  /** `content[:1000]`. */
  function Head(content: string): (h: string)
    ensures |h| == if |content| < HeadLength then |content| else HeadLength
    ensures IsPrefix(h, content)
  {
    if |content| < HeadLength then content else content[..HeadLength]
  }

  predicate PayrollMarked(head: string) {
    Contains(head, "Previous Payroll Report") || Contains(head, "Reclose Payroll Report")
  }

  predicate TimeclockMarked(head: string) {
    Contains(head, "Timeclock Report") || Contains(head, "All Employees:") || Contains(head, "Timeclock Summary")
  }

  predicate ClocksetActive(head: string) {
    Contains(head, "Clockset") && Contains(head, "ACTIVE")
  }

  /**
   * The first rule that fires on the first 1000 characters: a payroll title, then a
   * timeclock title, then `Clockset` together with `ACTIVE`; anything else is a payroll file.
   * (The `except` branch of the source cannot fire on a string and is not modelled.)
   */
  function DetectFormat(content: string): (f: Format)
    ensures PayrollMarked(Head(content)) ==> f == Payroll
    ensures !PayrollMarked(Head(content)) && TimeclockMarked(Head(content)) ==> f == Timeclock
    ensures !PayrollMarked(Head(content)) && ClocksetActive(Head(content)) ==> f == Timeclock
    ensures !PayrollMarked(Head(content)) && !TimeclockMarked(Head(content)) && !ClocksetActive(Head(content))
            ==> f == Payroll
  {
    var head := Head(content);
    if PayrollMarked(head) then Payroll
    else if TimeclockMarked(head) then Timeclock
    else if ClocksetActive(head) then Timeclock
    else Payroll
  }

  /** Whatever follows the first 1000 characters does not change the verdict. */
  lemma {:induction false} OnlyHeadMatters(content: string, rest: string)
    requires |content| >= HeadLength
    ensures DetectFormat(content + rest) == DetectFormat(content)
  {
    assert Head(content + rest) == Head(content);
  }

  /** A file whose first 1000 characters hold no marker is read as a payroll report, whatever comes after. */
  lemma {:induction false} LateMarkersIgnored(content: string, rest: string)
    requires |content| >= HeadLength
    requires !PayrollMarked(Head(content)) && !TimeclockMarked(Head(content)) && !ClocksetActive(Head(content))
    ensures DetectFormat(content + rest) == Payroll
  {
    OnlyHeadMatters(content, rest);
  }

  /**
   * A payroll title anywhere within the first 1000 characters makes the file a payroll
   * report, whatever timeclock titles the file also holds, before or after it.
   */
  lemma {:induction false} PayrollTitleFirst(content: string, title: string, i: nat)
    requires title == "Previous Payroll Report" || title == "Reclose Payroll Report"
    requires OccursAt(content, title, i) && i + |title| <= HeadLength
    ensures DetectFormat(content) == Payroll
  {
    var h := Head(content);
    assert h[i..i + |title|] == content[i..i + |title|];
    ContainsAt(h, title, i);
  }

  /** A timeclock title is not enough when a payroll title is also present. */
  lemma {:induction false} PayrollTitleExample()
    ensures DetectFormat("Timeclock Report / Previous Payroll Report") == Payroll
  {
    ExampleTitleAt();
    PayrollTitleFirst("Timeclock Report / Previous Payroll Report", "Previous Payroll Report", 19);
  }

  lemma ExampleTitleAt()
    ensures OccursAt("Timeclock Report / Previous Payroll Report", "Previous Payroll Report", 19)
  {
    TitleAfter("Timeclock Report / ", "Previous Payroll Report");
    ExampleSpelling();
  }

  lemma ExampleSpelling()
    ensures "Timeclock Report / " + "Previous Payroll Report" == "Timeclock Report / Previous Payroll Report"
  {
  }

  lemma TitleAfter(lead: string, title: string)
    ensures OccursAt(lead + title, title, |lead|)
  {
    assert (lead + title)[|lead|..] == title;
  }
}
