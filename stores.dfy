/**
 * The upload loop (app.py:354-369): each file is detected and parsed, and the records of a
 * file with records and a store number are appended to that store's table.
 */
module Stores {
  import opened Wrappers
  import opened Records
  import opened Detect
  import opened Payroll
  import opened Timeclock

  /** The records and store number one file yields. */
  datatype FileResult = FileResult(rows: seq<PunchRecord>, store: Option<string>)

  /**
   * The parser `detect_file_format` chooses, applied to the file: the timeclock parser for a
   * file whose first 1000 characters carry a timeclock marker and no payroll title, the
   * payroll parser for every other file.
   */
  function ParseFile(content: string, currentYear: int): (r: FileResult)
    ensures PayrollMarked(Head(content)) ==> (r.rows, r.store) == PayrollResult(content, currentYear)
    ensures !PayrollMarked(Head(content)) && (TimeclockMarked(Head(content)) || ClocksetActive(Head(content)))
            ==> (r.rows, r.store) == TimeclockResult(content)
    ensures !PayrollMarked(Head(content)) && !TimeclockMarked(Head(content)) && !ClocksetActive(Head(content))
            ==> (r.rows, r.store) == PayrollResult(content, currentYear)
  {
    match DetectFormat(content)
    case Payroll => FileResult(PayrollResult(content, currentYear).0, PayrollResult(content, currentYear).1)
    case Timeclock => FileResult(TimeclockResult(content).0, TimeclockResult(content).1)
  }

  /** `if not df.empty and store_no`: the file has records and a non-empty store number. */
  predicate Kept(f: FileResult) {
    f.rows != [] && f.store.Some? && f.store.value != []
  }

  /** `store_data` and `processed_count` after one more file. */
  function Add(data: map<string, seq<PunchRecord>>, count: nat, f: FileResult): (map<string, seq<PunchRecord>>, nat) {
    if Kept(f) then
      var s := f.store.value;
      (data[s := if s in data then data[s] + f.rows else f.rows], count + 1)
    else (data, count)
  }

  /** `store_data` and `processed_count` after the given files, from an empty map and 0. */
  function Merge(fs: seq<FileResult>): (map<string, seq<PunchRecord>>, nat)
    decreases |fs|
  {
    if fs == [] then (map[], 0)
    else
      var prev := Merge(fs[..|fs| - 1]);
      Add(prev.0, prev.1, fs[|fs| - 1])
  }

  /** The reference: the records of the kept files of store `s`, concatenated in upload order. */
  function StoreRows(fs: seq<FileResult>, s: string): seq<PunchRecord>
    decreases |fs|
  {
    if fs == [] then []
    else
      var f := fs[|fs| - 1];
      StoreRows(fs[..|fs| - 1], s) + (if Kept(f) && f.store.value == s then f.rows else [])
  }

  /** The number of kept files. */
  function KeptCount(fs: seq<FileResult>): nat
    decreases |fs|
  {
    if fs == [] then 0 else KeptCount(fs[..|fs| - 1]) + (if Kept(fs[|fs| - 1]) then 1 else 0)
  }

  /**
   * A store has a table exactly when some kept file has its number, the table is the
   * records of its kept files in upload order, and the count is the number of kept files.
   */
  lemma {:induction false} MergeCollects(fs: seq<FileResult>)
    ensures forall s :: s in Merge(fs).0 <==> StoreRows(fs, s) != []
    ensures forall s :: s in Merge(fs).0 ==> Merge(fs).0[s] == StoreRows(fs, s)
    ensures Merge(fs).1 == KeptCount(fs)
    decreases |fs|
  {
    if fs != [] {
      var init := fs[..|fs| - 1];
      MergeCollects(init);
    }
  }

  /** A store's reference rows are non-empty exactly when some kept file carries its number. */
  lemma {:induction false} StoreRowsNonEmpty(fs: seq<FileResult>, s: string)
    ensures StoreRows(fs, s) != [] <==> exists i :: 0 <= i < |fs| && Kept(fs[i]) && fs[i].store.value == s
    decreases |fs|
  {
    if fs != [] {
      var init := fs[..|fs| - 1];
      StoreRowsNonEmpty(init, s);
      assert forall i :: 0 <= i < |init| ==> init[i] == fs[i];
    }
  }

  /** Files that are skipped leave the stores and the count as they are. */
  lemma {:induction false} SkippedFileChangesNothing(fs: seq<FileResult>, f: FileResult)
    requires !Kept(f)
    ensures Merge(fs + [f]) == Merge(fs)
  {
    assert (fs + [f])[..|fs|] == fs;
  }

  /** The results of the parsers for the uploaded files, in upload order. */
  function FileResults(files: seq<string>, currentYear: int): (fs: seq<FileResult>)
    ensures |fs| == |files|
    ensures forall i :: 0 <= i < |files| ==> fs[i] == ParseFile(files[i], currentYear)
  {
    seq(|files|, i requires 0 <= i < |files| => ParseFile(files[i], currentYear))
  }

  /** The upload loop, with `datetime.now().year` passed in. */
  method MergeUploads(files: seq<string>, currentYear: int) returns (storeData: map<string, seq<PunchRecord>>, processedCount: nat)
    ensures (storeData, processedCount) == Merge(FileResults(files, currentYear))
  {
    storeData := map[];
    processedCount := 0;
    var i := 0;
    while i < |files|
      invariant 0 <= i <= |files|
      invariant (storeData, processedCount) == Merge(FileResults(files[..i], currentYear))
    {
      var rows: seq<PunchRecord>;
      var store: Option<string>;
      match DetectFormat(files[i]) {
        case Payroll =>
          rows, store := ParsePayroll(files[i], currentYear);
        case Timeclock =>
          rows, store := ParseTimeclock(files[i]);
      }
      MergeStep(files, currentYear, i, FileResult(rows, store));
      if rows != [] && store.Some? && store.value != [] {
        if store.value in storeData {
          storeData := storeData[store.value := storeData[store.value] + rows];
        } else {
          storeData := storeData[store.value := rows];
        }
        processedCount := processedCount + 1;
      }
      i := i + 1;
    }
    assert files[..|files|] == files;
  }

  lemma {:induction false} MergeStep(files: seq<string>, currentYear: int, i: nat, f: FileResult)
    requires i < |files| && f == ParseFile(files[i], currentYear)
    ensures Merge(FileResults(files[..i + 1], currentYear))
            == Add(Merge(FileResults(files[..i], currentYear)).0, Merge(FileResults(files[..i], currentYear)).1, f)
  {
    var fs := FileResults(files[..i + 1], currentYear);
    assert fs[..i] == FileResults(files[..i], currentYear);
  }
}
