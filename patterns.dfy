/**
 * The fixed regular expressions of app.py, written out by hand:
 *  - the store number after the brand name, `(?:Popeye's|Popeyes|POPEYES)\s*#?\s*(\d+)`
 *    (case-insensitive), with the fallback `#(\d+)` (app.py:133-135, 229-230);
 *  - the overtime-correction line `^\s*"?(\d+)\s+([\d\.]+)\s*"?$` (app.py:150);
 *  - the month abbreviation `(Jan|Feb|...|Dec)` (app.py:180);
 *  - the header `Period: (\d{2})/(\d{2})/(\d{4})` (app.py:120);
 *  - the timeclock date `(\d{1,2}/\d{1,2}/\d{4})` and clock time `(\d{1,2}:\d{2})`
 *    (app.py:242), which need backtracking over `\d{1,2}` and are run by a small matcher.
 * `\d` is an ASCII digit, `\s` a Python whitespace character.
 */
module Patterns {
  import opened Wrappers
  import opened Text

  /** The end of the run of whitespace starting at `i` (a greedy `\s*`). */
  function SkipSpaces(s: string, i: nat): (j: nat)
    requires i <= |s|
    ensures i <= j <= |s|
    ensures forall k :: i <= k < j ==> IsSpace(s[k])
    ensures j == |s| || !IsSpace(s[j])
    decreases |s| - i
  {
    if i < |s| && IsSpace(s[i]) then SkipSpaces(s, i + 1) else i
  }

  /** The end of the run of digits starting at `i` (a greedy `\d*`). */
  function SkipDigits(s: string, i: nat): (j: nat)
    requires i <= |s|
    ensures i <= j <= |s|
    ensures IsDigits(s[i..j])
    ensures j == |s| || !IsDigit(s[j])
    decreases |s| - i
  {
    if i < |s| && IsDigit(s[i]) then SkipDigits(s, i + 1) else i
  }

  /** The end of the run of digits and dots starting at `i` (a greedy `[\d\.]*`). */
  function SkipNumberChars(s: string, i: nat): (j: nat)
    requires i <= |s|
    ensures i <= j <= |s|
    ensures forall k :: i <= k < j ==> IsDigit(s[k]) || s[k] == '.'
    ensures j == |s| || !(IsDigit(s[j]) || s[j] == '.')
    decreases |s| - i
  {
    if i < |s| && (IsDigit(s[i]) || s[i] == '.') then SkipNumberChars(s, i + 1) else i
  }

  /** A whitespace run from `i` that ends at `j` (the end or a non-space) is what `SkipSpaces` finds. */
  lemma {:induction false} SkipSpacesTo(s: string, i: nat, j: nat)
    requires i <= j <= |s| && (forall k :: i <= k < j ==> IsSpace(s[k])) && (j == |s| || !IsSpace(s[j]))
    ensures SkipSpaces(s, i) == j
    decreases j - i
  {
    if i < j {
      SkipSpacesTo(s, i + 1, j);
    }
  }

  /** A digit run from `i` that ends at `j` is what `SkipDigits` finds. */
  lemma {:induction false} SkipDigitsTo(s: string, i: nat, j: nat)
    requires i <= j <= |s| && (forall k :: i <= k < j ==> IsDigit(s[k])) && (j == |s| || !IsDigit(s[j]))
    ensures SkipDigits(s, i) == j
    decreases j - i
  {
    if i < j {
      SkipDigitsTo(s, i + 1, j);
    }
  }

  /** A run of digits and dots from `i` that ends at `j` is what `SkipNumberChars` finds. */
  lemma {:induction false} SkipNumberCharsTo(s: string, i: nat, j: nat)
    requires i <= j <= |s| && (forall k :: i <= k < j ==> IsDigit(s[k]) || s[k] == '.')
    requires j == |s| || !(IsDigit(s[j]) || s[j] == '.')
    ensures SkipNumberChars(s, i) == j
    decreases j - i
  {
    if i < j {
      SkipNumberCharsTo(s, i + 1, j);
    }
  }

  predicate Spaces(s: string) { forall k :: 0 <= k < |s| ==> IsSpace(s[k]) }

  predicate NumberChars(s: string) { forall k :: 0 <= k < |s| ==> IsDigit(s[k]) || s[k] == '.' }

  /** The optional double quote `"?`. */
  predicate OptionalQuote(q: string) { q == [] || q == "\"" }

  // ---------------------------------------------------------------------------
  // store number

  /** Length of the brand name matched case-insensitively at `i`: 8 for "popeye's", 7 for "popeyes", else 0. */
  function BrandLength(s: string, i: nat): (n: nat)
    requires i <= |s|
    ensures n == 0 || n == 7 || n == 8
    ensures i + n <= |s|
  {
    if i + 8 <= |s| && EqualsIgnoringCase(s[i..i + 8], "popeye's") then 8
    else if i + 7 <= |s| && EqualsIgnoringCase(s[i..i + 7], "popeyes") then 7
    else 0
  }

  /** The digits the brand pattern captures when it matches at `i`. */
  function BrandNumberAt(s: string, i: nat): (r: Option<string>)
    requires i <= |s|
    ensures r.Some? ==> r.value != [] && IsDigits(r.value)
  {
    var b := BrandLength(s, i);
    if b == 0 then None
    else
      var j1 := SkipSpaces(s, i + b);
      var j2 := if j1 < |s| && s[j1] == '#' then j1 + 1 else j1;
      var j3 := SkipSpaces(s, j2);
      var j4 := SkipDigits(s, j3);
      if j4 > j3 then Some(s[j3..j4]) else None
  }

  /** `re.search` of the brand pattern from position `i` on. */
  function BrandNumberFrom(s: string, i: nat): (r: Option<string>)
    requires i <= |s|
    ensures r.Some? ==> r.value != [] && IsDigits(r.value)
    decreases |s| - i
  {
    var here := BrandNumberAt(s, i);
    if here.Some? then here
    else if i == |s| then None
    else BrandNumberFrom(s, i + 1)
  }

  /** `re.search(r'#(\d+)', s)` from position `i` on. */
  function HashNumberFrom(s: string, i: nat): (r: Option<string>)
    requires i <= |s|
    ensures r.Some? ==> r.value != [] && IsDigits(r.value)
    decreases |s| - i
  {
    if i + 1 < |s| && s[i] == '#' && IsDigit(s[i + 1]) then Some(s[i + 1..SkipDigits(s, i + 1)])
    else if i >= |s| then None
    else HashNumberFrom(s, i + 1)
  }

  /**
   * The store number of a store line: the number after the brand name, else the first
   * `#digits`, else nothing (app.py:133-137, 229-231).
   */
  function StoreNumber(s: string): (r: Option<string>)
    ensures r.Some? ==> r.value != [] && IsDigits(r.value)
    ensures HashNumberFrom(s, 0).Some? ==> r.Some?
  {
    var branded := BrandNumberFrom(s, 0);
    if branded.Some? then branded else HashNumberFrom(s, 0)
  }

  /** The brand name, in any letter case, spelled over `b` characters at `i`. */
  predicate BrandAt(s: string, i: nat, b: nat) {
    (b == 8 && i + 8 <= |s| && EqualsIgnoringCase(s[i..i + 8], "popeye's"))
    || (b == 7 && i + 7 <= |s| && EqualsIgnoringCase(s[i..i + 7], "popeyes"))
  }

  /**
   * What the brand pattern matches at `i`: the brand over `b` characters, blanks up to `h`,
   * then either nothing or a `#` and more blanks up to `j`, then the digits `s[j..e]` and no
   * further digit. (`\s*#?\s*` and `\s*(#\s*)?` accept the same texts.)
   */
  predicate BrandNumberShape(s: string, i: nat, b: nat, h: nat, j: nat, e: nat) {
    BrandAt(s, i, b) && i + b <= h <= j < e <= |s|
    && Spaces(s[i + b..h]) && (h == j || (s[h] == '#' && Spaces(s[h + 1..j])))
    && IsDigits(s[j..e]) && (e == |s| || !IsDigit(s[e]))
  }

  /** A brand match at `i` captures its digits. */
  lemma {:induction false} BrandNumberFields(s: string, i: nat, b: nat, h: nat, j: nat, e: nat)
    requires BrandNumberShape(s, i, b, h, j, e)
    ensures BrandNumberAt(s, i) == Some(s[j..e])
  {
    BrandLengthAt(s, i, b);
    BrandRuns(s, i, b, h, j, e);
  }

  /** The two spellings differ at their seventh letter, so the brand over `b` characters has length `b`. */
  lemma BrandLengthAt(s: string, i: nat, b: nat)
    requires BrandAt(s, i, b)
    ensures BrandLength(s, i) == b
  {
    if b == 7 && i + 8 <= |s| {
      assert s[i..i + 8][6] == s[i..i + 7][6];
      assert Lower("popeyes"[6]) != Lower("popeye's"[6]);
    }
  }

  lemma BrandRuns(s: string, i: nat, b: nat, h: nat, j: nat, e: nat)
    requires BrandNumberShape(s, i, b, h, j, e)
    ensures SkipSpaces(s, i + b) == h && SkipSpaces(s, if h < |s| && s[h] == '#' then h + 1 else h) == j
    ensures SkipDigits(s, j) == e
  {
    assert forall k :: i + b <= k < h ==> s[k] == s[i + b..h][k - i - b];
    assert forall k :: j <= k < e ==> s[k] == s[j..e][k - j];
    assert IsDigit(s[j]);
    SkipSpacesTo(s, i + b, h);
    if h < j {
      assert forall k :: h + 1 <= k < j ==> s[k] == s[h + 1..j][k - h - 1];
      SkipSpacesTo(s, h + 1, j);
    } else {
      SkipSpacesTo(s, h, j);
    }
    SkipDigitsTo(s, j, e);
  }

  /** `re.search` stops at the first position where the brand pattern matches. */
  lemma {:induction false} BrandNumberFromFirst(s: string, k: nat, i: nat)
    requires k <= i <= |s| && BrandNumberAt(s, i).Some?
    requires forall n :: k <= n < i ==> BrandNumberAt(s, n).None?
    ensures BrandNumberFrom(s, k) == BrandNumberAt(s, i)
    decreases i - k
  {
    if k < i {
      BrandNumberFromFirst(s, k + 1, i);
    }
  }

  /**
   * The first brand match decides the store number, whatever `#digits` the line also holds.
   */
  lemma {:induction false} StoreNumberOfBrand(s: string, i: nat, b: nat, h: nat, j: nat, e: nat)
    requires BrandNumberShape(s, i, b, h, j, e)
    requires forall n :: 0 <= n < i ==> BrandNumberAt(s, n).None?
    ensures StoreNumber(s) == Some(s[j..e])
  {
    BrandNumberFields(s, i, b, h, j, e);
    BrandNumberFromFirst(s, 0, i);
  }

  /** `Popeyes #12` is store `12`. */
  lemma HashedStoreExample()
    ensures StoreNumber("Popeyes #12") == Some("12")
  {
    HashedStoreShape();
    StoreNumberOfBrand("Popeyes #12", 0, 7, 8, 9, 11);
  }

  lemma HashedStoreShape()
    ensures BrandNumberShape("Popeyes #12", 0, 7, 8, 9, 11) && "Popeyes #12"[9..11] == "12"
  {
    var s := "Popeyes #12";
    assert s[0..7] == "Popeyes" && s[7..8] == " " && s[9..9] == [] && s[9..11] == "12";
    assert EqualsIgnoringCase("Popeyes", "popeyes");
    assert IsDigits("12") && Spaces(" ");
  }

  /** `POPEYES 7 #12` is store `7`: the number after the brand comes before any `#digits`. */
  lemma BrandBeforeHashExample()
    ensures StoreNumber("POPEYES 7 #12") == Some("7")
  {
    BrandBeforeHashShape();
    StoreNumberOfBrand("POPEYES 7 #12", 0, 7, 8, 8, 9);
  }

  lemma BrandBeforeHashShape()
    ensures BrandNumberShape("POPEYES 7 #12", 0, 7, 8, 8, 9) && "POPEYES 7 #12"[8..9] == "7"
  {
    var s := "POPEYES 7 #12";
    assert s[0..7] == "POPEYES" && s[7..8] == " " && s[8..9] == "7" && s[9] == ' ';
    assert EqualsIgnoringCase("POPEYES", "popeyes");
    assert IsDigits("7") && Spaces(" ");
  }

  // ---------------------------------------------------------------------------
  // overtime-correction line

  /**
   * `re.match(r'^\s*"?(\d+)\s+([\d\.]+)\s*"?$', line)` on a stripped line: the employee id
   * and the hours text. The greedy runs cannot give back characters, so each group is the
   * maximal run at its position.
   */
  function OvertimeFields(line: string): (r: Option<(string, string)>)
    ensures r.Some? ==> r.value.0 != [] && IsDigits(r.value.0)
    ensures r.Some? ==> r.value.1 != []
                        && forall k :: 0 <= k < |r.value.1| ==> IsDigit(r.value.1[k]) || r.value.1[k] == '.'
  {
    var i0 := SkipSpaces(line, 0);
    var i1 := if i0 < |line| && line[i0] == '"' then i0 + 1 else i0;
    var i2 := SkipDigits(line, i1);
    var i3 := SkipSpaces(line, i2);
    var i4 := SkipNumberChars(line, i3);
    var i5 := SkipSpaces(line, i4);
    var i6 := if i5 < |line| && line[i5] == '"' then i5 + 1 else i5;
    if i1 < i2 && i2 < i3 && i3 < i4 && i6 == |line| then Some((line[i1..i2], line[i3..i4])) else None
  }

  /**
   * A line `^\s*"?(\d+)\s+([\d\.]+)\s*"?$` matches, cut at `i0 <= ... <= i5`: leading
   * blanks, an optional quote, the id digits, at least one blank, the hours characters,
   * trailing blanks and an optional quote.
   */
  predicate OvertimeShape(line: string, i0: nat, i1: nat, i2: nat, i3: nat, i4: nat, i5: nat) {
    i0 <= i1 < i2 < i3 < i4 <= i5 <= |line|
    && Spaces(line[..i0]) && OptionalQuote(line[i0..i1])
    && IsDigits(line[i1..i2]) && Spaces(line[i2..i3]) && NumberChars(line[i3..i4])
    && Spaces(line[i4..i5]) && OptionalQuote(line[i5..])
  }

  /** Every line of that shape is read, and its groups are the id and the hours. */
  lemma {:induction false} OvertimeLineFields(line: string, i0: nat, i1: nat, i2: nat, i3: nat, i4: nat, i5: nat)
    requires OvertimeShape(line, i0, i1, i2, i3, i4, i5)
    ensures OvertimeFields(line) == Some((line[i1..i2], line[i3..i4]))
  {
    OvertimeBoundaries(line, i0, i1, i2, i3, i4, i5);
    SkipSpacesTo(line, 0, i0);
    SkipDigitsTo(line, i1, i2);
    SkipSpacesTo(line, i2, i3);
    SkipNumberCharsTo(line, i3, i4);
    SkipSpacesTo(line, i4, i5);
  }

  /** The characters of a line of that shape, run by run, and at each run's end. */
  lemma OvertimeBoundaries(line: string, i0: nat, i1: nat, i2: nat, i3: nat, i4: nat, i5: nat)
    requires OvertimeShape(line, i0, i1, i2, i3, i4, i5)
    ensures forall k :: 0 <= k < i0 ==> IsSpace(line[k])
    ensures !IsSpace(line[i0]) && (i1 == i0 + 1 <==> line[i0] == '"') && (i1 == i0 || i1 == i0 + 1)
    ensures forall k :: i1 <= k < i2 ==> IsDigit(line[k])
    ensures forall k :: i2 <= k < i3 ==> IsSpace(line[k])
    ensures !IsDigit(line[i2]) && !IsSpace(line[i3])
    ensures forall k :: i3 <= k < i4 ==> IsDigit(line[k]) || line[k] == '.'
    ensures i4 == |line| || !(IsDigit(line[i4]) || line[i4] == '.')
    ensures forall k :: i4 <= k < i5 ==> IsSpace(line[k])
    ensures i5 == |line| || (line[i5] == '"' && !IsSpace(line[i5]) && i5 + 1 == |line|)
  {
    assert forall k :: 0 <= k < i0 ==> line[k] == line[..i0][k];
    assert forall k :: i1 <= k < i2 ==> line[k] == line[i1..i2][k - i1];
    assert forall k :: i2 <= k < i3 ==> line[k] == line[i2..i3][k - i2];
    assert forall k :: i3 <= k < i4 ==> line[k] == line[i3..i4][k - i3];
    assert forall k :: i4 <= k < i5 ==> line[k] == line[i4..i5][k - i4];
    assert i1 > i0 ==> line[i0] == line[i0..i1][0];
    assert i5 < |line| ==> line[i5] == line[i5..][0];
  }

  /** Conversely, a line that is read has that shape, its groups being the id and the hours. */
  lemma {:induction false} OvertimeFieldsShape(line: string)
    requires OvertimeFields(line).Some?
    ensures exists i0: nat, i1: nat, i2: nat, i3: nat, i4: nat, i5: nat :: OvertimeShape(line, i0, i1, i2, i3, i4, i5)
              && OvertimeFields(line) == Some((line[i1..i2], line[i3..i4]))
  {
    var i0 := SkipSpaces(line, 0);
    var i1 := if i0 < |line| && line[i0] == '"' then i0 + 1 else i0;
    var i2 := SkipDigits(line, i1);
    var i3 := SkipSpaces(line, i2);
    var i4 := SkipNumberChars(line, i3);
    var i5 := SkipSpaces(line, i4);
    RunsShape(line, i0, i1, i2, i3, i4, i5);
  }

  /** The runs `OvertimeFields` finds cut a line it reads into that shape. */
  lemma RunsShape(line: string, i0: nat, i1: nat, i2: nat, i3: nat, i4: nat, i5: nat)
    requires i0 == SkipSpaces(line, 0) && i1 == (if i0 < |line| && line[i0] == '"' then i0 + 1 else i0)
    requires i1 <= |line| && i2 == SkipDigits(line, i1) && i3 == SkipSpaces(line, i2)
    requires i4 == SkipNumberChars(line, i3) && i5 == SkipSpaces(line, i4)
    requires i1 < i2 < i3 < i4 && (if i5 < |line| && line[i5] == '"' then i5 + 1 else i5) == |line|
    ensures OvertimeShape(line, i0, i1, i2, i3, i4, i5)
  {
    QuoteSlice(line, i0, i1);
    QuoteSlice(line, i5, |line|);
    SpacesSlice(line, 0, i0);
    SpacesSlice(line, i2, i3);
    SpacesSlice(line, i4, i5);
    assert NumberChars(line[i3..i4]);
  }

  lemma QuoteSlice(s: string, i: nat, j: nat)
    requires i <= |s| && j == (if i < |s| && s[i] == '"' then i + 1 else i)
    ensures OptionalQuote(s[i..j])
  {
    if j > i {
      assert s[i..j] == [s[i]];
    }
  }

  lemma SpacesSlice(s: string, i: nat, j: nat)
    requires i <= j <= |s| && forall k :: i <= k < j ==> IsSpace(s[k])
    ensures Spaces(s[i..j])
  {
  }

  /** `9999 3.5` reads as the id `9999` with hours `3.5`. */
  lemma OvertimeExample()
    ensures OvertimeFields("9999 3.5") == Some(("9999", "3.5"))
  {
    OvertimeExampleShape();
    OvertimeLineFields("9999 3.5", 0, 0, 4, 5, 8, 8);
  }

  lemma OvertimeExampleShape()
    ensures OvertimeShape("9999 3.5", 0, 0, 4, 5, 8, 8)
    ensures "9999 3.5"[0..4] == "9999" && "9999 3.5"[5..8] == "3.5"
  {
    var line := "9999 3.5";
    assert line[0..4] == "9999" && line[4..5] == " " && line[5..8] == "3.5";
    assert IsDigits("9999") && Spaces(" ") && NumberChars("3.5");
  }

  // ---------------------------------------------------------------------------
  // month abbreviations

  const MonthAbbreviations: seq<string> :=
    ["Jan", "Feb", "Mar", "Apr", "May", "Jun", "Jul", "Aug", "Sep", "Oct", "Nov", "Dec"]

  /** The month (1..12) whose abbreviation starts exactly at `i`, or 0. */
  function MonthAt(s: string, i: nat): (m: nat)
    requires i <= |s|
    ensures m <= 12
    ensures m > 0 ==> i + 3 <= |s| && s[i..i + 3] == MonthAbbreviations[m - 1]
  {
    if i + 3 > |s| then 0
    else
      var w := s[i..i + 3];
      if w == "Jan" then 1 else if w == "Feb" then 2 else if w == "Mar" then 3
      else if w == "Apr" then 4 else if w == "May" then 5 else if w == "Jun" then 6
      else if w == "Jul" then 7 else if w == "Aug" then 8 else if w == "Sep" then 9
      else if w == "Oct" then 10 else if w == "Nov" then 11 else if w == "Dec" then 12
      else 0
  }

  /** The month of the first abbreviation found in `s` (case-sensitive, as `re.search` without flags). */
  function FirstMonth(s: string, i: nat): (r: Option<nat>)
    requires i <= |s|
    ensures r.Some? ==> 1 <= r.value <= 12
    decreases |s| - i
  {
    if i == |s| then None
    else if MonthAt(s, i) > 0 then Some(MonthAt(s, i))
    else FirstMonth(s, i + 1)
  }

  /** An abbreviation starts with a capital letter, so no month starts at any other character. */
  lemma NoMonthAt(s: string, i: nat)
    requires i < |s| && !('A' <= s[i] <= 'Z')
    ensures MonthAt(s, i) == 0
  {
    if i + 3 <= |s| {
      assert s[i..i + 3][0] == s[i];
      assert forall n :: 0 <= n < 12 ==> 'A' <= MonthAbbreviations[n][0] <= 'Z';
    }
  }

  /** The abbreviations are told apart: the one found at `i` is the month it names. */
  lemma MonthAtAbbreviation(s: string, i: nat, m: nat)
    requires 1 <= m <= 12 && i + 3 <= |s| && s[i..i + 3] == MonthAbbreviations[m - 1]
    ensures MonthAt(s, i) == m
  {
  }

  /** `FirstMonth` passes over positions where no month starts and stops at the first one. */
  lemma {:induction false} FirstMonthAt(s: string, i: nat, j: nat)
    requires i <= j < |s| && MonthAt(s, j) > 0
    requires forall k :: i <= k < j ==> MonthAt(s, k) == 0
    ensures FirstMonth(s, i) == Some(MonthAt(s, j))
    decreases j - i
  {
    if i < j {
      FirstMonthAt(s, i + 1, j);
    }
  }

  // ---------------------------------------------------------------------------
  // `Period: MM/DD/YYYY`

  predicate PeriodAt(s: string, i: nat) {
    i + 18 <= |s| && s[i..i + 8] == "Period: "
    && IsDigits(s[i + 8..i + 10]) && s[i + 10] == '/'
    && IsDigits(s[i + 11..i + 13]) && s[i + 13] == '/'
    && IsDigits(s[i + 14..i + 18])
  }

  /** The position of the first `Period: MM/DD/YYYY` in the text. */
  function FindPeriod(s: string, i: nat): (r: Option<nat>)
    requires i <= |s|
    ensures r.Some? ==> i <= r.value && PeriodAt(s, r.value)
    ensures r.Some? ==> forall k :: i <= k < r.value ==> !PeriodAt(s, k)
    ensures r.None? ==> forall k :: i <= k <= |s| ==> !PeriodAt(s, k)
    decreases |s| - i
  {
    if PeriodAt(s, i) then Some(i)
    else if i == |s| then None
    else FindPeriod(s, i + 1)
  }

  // ---------------------------------------------------------------------------
  // a backtracking matcher for patterns made of digit repetitions and literal characters

  datatype Atom = Digits(least: nat, most: nat) | Char(c: char)

  /** The meaning of a pattern: the texts it matches in full. */
  ghost predicate Fits(t: string, pat: seq<Atom>)
    decreases |pat|
  {
    if pat == [] then t == []
    else match pat[0]
      case Char(c) => t != [] && t[0] == c && Fits(t[1..], pat[1..])
      case Digits(lo, hi) =>
        exists k :: lo <= k <= hi && k <= |t| && IsDigits(t[..k]) && Fits(t[k..], pat[1..])
  }

  function Min(a: nat, b: nat): nat { if a <= b then a else b }

  /**
   * The end of the first match of `pat` at `i`, trying the longest repetition first and
   * giving back one digit at a time, as Python's `re` does.
   */
  function MatchAt(s: string, i: nat, pat: seq<Atom>): (r: Option<nat>)
    requires i <= |s|
    ensures r.Some? ==> i <= r.value <= |s|
    decreases |pat|, 1, 0
  {
    if pat == [] then Some(i)
    else match pat[0]
      case Char(c) => if i < |s| && s[i] == c then MatchAt(s, i + 1, pat[1..]) else None
      case Digits(lo, hi) => TryRepeat(s, i, lo, Min(hi, SkipDigits(s, i) - i), pat[1..])
  }

  /** Try the repetition counts `k`, `k - 1`, ..., `lo` for a `\d{lo,hi}` at `i`. */
  function TryRepeat(s: string, i: nat, lo: nat, k: nat, rest: seq<Atom>): (r: Option<nat>)
    requires i + k <= |s|
    ensures r.Some? ==> i + lo <= r.value <= |s|
    decreases |rest| + 1, 0, k
  {
    if k < lo then None
    else
      var here := MatchAt(s, i + k, rest);
      if here.Some? then here
      else if k == 0 then None
      else TryRepeat(s, i, lo, k - 1, rest)
  }

  /** What the matcher finds is a text the pattern describes. */
  lemma {:induction false} MatchAtFits(s: string, i: nat, pat: seq<Atom>)
    requires i <= |s| && MatchAt(s, i, pat).Some?
    ensures Fits(s[i..MatchAt(s, i, pat).value], pat)
    decreases |pat|, 1, 0
  {
    var e := MatchAt(s, i, pat).value;
    if pat != [] {
      match pat[0]
      case Char(c) =>
        MatchAtFits(s, i + 1, pat[1..]);
        assert s[i..e][1..] == s[i + 1..e];
      case Digits(lo, hi) =>
        var j := SkipDigits(s, i);
        var k := TryRepeatFits(s, i, lo, Min(hi, j - i), pat[1..]);
        DigitsFit(s, i, j, e, k, pat);
    }
  }

  lemma DigitsFit(s: string, i: nat, j: nat, e: nat, k: nat, pat: seq<Atom>)
    requires i <= j <= |s| && i <= e <= |s| && IsDigits(s[i..j])
    requires pat != [] && pat[0].Digits? && pat[0].least <= k <= pat[0].most
    requires i + k <= j && i + k <= e && Fits(s[i + k..e], pat[1..])
    ensures Fits(s[i..e], pat)
  {
    var t := s[i..e];
    assert t[..k] == s[i..j][..k];
    assert t[k..] == s[i + k..e];
  }

  lemma {:induction false} TryRepeatFits(s: string, i: nat, lo: nat, k: nat, rest: seq<Atom>) returns (j: nat)
    requires i + k <= |s| && TryRepeat(s, i, lo, k, rest).Some?
    ensures lo <= j <= k && i + j <= TryRepeat(s, i, lo, k, rest).value
    ensures Fits(s[i + j..TryRepeat(s, i, lo, k, rest).value], rest)
    decreases |rest| + 1, 0, k
  {
    if MatchAt(s, i + k, rest).Some? {
      MatchAtFits(s, i + k, rest);
      j := k;
    } else {
      j := TryRepeatFits(s, i, lo, k - 1, rest);
    }
  }

  /** `re.search(pat, s)` from position `i` on: the text of the first match. */
  function Search(s: string, pat: seq<Atom>, i: nat): (r: Option<string>)
    requires i <= |s|
    ensures r.Some? ==> Fits(r.value, pat)
    decreases |s| - i
  {
    var m := MatchAt(s, i, pat);
    if m.Some? then MatchAtFits(s, i, pat); Some(s[i..m.value])
    else if i == |s| then None
    else Search(s, pat, i + 1)
  }

  /** `\d{1,2}/\d{1,2}/\d{4}` */
  const DatePattern: seq<Atom> := [Digits(1, 2), Char('/'), Digits(1, 2), Char('/'), Digits(4, 4)]

  /** `\d{1,2}:\d{2}` */
  const TimePattern: seq<Atom> := [Digits(1, 2), Char(':'), Digits(2, 2)]
}
