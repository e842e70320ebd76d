/**
 * The handful of Python string operations the payroll pipeline relies on:
 * strip/lstrip/rstrip, `in`, `str.split(sep)`, `str.startswith`, `str.isdigit`,
 * decimal digit strings, ASCII case folding and code-point string order.
 */
module Text {
  import opened Wrappers

  /** The characters Python's `str.isspace()` accepts: what `strip()` removes and `\s` matches. */
  predicate IsSpace(c: char) {
    var n := c as int;
    n == 0x20 || (0x09 <= n <= 0x0D) || (0x1C <= n <= 0x1F) || n == 0x85 || n == 0xA0
    || n == 0x1680 || (0x2000 <= n <= 0x200A) || n == 0x2028 || n == 0x2029
    || n == 0x202F || n == 0x205F || n == 0x3000
  }

  predicate IsDigit(c: char) { '0' <= c <= '9' }

  predicate IsDigits(s: string) { forall i :: 0 <= i < |s| ==> IsDigit(s[i]) }

  /**
   * The character sets the pipeline strips: whitespace (`strip()`), the double quote
   * (`strip('"')`) and the double quote with the newline (`rstrip('"\n')`).
   */
  datatype CharSet = Whitespace | Quote | QuoteOrNewline

  predicate InSet(c: char, chars: CharSet) {
    match chars
    case Whitespace => IsSpace(c)
    case Quote => c == '"'
    case QuoteOrNewline => c == '"' || c == '\n'
  }

  // ---------------------------------------------------------------------------
  // strip, lstrip, rstrip

  /** The end of the run of characters from `chars` that starts at `i`. */
  function SkipForward(s: string, chars: CharSet, i: nat): (j: nat)
    requires i <= |s|
    ensures i <= j <= |s|
    ensures forall k :: i <= k < j ==> InSet(s[k], chars)
    ensures j == |s| || !InSet(s[j], chars)
    decreases |s| - i
  {
    if i < |s| && InSet(s[i], chars) then SkipForward(s, chars, i + 1) else i
  }

  /** The start of the run of characters from `chars` that ends at `j`. */
  function SkipBackward(s: string, chars: CharSet, j: nat): (i: nat)
    requires j <= |s|
    ensures i <= j
    ensures forall k :: i <= k < j ==> InSet(s[k], chars)
    ensures i == 0 || !InSet(s[i - 1], chars)
  {
    if j > 0 && InSet(s[j - 1], chars) then SkipBackward(s, chars, j - 1) else j
  }

  /** `s.lstrip(chars)`: `s` without its leading characters from `chars`. */
  function LStripSet(s: string, chars: CharSet): string {
    s[SkipForward(s, chars, 0)..]
  }

  /** `s.rstrip(chars)`: `s` without its trailing characters from `chars`. */
  function RStripSet(s: string, chars: CharSet): string {
    s[..SkipBackward(s, chars, |s|)]
  }

  /** `s.strip(chars)`: `s` without its leading and trailing characters from `chars`. */
  function StripSet(s: string, chars: CharSet): (r: string)
    ensures |r| <= |s|
    ensures r != [] ==> !InSet(r[0], chars) && !InSet(r[|r| - 1], chars)
    ensures r == [] <==> forall k :: 0 <= k < |s| ==> InSet(s[k], chars)
    ensures (forall k :: 0 <= k < |s| ==> !InSet(s[k], chars)) ==> r == s
  {
    var i := SkipForward(s, chars, 0);
    var l := s[i..];
    var j := SkipBackward(l, chars, |l|);
    var r := l[..j];
    assert j > 0 ==> r[0] == s[i] && r[j - 1] == l[j - 1];
    assert i < |s| ==> l[0] == s[i];
    assert j == 0 ==> i == |s|;
    assert (forall k :: 0 <= k < |s| ==> !InSet(s[k], chars)) ==> i == 0 && j == |l|;
    r
  }

  /** Python's `s.strip()`. */
  function Strip(s: string): string { StripSet(s, Whitespace) }

  /** Python's `s.strip('"')`. */
  function StripQuotes(s: string): string { StripSet(s, Quote) }

  lemma {:induction false} StripNoSpace(s: string)
    requires forall k :: 0 <= k < |s| ==> !IsSpace(s[k])
    ensures Strip(s) == s
  {
  }

  /** Text that starts and ends outside the set is its own strip. */
  lemma {:induction false} StripSetEnds(s: string, chars: CharSet)
    requires s != [] ==> !InSet(s[0], chars) && !InSet(s[|s| - 1], chars)
    ensures StripSet(s, chars) == s
  {
    if s != [] {
      assert SkipForward(s, chars, 0) == 0;
      assert s[0..] == s;
      assert SkipBackward(s, chars, |s|) == |s|;
    }
  }

  /** `s.strip().strip() == s.strip()` */
  lemma {:induction false} StripStripped(s: string)
    ensures Strip(Strip(s)) == Strip(s)
  {
    StripSetEnds(Strip(s), Whitespace);
  }

  lemma {:induction false} StripDigits(s: string)
    requires IsDigits(s)
    ensures Strip(s) == s
  {
    StripNoSpace(s);
  }

  // ---------------------------------------------------------------------------
  // substring search: `pat in s`, `s.startswith(pat)`

  predicate OccursAt(s: string, pat: string, i: nat) {
    i + |pat| <= |s| && s[i..i + |pat|] == pat
  }

  /** The first position at or after `from` where `pat` occurs in `s`. */
  function IndexFrom(s: string, pat: string, from: nat): (r: Option<nat>)
    requires from <= |s|
    ensures r.Some? ==> from <= r.value && OccursAt(s, pat, r.value)
    decreases |s| - from
  {
    if OccursAt(s, pat, from) then Some(from)
    else if from + |pat| >= |s| then None
    else IndexFrom(s, pat, from + 1)
  }

  function IndexOf(s: string, pat: string): Option<nat> { IndexFrom(s, pat, 0) }

  /** Python's `pat in s`. */
  predicate Contains(s: string, pat: string) { IndexOf(s, pat).Some? }

  /** Python's `s.startswith(p)`. */
  predicate IsPrefix(p: string, s: string) { |p| <= |s| && s[..|p|] == p }

  /** The search from `from` finds an occurrence at or before any occurrence at or after `from`. */
  lemma {:induction false} IndexFromFirst(s: string, pat: string, from: nat, k: nat)
    requires from <= k && from <= |s| && OccursAt(s, pat, k)
    ensures IndexFrom(s, pat, from).Some? && IndexFrom(s, pat, from).value <= k
    decreases k - from
  {
    if !OccursAt(s, pat, from) {
      IndexFromFirst(s, pat, from + 1, k);
    }
  }

  lemma {:induction false} ContainsAt(s: string, pat: string, i: nat)
    requires OccursAt(s, pat, i)
    ensures Contains(s, pat)
  {
    IndexFromFirst(s, pat, 0, i);
  }

  lemma {:induction false} ContainsWithin(s: string, n: nat, pat: string)
    requires n <= |s| && Contains(s[..n], pat)
    ensures Contains(s, pat)
  {
    var i := IndexOf(s[..n], pat).value;
    assert s[..n][i..i + |pat|] == s[i..i + |pat|];
    ContainsAt(s, pat, i);
  }

  // ---------------------------------------------------------------------------
  // `s.split(sep)` and its inverse `sep.join(parts)`

  function Join(parts: seq<string>, sep: string): string
    requires |parts| >= 1
  {
    if |parts| == 1 then parts[0] else parts[0] + sep + Join(parts[1..], sep)
  }

  /** Python's `s.split(sep)` for a non-empty separator. */
  function Split(s: string, sep: string): (parts: seq<string>)
    requires sep != []
    ensures |parts| >= 1
    decreases |s|
  {
    match IndexOf(s, sep)
    case None => [s]
    case Some(i) => [s[..i]] + Split(s[i + |sep|..], sep)
  }

  /** Joining the pieces of a split with the separator gives the text back. */
  lemma {:induction false} SplitJoin(s: string, sep: string)
    requires sep != []
    ensures Join(Split(s, sep), sep) == s
    decreases |s|
  {
    match IndexOf(s, sep)
    case None =>
    case Some(i) =>
      var rest := s[i + |sep|..];
      SplitJoin(rest, sep);
      JoinCons(s[..i], Split(rest, sep), sep);
      OccurrenceSplits(s, sep, i);
  }

  lemma JoinCons(head: string, tail: seq<string>, sep: string)
    requires |tail| >= 1
    ensures Join([head] + tail, sep) == head + sep + Join(tail, sep)
  {
    assert ([head] + tail)[1..] == tail;
  }

  lemma OccurrenceSplits(s: string, sep: string, i: nat)
    requires OccursAt(s, sep, i)
    ensures s == s[..i] + sep + s[i + |sep|..]
  {
    assert s == s[..i] + s[i..i + |sep|] + s[i + |sep|..];
  }

  /** No piece of a split holds the separator. */
  lemma {:induction false} SplitPiecesFree(s: string, sep: string)
    requires sep != []
    ensures forall i :: 0 <= i < |Split(s, sep)| ==> !Contains(Split(s, sep)[i], sep)
    decreases |s|
  {
    match IndexOf(s, sep)
    case None =>
    case Some(i) =>
      var rest := s[i + |sep|..];
      SplitPiecesFree(rest, sep);
      NoEarlierOccurrence(s, sep);
      var parts := Split(s, sep);
      assert parts == [s[..i]] + Split(rest, sep);
      forall k | 0 <= k < |parts| ensures !Contains(parts[k], sep) {
        if k > 0 { assert parts[k] == Split(rest, sep)[k - 1]; }
      }
  }

  /** A text without the character `c` does not contain `[c]`. */
  lemma {:induction false} CharAbsent(s: string, c: char)
    requires forall k :: 0 <= k < |s| ==> s[k] != c
    ensures !Contains(s, [c])
  {
    forall i: nat | i + 1 <= |s|
      ensures !OccursAt(s, [c], i)
    {
      assert s[i..i + 1][0] == s[i];
    }
  }

  /** `s.find(c)` finds the first `c`. */
  lemma {:induction false} FirstChar(s: string, c: char)
    requires Contains(s, [c])
    ensures IndexOf(s, [c]).value < |s| && s[IndexOf(s, [c]).value] == c
    ensures forall k :: 0 <= k < IndexOf(s, [c]).value ==> s[k] != c
  {
    var p := IndexOf(s, [c]).value;
    assert s[p..p + 1][0] == s[p];
    forall k | 0 <= k < p
      ensures s[k] != c
    {
      if s[k] == c {
        assert s[k..k + 1] == [c];
        IndexFromFirst(s, [c], 0, k);
      }
    }
  }

  /** A `c` at `i` with none before it is where `s.find(c)` stops. */
  lemma {:induction false} NoEarlierIndex(s: string, c: char, i: nat)
    requires i < |s| && s[i] == c && forall k :: 0 <= k < i ==> s[k] != c
    ensures IndexOf(s, [c]) == Some(i)
  {
    CharPresent(s, c, i);
    FirstChar(s, c);
  }

  /** A character `c` in the text makes `[c]` found. */
  lemma {:induction false} CharPresent(s: string, c: char, k: nat)
    requires k < |s| && s[k] == c
    ensures Contains(s, [c])
  {
    assert s[k..k + 1] == [c];
    ContainsAt(s, [c], k);
  }

  /** The text before the first occurrence of `sep` does not contain `sep`. */
  lemma {:induction false} NoEarlierOccurrence(s: string, sep: string)
    requires sep != [] && Contains(s, sep)
    ensures !Contains(s[..IndexOf(s, sep).value], sep)
  {
    var i := IndexOf(s, sep).value;
    if Contains(s[..i], sep) {
      var k := IndexOf(s[..i], sep).value;
      assert s[..i][k..k + |sep|] == s[k..k + |sep|];
      IndexFromFirst(s, sep, 0, k);
      assert false;
    }
  }

  lemma {:induction false} SplitNoSeparator(s: string, sep: string)
    requires sep != [] && !Contains(s, sep)
    ensures Split(s, sep) == [s]
  {
  }

  lemma {:induction false} ContainsSeparatorSplitsInTwo(s: string, sep: string)
    requires sep != [] && Contains(s, sep)
    ensures |Split(s, sep)| >= 2
  {
  }

  /** The first occurrence of a character is right after a prefix that does not contain it. */
  lemma {:induction false} FirstOccurrence(a: string, c: char, b: string)
    requires !Contains(a, [c])
    ensures IndexOf(a + [c] + b, [c]) == Some(|a|)
  {
    var s := a + [c] + b;
    assert OccursAt(s, [c], |a|);
    IndexFromFirst(s, [c], 0, |a|);
    var i := IndexOf(s, [c]).value;
    if i < |a| {
      assert s[i..i + 1] == a[i..i + 1];
      ContainsAt(a, [c], i);
    }
  }

  /** Splitting on a one-character separator peels off the text before it. */
  lemma {:induction false} SplitCons(a: string, c: char, b: string)
    requires !Contains(a, [c])
    ensures Split(a + [c] + b, [c]) == [a] + Split(b, [c])
  {
    var s := a + [c] + b;
    FirstOccurrence(a, c, b);
    assert s[..|a|] == a;
    assert s[|a| + 1..] == b;
  }

  /** Splitting two separator-free pieces joined by a one-character separator gives them back. */
  lemma {:induction false} SplitPair(a: string, c: char, b: string)
    requires !Contains(a, [c]) && !Contains(b, [c])
    ensures Split(a + [c] + b, [c]) == [a, b]
  {
    SplitCons(a, c, b);
    SplitNoSeparator(b, [c]);
  }

  /** Splitting three separator-free pieces joined by a one-character separator gives them back. */
  lemma {:induction false} SplitThree(a: string, b: string, c: string, sep: char)
    requires !Contains(a, [sep]) && !Contains(b, [sep]) && !Contains(c, [sep])
    ensures Split(a + [sep] + b + [sep] + c, [sep]) == [a, b, c]
  {
    var t := b + [sep] + c;
    assert a + [sep] + b + [sep] + c == a + [sep] + t;
    SplitCons(a, sep, t);
    SplitCons(b, sep, c);
    SplitNoSeparator(c, [sep]);
    assert Split(t, [sep]) == [b, c];
  }

  /** Splitting at a separator whose first occurrence is right after `a` peels `a` off. */
  lemma {:induction false} SplitPeel(a: string, sep: string, b: string)
    requires sep != [] && !Contains(a + sep[..|sep| - 1], sep)
    ensures Split(a + sep + b, sep) == [a] + Split(b, sep)
  {
    var s := a + sep + b;
    var t := a + sep[..|sep| - 1];
    assert s[|a|..|a| + |sep|] == sep;
    IndexFromFirst(s, sep, 0, |a|);
    var v := IndexOf(s, sep).value;
    if v < |a| {
      assert s[..|a| + |sep| - 1] == t;
      assert t[v..v + |sep|] == s[v..v + |sep|];
      ContainsAt(t, sep, v);
    }
    assert s[..|a|] == a;
    assert s[|a| + |sep|..] == b;
  }

  /**
   * Splitting joined pieces gives them back when no piece, followed by the separator less
   * its last character, holds the separator (so no occurrence starts inside a piece).
   */
  lemma {:induction false} SplitJoinPieces(fs: seq<string>, sep: string)
    requires sep != [] && |fs| >= 1
    requires forall i :: 0 <= i < |fs| - 1 ==> !Contains(fs[i] + sep[..|sep| - 1], sep)
    requires !Contains(fs[|fs| - 1], sep)
    ensures Split(Join(fs, sep), sep) == fs
    decreases |fs|
  {
    if |fs| > 1 {
      var tail := fs[1..];
      assert forall i :: 0 <= i < |tail| ==> tail[i] == fs[i + 1];
      SplitJoinPieces(tail, sep);
      SplitPeel(fs[0], sep, Join(tail, sep));
      assert fs == [fs[0]] + tail;
    }
  }

  /** Text added to the end of the last piece ends up at the end of the joined text. */
  lemma {:induction false} JoinAppendLast(fs: seq<string>, sep: string, x: string)
    requires |fs| >= 1
    ensures Join(fs[|fs| - 1 := fs[|fs| - 1] + x], sep) == Join(fs, sep) + x
    decreases |fs|
  {
    if |fs| > 1 {
      var gs := fs[|fs| - 1 := fs[|fs| - 1] + x];
      JoinAppendLast(fs[1..], sep, x);
      assert gs[1..] == fs[1..][|fs| - 2 := fs[|fs| - 1] + x];
    }
  }

  /** A field written as it is meant to be read back: no double quote, no blank at either end. */
  predicate PlainField(f: string) {
    Avoids(f, '"') && (f != [] ==> !IsSpace(f[0]) && !IsSpace(f[|f| - 1]))
  }

  /** `c not in s` */
  predicate Avoids(s: string, c: char) {
    forall k :: 0 <= k < |s| ==> s[k] != c
  }

  /** Pieces and a separator without `c` join into a text without `c`. */
  lemma {:induction false} JoinAvoids(fs: seq<string>, sep: string, c: char)
    requires |fs| >= 1 && Avoids(sep, c)
    requires forall i :: 0 <= i < |fs| ==> Avoids(fs[i], c)
    ensures Avoids(Join(fs, sep), c)
    decreases |fs|
  {
    if |fs| > 1 {
      var tail := fs[1..];
      assert forall i :: 0 <= i < |tail| ==> tail[i] == fs[i + 1];
      JoinAvoids(tail, sep, c);
    }
  }

  /** A plain field survives every strip the payroll columns go through. */
  lemma {:induction false} PlainFieldStrips(f: string)
    requires PlainField(f)
    ensures Strip(f) == f && StripQuotes(f) == f
    ensures LStripSet(f, Quote) == f && RStripSet(f, QuoteOrNewline) == f
  {
    StripSetEnds(f, Whitespace);
    StripSetEnds(f, Quote);
    if f != [] {
      assert SkipForward(f, Quote, 0) == 0;
      assert f[0..] == f;
      assert SkipBackward(f, QuoteOrNewline, |f|) == |f|;
    }
  }

  /** A plain field behind an opening quote comes back from `strip().strip('"')`. */
  lemma {:induction false} StripOpenQuote(a: string)
    requires PlainField(a)
    ensures StripQuotes(Strip("\"" + a)) == a
  {
    var s := "\"" + a;
    StripSetEnds(s, Whitespace);
    assert SkipForward(s, Quote, 1) == 1;
    assert SkipForward(s, Quote, 0) == 1;
    assert s[1..] == a;
    PlainFieldStrips(a);
  }

  /** A plain field before a closing quote comes back from `strip().strip('"')`. */
  lemma {:induction false} StripCloseQuote(b: string)
    requires PlainField(b)
    ensures StripQuotes(Strip(b + "\"")) == b
  {
    var s := b + "\"";
    StripSetEnds(s, Whitespace);
    if b != [] {
      assert SkipForward(s, Quote, 0) == 0;
    }
    assert s[0..] == s;
    assert SkipBackward(s, Quote, |s| - 1) == |s| - 1;
    assert SkipBackward(s, Quote, |s|) == |s| - 1;
    assert s[..|s| - 1] == b;
  }

  /** `[p.strip().strip('"') for p in ps]` */
  function StripFieldsAndQuotes(ps: seq<string>): (r: seq<string>)
    ensures |r| == |ps|
    ensures forall i :: 0 <= i < |ps| ==> r[i] == StripQuotes(Strip(ps[i]))
    decreases |ps|
  {
    if ps == [] then [] else StripFieldsAndQuotes(ps[..|ps| - 1]) + [StripQuotes(Strip(ps[|ps| - 1]))]
  }

  /** `[p.strip() for p in ps]` */
  function StripFields(ps: seq<string>): (r: seq<string>)
    ensures |r| == |ps|
    ensures forall i :: 0 <= i < |ps| ==> r[i] == Strip(ps[i])
    decreases |ps|
  {
    if ps == [] then [] else StripFields(ps[..|ps| - 1]) + [Strip(ps[|ps| - 1])]
  }

  // ---------------------------------------------------------------------------
  // decimal digit strings

  function DigitValue(c: char): nat
    requires IsDigit(c)
  {
    (c as int) - ('0' as int)
  }

  function DigitChar(d: nat): (c: char)
    requires d < 10
    ensures IsDigit(c) && DigitValue(c) == d
  {
    ('0' as int + d) as char
  }

  /** A string of digits contains no other character. */
  lemma {:induction false} DigitsExclude(s: string, c: char)
    requires IsDigits(s) && !IsDigit(c)
    ensures !Contains(s, [c])
  {
    forall i: nat | i + 1 <= |s|
      ensures !OccursAt(s, [c], i)
    {
      assert s[i..i + 1][0] == s[i];
    }
  }

  /** Two digit strings joined by a character other than a digit or `x` do not contain `x`. */
  lemma {:induction false} JoinedDigitsExclude(a: string, c: char, b: string, x: char)
    requires IsDigits(a) && IsDigits(b) && c != x && !IsDigit(x)
    ensures !Contains(a + [c] + b, [x])
  {
    var s := a + [c] + b;
    forall i: nat | i + 1 <= |s|
      ensures !OccursAt(s, [x], i)
    {
      assert s[i..i + 1][0] == s[i];
      if i < |a| { assert s[i] == a[i]; }
      else if i > |a| { assert s[i] == b[i - |a| - 1]; }
    }
  }

  /** Two digit strings joined by a character that is not whitespace are their own `strip()`. */
  lemma {:induction false} StripJoinedDigits(a: string, c: char, b: string)
    requires IsDigits(a) && IsDigits(b) && !IsSpace(c)
    ensures Strip(a + [c] + b) == a + [c] + b
  {
    var s := a + [c] + b;
    forall k | 0 <= k < |s| ensures !IsSpace(s[k]) {
      if k < |a| { assert s[k] == a[k]; }
      else if k > |a| { assert s[k] == b[k - |a| - 1]; }
    }
    StripNoSpace(s);
  }

  /** The number a string of decimal digits denotes (Python's `int` on digits). */
  function DigitsValue(s: string): nat
    requires IsDigits(s)
  {
    if s == [] then 0 else DigitsValue(s[..|s| - 1]) * 10 + DigitValue(s[|s| - 1])
  }

  lemma TwoDigits(a: char, b: char)
    requires IsDigit(a) && IsDigit(b)
    ensures IsDigits([a, b]) && DigitsValue([a, b]) == 10 * DigitValue(a) + DigitValue(b)
  {
    assert [a, b][..1] == [a];
    assert [a][..0] == [];
    assert DigitsValue([a]) == DigitValue(a);
    assert DigitsValue([a, b]) == DigitsValue([a]) * 10 + DigitValue(b);
  }

  /** The decimal representation of `n`, as Python's `str(n)` writes it. */
  function NatText(n: nat): (r: string)
    ensures r != [] && IsDigits(r)
    ensures DigitsValue(r) == n
    ensures r[0] == '0' ==> n == 0 && |r| == 1
  {
    if n < 10 then [DigitChar(n)]
    else
      var r := NatText(n / 10) + [DigitChar(n % 10)];
      assert r[..|r| - 1] == NatText(n / 10);
      r
  }

  /** `str(n)` for any integer: a minus sign before the digits of a negative number. */
  function IntText(n: int): string {
    if n < 0 then "-" + NatText(-n) else NatText(n)
  }

  /** `n` written with at least `width` digits, padded with leading zeros (`%02d`, `%04d`). */
  function ZeroPad(n: nat, width: nat): (r: string)
    ensures IsDigits(r) && |r| >= width && |r| >= 1
    ensures |NatText(n)| <= width ==> |r| == width
    ensures DigitsValue(r) == n
    decreases width
  {
    var t := NatText(n);
    if |t| >= width then t
    else
      var r := "0" + ZeroPad(n, width - 1);
      LeadingZero(ZeroPad(n, width - 1));
      r
  }

  lemma {:induction false} LeadingZero(s: string)
    requires IsDigits(s)
    ensures IsDigits("0" + s) && DigitsValue("0" + s) == DigitsValue(s)
    decreases |s|
  {
    var z := "0" + s;
    if s != [] {
      assert z[..|z| - 1] == "0" + s[..|s| - 1];
      LeadingZero(s[..|s| - 1]);
    }
  }

  function Pow10(k: nat): (r: nat)
    ensures r >= 1
  {
    if k == 0 then 1 else 10 * Pow10(k - 1)
  }

  lemma {:induction false} NatTextLength(n: nat, k: nat)
    requires k >= 1 && n < Pow10(k)
    ensures |NatText(n)| <= k
    decreases k
  {
    if n >= 10 {
      assert k >= 2;
      NatTextLength(n / 10, k - 1);
    }
  }

  /** A number of at least `10^(k-1)` takes at least `k` digits. */
  lemma {:induction false} NatTextAtLeast(n: nat, k: nat)
    requires k >= 1 && n >= Pow10(k - 1)
    ensures |NatText(n)| >= k
    decreases k
  {
    if k > 1 {
      assert n / 10 >= Pow10(k - 2);
      NatTextAtLeast(n / 10, k - 1);
    }
  }

  /** The longest prefix of `s` made of digits, i.e. what `^(\d+)` captures (or "" when it fails). */
  function LeadingDigits(s: string): (r: string)
    ensures IsDigits(r) && IsPrefix(r, s)
    ensures |r| == |s| || !IsDigit(s[|r|])
  {
    if s != [] && IsDigit(s[0]) then [s[0]] + LeadingDigits(s[1..]) else []
  }

  // ---------------------------------------------------------------------------
  // ASCII case folding and code-point order

  function Lower(c: char): char {
    if 'A' <= c <= 'Z' then ((c as int) + 32) as char else c
  }

  /** `s.lower()` restricted to ASCII letters. */
  function LowerText(s: string): (r: string)
    ensures |r| == |s| && forall i :: 0 <= i < |s| ==> r[i] == Lower(s[i])
  {
    seq(|s|, i requires 0 <= i < |s| => Lower(s[i]))
  }

  /** Equality of two strings ignoring ASCII letter case. */
  predicate EqualsIgnoringCase(a: string, b: string) {
    |a| == |b| && forall i :: 0 <= i < |a| ==> Lower(a[i]) == Lower(b[i])
  }

  /** Python's `a < b` on strings: lexicographic by code point. */
  predicate LexLess(a: string, b: string)
    decreases |a|
  {
    if a == [] then b != []
    else if b == [] then false
    else if a[0] != b[0] then a[0] < b[0]
    else LexLess(a[1..], b[1..])
  }

  lemma {:induction false} LexLessIrreflexive(a: string)
    ensures !LexLess(a, a)
    decreases |a|
  {
    if a != [] { LexLessIrreflexive(a[1..]); }
  }

  lemma {:induction false} LexLessTransitive(a: string, b: string, c: string)
    requires LexLess(a, b) && LexLess(b, c)
    ensures LexLess(a, c)
    decreases |a|
  {
    if a != [] && b != [] && c != [] && a[0] == b[0] && b[0] == c[0] {
      LexLessTransitive(a[1..], b[1..], c[1..]);
    }
  }

  lemma {:induction false} LexLessTotal(a: string, b: string)
    requires a != b
    ensures LexLess(a, b) || LexLess(b, a)
    decreases |a|
  {
    if a != [] && b != [] && a[0] == b[0] {
      assert a == [a[0]] + a[1..] && b == [b[0]] + b[1..];
      LexLessTotal(a[1..], b[1..]);
    }
  }
}
