/**
 * Hours as the pipeline reads them: `round(float(text), 2)` for a decimal column and
 * `parse_duration_to_decimal` (app.py:61-72) for an `H:MM` or decimal duration.
 * A parsed amount is kept as a whole number of hundredths of an hour; `pd.NA` is `None`.
 */
module Hours {
  import opened Wrappers
  import opened Text

  function Abs(x: int): nat { if x < 0 then -x else x }

  predicate HasDigit(s: string) { exists k :: 0 <= k < |s| && IsDigit(s[k]) }

  /** A decimal number read from text: `scaled / 10^scale`. */
  datatype Decimal = Decimal(scaled: int, scale: nat)

  /** A leading `+` or `-` and what follows it. */
  function SplitSign(t: string): (r: (bool, string))
    ensures |r.1| <= |t| && r.1 == t[|t| - |r.1|..]
    ensures |r.1| < |t| <==> t != [] && (t[0] == '-' || t[0] == '+')
    ensures r.0 <==> t != [] && t[0] == '-'
  {
    if t != [] && t[0] == '-' then (true, t[1..])
    else if t != [] && t[0] == '+' then (false, t[1..])
    else (false, t)
  }

  lemma {:induction false} DigitsValueAppend(a: string, b: string)
    requires IsDigits(a) && IsDigits(b)
    ensures IsDigits(a + b)
    ensures DigitsValue(a + b) == DigitsValue(a) * Pow10(|b|) + DigitsValue(b)
    decreases |b|
  {
    if b == [] {
      assert a + b == a;
    } else {
      var b' := b[..|b| - 1];
      DigitsValueAppend(a, b');
      AppendLastDigit(a, b);
    }
  }

  lemma {:induction false} AppendLastDigit(a: string, b: string)
    requires IsDigits(a) && IsDigits(b) && b != []
    requires DigitsValue(a + b[..|b| - 1]) == DigitsValue(a) * Pow10(|b| - 1) + DigitsValue(b[..|b| - 1])
    ensures IsDigits(a + b)
    ensures DigitsValue(a + b) == DigitsValue(a) * Pow10(|b|) + DigitsValue(b)
  {
    var b' := b[..|b| - 1];
    var ab := a + b;
    assert ab[..|ab| - 1] == a + b';
    var x, p, y, d := DigitsValue(a), Pow10(|b'|), DigitsValue(b'), DigitValue(b[|b| - 1]);
    assert DigitsValue(ab) == DigitsValue(a + b') * 10 + d;
    ShiftDigit(x, p, y, d);
  }

  lemma ShiftDigit(x: int, p: int, y: int, d: int)
    ensures (x * p + y) * 10 + d == x * (10 * p) + (y * 10 + d)
  {
    assert (x * p) * 10 == x * (p * 10);
  }

  lemma {:induction false} HasDigitSuffix(t: string, n: nat)
    requires n <= |t| && HasDigit(t[n..])
    ensures HasDigit(t)
  {
    var k :| 0 <= k < |t[n..]| && IsDigit(t[n..][k]);
    assert IsDigit(t[n + k]);
  }

  /** Digits with an optional fraction (`12`, `12.`, `12.5`, `.5`), as a non-negative decimal. */
  function ParseUnsigned(body: string): (r: Option<Decimal>)
    ensures r.Some? ==> HasDigit(body) && r.value.scaled >= 0
  {
    var point := IndexOf(body, ".");
    var whole := if point.Some? then body[..point.value] else body;
    var fraction := if point.Some? then body[point.value + 1..] else [];
    if IsDigits(whole) && IsDigits(fraction) && (whole != [] || fraction != []) then
      DigitsValueAppend(whole, fraction);
      assert whole != [] ==> body[0] == whole[0];
      assert whole == [] ==> body[point.value + 1] == fraction[0];
      Some(Decimal(DigitsValue(whole + fraction), |fraction|))
    else None
  }

  /**
   * What Python's `float()` accepts, after surrounding whitespace: an optional sign and
   * then digits with an optional fraction.
   */
  function ParseDecimal(s: string): (r: Option<Decimal>)
    ensures !HasDigit(Strip(s)) ==> r.None?
  {
    var t := Strip(s);
    var sign := SplitSign(t);
    match ParseUnsigned(sign.1)
    case None => None
    case Some(x) =>
      HasDigitSuffix(t, |t| - |sign.1|);
      Some(if sign.0 then Decimal(-x.scaled, x.scale) else x)
  }

  /** The integer nearest `n / d`; halfway cases go to the even neighbour (Python's `round`). */
  function NearestEven(n: int, d: nat): (c: int)
    requires d >= 1
    ensures 2 * Abs(n - c * d) <= d
    ensures 2 * Abs(n - c * d) == d ==> c % 2 == 0
  {
    var q, r := n / d, n % d;
    assert n - q * d == r;
    assert n - (q + 1) * d == r - d;
    if 2 * r < d then q
    else if 2 * r > d then q + 1
    else if q % 2 == 0 then q
    else q + 1
  }

  lemma {:induction false} Pow10Add(a: nat, b: nat)
    ensures Pow10(a + b) == Pow10(a) * Pow10(b)
    decreases a
  {
    if a > 0 { Pow10Add(a - 1, b); }
  }

  /**
   * `round(x, 2)` in hundredths for the exact value of `x`: the nearest whole number of
   * hundredths, halfway cases to the even one.
   */
  function RoundHundredths(x: Decimal): (c: int)
    ensures 2 * Abs(100 * x.scaled - c * Pow10(x.scale)) <= Pow10(x.scale)
    ensures 2 * Abs(100 * x.scaled - c * Pow10(x.scale)) == Pow10(x.scale) ==> c % 2 == 0
  {
    if x.scale <= 2 then
      var c := x.scaled * Pow10(2 - x.scale);
      ScaleUp(x.scaled, x.scale);
      c
    else
      var d := Pow10(x.scale - 2);
      var c := NearestEven(x.scaled, d);
      ScaleDown(x.scaled, c, x.scale);
      c
  }

  lemma ScaleUp(n: int, scale: nat)
    requires scale <= 2
    ensures n * Pow10(2 - scale) * Pow10(scale) == 100 * n
  {
    Pow10Add(scale, 2 - scale);
    assert Pow10(2) == 100;
    assert n * Pow10(2 - scale) * Pow10(scale) == n * (Pow10(scale) * Pow10(2 - scale));
  }

  lemma ScaleDown(n: int, c: int, scale: nat)
    requires scale > 2
    ensures Pow10(scale) == 100 * Pow10(scale - 2)
    ensures 100 * n - c * Pow10(scale) == 100 * (n - c * Pow10(scale - 2))
  {
    Pow10Add(scale - 2, 2);
    assert Pow10(2) == 100;
  }

  /** `round(float(s), 2)` in hundredths; `None` where `float()` raises. */
  function FloatHundredths(s: string): (r: Option<int>)
    ensures !HasDigit(Strip(s)) ==> r.None?
  {
    match ParseDecimal(s)
    case None => None
    case Some(x) => Some(RoundHundredths(x))
  }

  /** What Python's `int()` accepts, after surrounding whitespace: an optional sign and digits. */
  function ParseInt(s: string): (r: Option<int>)
    ensures r.Some? ==> HasDigit(Strip(s))
  {
    var (negative, body) := SplitSign(Strip(s));
    if body != [] && IsDigits(body) then
      assert IsDigit(body[0]);
      assert Strip(s)[|Strip(s)| - |body|] == body[0];
      var magnitude: int := DigitsValue(body);
      Some(if negative then -magnitude else magnitude)
    else None
  }

  /**
   * `round(hours + minutes / 60, 2)` in hundredths: the exact value is `(300 h + 5 m) / 3`
   * hundredths, never halfway between two, and the result is within a third of a hundredth of it.
   */
  function ClockHundredths(hours: int, minutes: int): (c: int)
    ensures Abs(3 * c - (300 * hours + 5 * minutes)) <= 1
  {
    (600 * hours + 10 * minutes + 3) / 6
  }

  /**
   * `parse_duration_to_decimal` (app.py:61-72) in hundredths: without a colon the text is a
   * decimal; with one, the fields before the first and second colons are whole hours and
   * minutes (any further fields are ignored). `None` is `pd.NA`.
   */
  function DurationHundredths(s: string): (r: Option<int>)
  {
    var t := Strip(s);
    if !Contains(t, ":") then FloatHundredths(t)
    else
      var parts := Split(t, ":");
      ContainsSeparatorSplitsInTwo(t, ":");
      match (ParseInt(parts[0]), ParseInt(parts[1]))
      case (Some(h), Some(m)) => Some(ClockHundredths(h, m))
      case _ => None
  }

  /** Hundredths of an hour as hours. */
  function HoursOf(c: int): (h: real)
    ensures h * 100.0 == c as real
  {
    c as real / 100.0
  }

  /** `parse_duration_to_decimal` in hours. */
  function Duration(s: string): (r: Option<real>)
    ensures r.Some? <==> DurationHundredths(s).Some?
    ensures r.Some? ==> r.value * 100.0 == DurationHundredths(s).value as real
  {
    match DurationHundredths(s)
    case None => None
    case Some(c) => Some(HoursOf(c))
  }

  /** `round(float(s), 2)` in hours. */
  function FloatHours(s: string): (r: Option<real>)
    ensures r.Some? <==> FloatHundredths(s).Some?
    ensures r.Some? ==> r.value * 100.0 == FloatHundredths(s).value as real
  {
    match FloatHundredths(s)
    case None => None
    case Some(c) => Some(HoursOf(c))
  }

  // ---------------------------------------------------------------------------
  // the written forms and their readings

  /** `H:MM`, the way the reports write a duration. */
  function ClockText(hours: nat, minutes: nat): string
    requires minutes < 60
  {
    NatText(hours) + ":" + ZeroPad(minutes, 2)
  }

  /** `W.FF`, a non-negative number of hundredths written with two decimals. */
  function CentsText(c: nat): string {
    NatText(c / 100) + "." + ZeroPad(c % 100, 2)
  }

  lemma {:induction false} ParseIntDigits(s: string)
    requires s != [] && IsDigits(s)
    ensures ParseInt(s) == Some(DigitsValue(s))
  {
    StripDigits(s);
  }

  lemma {:induction false} ClockFields(t: string, a: string, b: string)
    requires a != [] && IsDigits(a) && b != [] && IsDigits(b)
    requires Strip(t) == t && Contains(t, ":") && Split(t, ":") == [a, b]
    ensures DurationHundredths(t) == Some(ClockHundredths(DigitsValue(a), DigitsValue(b)))
  {
    ParseIntDigits(a);
    ParseIntDigits(b);
  }

  lemma {:induction false} ColonText(a: string, b: string)
    requires IsDigits(a) && IsDigits(b)
    ensures var t := a + [':'] + b;
            Strip(t) == t && Contains(t, ":") && Split(t, ":") == [a, b]
  {
    StripJoinedDigits(a, ':', b);
    DigitsExclude(a, ':');
    DigitsExclude(b, ':');
    FirstOccurrence(a, ':', b);
    SplitPair(a, ':', b);
  }

  /** Two digit fields joined by a colon read as hours and minutes. */
  lemma {:induction false} ColonDuration(a: string, b: string)
    requires a != [] && IsDigits(a) && b != [] && IsDigits(b)
    ensures DurationHundredths(a + [':'] + b) == Some(ClockHundredths(DigitsValue(a), DigitsValue(b)))
  {
    ColonText(a, b);
    ClockFields(a + [':'] + b, a, b);
  }

  /** An `H:MM` duration reads back as `H + MM/60` hours rounded to hundredths. */
  lemma {:induction false} ClockTextDuration(hours: nat, minutes: nat)
    requires minutes < 60
    ensures DurationHundredths(ClockText(hours, minutes)) == Some(ClockHundredths(hours, minutes))
  {
    assert ClockText(hours, minutes) == NatText(hours) + [':'] + ZeroPad(minutes, 2);
    ColonDuration(NatText(hours), ZeroPad(minutes, 2));
  }

  /** The worked example: `8:30` is 8.5 hours. */
  lemma {:induction false} HalfPastEight()
    ensures Duration("8:30") == Some(8.5)
  {
    assert "8:30" == "8" + [':'] + "30";
    assert "30"[..1] == "3" && "3"[..0] == [] && "8"[..0] == [];
    assert DigitsValue("8") == 8 && DigitsValue("30") == 30;
    ColonDuration("8", "30");
    assert ClockHundredths(8, 30) == 850;
  }

  lemma {:induction false} UnsignedPoint(a: string, b: string)
    requires IsDigits(a) && IsDigits(b) && (a != [] || b != [])
    ensures ParseUnsigned(a + ['.'] + b) == Some(Decimal(DigitsValue(a + b), |b|))
  {
    var t := a + ['.'] + b;
    DigitsExclude(a, '.');
    FirstOccurrence(a, '.', b);
    assert t[..|a|] == a && t[|a| + 1..] == b;
    DigitsValueAppend(a, b);
  }

  lemma {:induction false} DecimalUnsigned(t: string)
    requires Strip(t) == t && t != [] && IsDigit(t[0])
    ensures ParseDecimal(t) == ParseUnsigned(t)
  {
  }

  /** Two digit fields around a point read as that decimal. */
  lemma {:induction false} PointDecimal(a: string, b: string)
    requires IsDigits(a) && IsDigits(b) && a != []
    ensures ParseDecimal(a + ['.'] + b) == Some(Decimal(DigitsValue(a + b), |b|))
  {
    StripJoinedDigits(a, '.', b);
    UnsignedPoint(a, b);
    DecimalUnsigned(a + ['.'] + b);
  }

  /** A duration written with two decimals reads back exactly. */
  lemma {:induction false} CentsTextDuration(c: nat)
    ensures DurationHundredths(CentsText(c)) == Some(c)
    ensures FloatHundredths(CentsText(c)) == Some(c)
  {
    var a, b := NatText(c / 100), ZeroPad(c % 100, 2);
    var t := a + ['.'] + b;
    assert CentsText(c) == t;
    CentsDigits(c);
    StripJoinedDigits(a, '.', b);
    JoinedDigitsExclude(a, '.', b, ':');
    PointDecimal(a, b);
    assert RoundHundredths(Decimal(c, 2)) == c;
    NoColonDuration(t);
  }

  lemma CentsDigits(c: nat)
    ensures |ZeroPad(c % 100, 2)| == 2
    ensures DigitsValue(NatText(c / 100) + ZeroPad(c % 100, 2)) == c
  {
    var a, b := NatText(c / 100), ZeroPad(c % 100, 2);
    NatTextLength(c % 100, 2);
    DigitsValueAppend(a, b);
    assert Pow10(2) == 100;
  }

  lemma {:induction false} NoColonDuration(t: string)
    requires Strip(t) == t && !Contains(t, ":")
    ensures DurationHundredths(t) == FloatHundredths(t)
  {
  }

  // ---------------------------------------------------------------------------
  // the texts `int()`, `float()` and `parse_duration_to_decimal` accept

  predicate IsSign(c: char) { c == '+' || c == '-' }

  /** No sign, `+` or `-`. */
  predicate IsSignText(sign: string) { |sign| <= 1 && (sign != [] ==> IsSign(sign[0])) }

  /** `v` negated after a `-` sign. */
  function Signed(sign: string, v: int): int { if sign != [] && sign[0] == '-' then -v else v }

  /** `int()`'s literal once stripped: an optional sign, then one or more digits. */
  predicate IntLiteral(t: string) {
    (t != [] && IsDigits(t)) || (|t| >= 2 && IsSign(t[0]) && IsDigits(t[1..]))
  }

  /** Digits with at most one point among them, and at least one digit (`12`, `12.`, `12.5`, `.5`). */
  predicate NumberBody(b: string) {
    && HasDigit(b)
    && (forall k :: 0 <= k < |b| ==> IsDigit(b[k]) || b[k] == '.')
    && (forall i, j :: 0 <= i < j < |b| && b[i] == '.' ==> b[j] != '.')
  }

  /** `float()`'s literal once stripped: an optional sign, then a number body. */
  predicate FloatLiteral(t: string) {
    NumberBody(t) || (t != [] && IsSign(t[0]) && NumberBody(t[1..]))
  }

  /**
   * The stripped text `parse_duration_to_decimal` reads as a number: without a colon a
   * float literal; with one, int literals (up to blanks) before the first and the second colon.
   */
  predicate DurationText(t: string) {
    if Contains(t, ":") then
      var fields := Split(t, ":");
      |fields| >= 2 && IntLiteral(Strip(fields[0])) && IntLiteral(Strip(fields[1]))
    else FloatLiteral(t)
  }

  /** The unsigned reading accepts exactly the number bodies. */
  lemma {:induction false} UnsignedAccepts(b: string)
    ensures ParseUnsigned(b).Some? <==> NumberBody(b)
  {
    assert "." == ['.'];
    if Contains(b, ".") {
      FirstChar(b, '.');
      var p := IndexOf(b, ".").value;
      assert ParseUnsigned(b).Some? <==> PointFields(b, p);
      PointFieldsBody(b, p);
    } else {
      forall k | 0 <= k < |b| ensures b[k] != '.' {
        if b[k] == '.' { CharPresent(b, '.', k); }
      }
      assert b + [] == b;
      if ParseUnsigned(b).Some? {
        assert IsDigit(b[0]);
      }
    }
  }

  /** Digits before and after the point at `p`, and at least one digit. */
  predicate PointFields(b: string, p: nat)
    requires p < |b|
  {
    IsDigits(b[..p]) && IsDigits(b[p + 1..]) && (b[..p] != [] || b[p + 1..] != [])
  }

  lemma {:induction false} PointFieldsBody(b: string, p: nat)
    requires p < |b| && b[p] == '.' && forall k :: 0 <= k < p ==> b[k] != '.'
    ensures PointFields(b, p) <==> NumberBody(b)
  {
    var whole, fraction := b[..p], b[p + 1..];
    if NumberBody(b) {
      assert IsDigits(whole) by {
        forall k | 0 <= k < |whole| ensures IsDigit(whole[k]) { assert whole[k] == b[k]; }
      }
      assert IsDigits(fraction) by {
        forall k | 0 <= k < |fraction| ensures IsDigit(fraction[k]) { assert fraction[k] == b[p + 1 + k]; }
      }
      var k :| 0 <= k < |b| && IsDigit(b[k]);
      if k < p { assert whole[k] == b[k]; } else { assert fraction[k - p - 1] == b[k]; }
    }
    if PointFields(b, p) {
      forall k | 0 <= k < |b| && k != p ensures IsDigit(b[k]) {
        if k < p { assert b[k] == whole[k]; } else { assert b[k] == fraction[k - p - 1]; }
      }
      if whole != [] { assert IsDigit(b[0]); } else { assert IsDigit(b[p + 1]); }
    }
  }

  /** `float()` accepts exactly the float literals (up to surrounding blanks). */
  lemma {:induction false} ParseDecimalAccepts(s: string)
    ensures ParseDecimal(s).Some? <==> FloatLiteral(Strip(s))
  {
    var t := Strip(s);
    var sign := SplitSign(t);
    UnsignedAccepts(sign.1);
    if t != [] && IsSign(t[0]) {
      assert !IsDigit(t[0]) && t[0] != '.';
    }
  }

  /** `int()` accepts exactly the int literals (up to surrounding blanks). */
  lemma {:induction false} ParseIntAccepts(s: string)
    ensures ParseInt(s).Some? <==> IntLiteral(Strip(s))
  {
    var t := Strip(s);
    if t != [] && IsSign(t[0]) {
      assert !IsDigits(t) by { assert !IsDigit(t[0]); }
    }
  }

  /** The sign and the text after it, when the text after it does not start with a sign. */
  lemma {:induction false} SignedText(sign: string, body: string)
    requires IsSignText(sign)
    requires body != [] && (IsDigit(body[0]) || body[0] == '.')
    requires forall k :: 0 <= k < |body| ==> !IsSpace(body[k])
    ensures Strip(sign + body) == sign + body
    ensures SplitSign(sign + body) == (sign != [] && sign[0] == '-', body)
  {
    var t := sign + body;
    forall k | 0 <= k < |t| ensures !IsSpace(t[k]) {
      if k >= |sign| { assert t[k] == body[k - |sign|]; }
    }
    StripNoSpace(t);
    if sign == [] {
      assert t == body;
    } else {
      assert t[1..] == body;
    }
  }

  /** A signed run of digits reads as its value, negated after `-`. */
  lemma {:induction false} ParseIntValue(sign: string, d: string)
    requires IsSignText(sign)
    requires d != [] && IsDigits(d)
    ensures ParseInt(sign + d) == Some(Signed(sign, DigitsValue(d)))
  {
    SignedText(sign, d);
  }

  /** A signed `whole.fraction` reads as the digits of both over `10^|fraction|`. */
  lemma {:induction false} ParseDecimalPoint(sign: string, whole: string, fraction: string)
    requires IsSignText(sign)
    requires IsDigits(whole) && IsDigits(fraction) && (whole != [] || fraction != [])
    ensures var v := DigitsValue(whole + fraction);
            ParseDecimal(sign + whole + "." + fraction) == Some(Decimal(Signed(sign, v), |fraction|))
  {
    var body := whole + ['.'] + fraction;
    assert sign + whole + "." + fraction == sign + body;
    forall k | 0 <= k < |body| ensures !IsSpace(body[k]) {
      if k < |whole| { assert body[k] == whole[k]; } else if k > |whole| { assert body[k] == fraction[k - |whole| - 1]; }
    }
    assert body[0] == if whole != [] then whole[0] else '.';
    UnsignedPoint(whole, fraction);
    SignedDecimal(sign, body);
  }

  /** A sign before an unsigned number negates it or not. */
  lemma {:induction false} SignedDecimal(sign: string, body: string)
    requires IsSignText(sign)
    requires body != [] && (IsDigit(body[0]) || body[0] == '.')
    requires forall k :: 0 <= k < |body| ==> !IsSpace(body[k])
    requires ParseUnsigned(body).Some?
    ensures var x := ParseUnsigned(body).value;
            ParseDecimal(sign + body) == Some(Decimal(Signed(sign, x.scaled), x.scale))
  {
    SignedText(sign, body);
  }

  /** A signed run of digits reads as a decimal with no fraction. */
  lemma {:induction false} ParseDecimalWhole(sign: string, whole: string)
    requires IsSignText(sign)
    requires whole != [] && IsDigits(whole)
    ensures ParseDecimal(sign + whole) == Some(Decimal(Signed(sign, DigitsValue(whole)), 0))
  {
    UnsignedWhole(whole);
    SignedDecimal(sign, whole);
  }

  lemma {:induction false} UnsignedWhole(whole: string)
    requires whole != [] && IsDigits(whole)
    ensures ParseUnsigned(whole) == Some(Decimal(DigitsValue(whole), 0))
  {
    DigitsExclude(whole, '.');
    assert "." == ['.'];
    assert whole + [] == whole;
  }

  /** `parse_duration_to_decimal` gives `pd.NA` exactly for text outside its grammar. */
  lemma {:induction false} DurationAccepts(s: string)
    ensures Duration(s).None? <==> !DurationText(Strip(s))
  {
    var t := Strip(s);
    StripStripped(s);
    if Contains(t, ":") {
      ContainsSeparatorSplitsInTwo(t, ":");
      var parts := Split(t, ":");
      ParseIntAccepts(parts[0]);
      ParseIntAccepts(parts[1]);
    } else {
      ParseDecimalAccepts(t);
    }
  }

  /** `int('8')` and `float('8')`. */
  lemma {:induction false} WholeExamples()
    ensures ParseInt("8") == Some(8)
    ensures ParseDecimal("8") == Some(Decimal(8, 0))
  {
    assert "8" == [] + "8";
    assert DigitsValue("8") == 8 by { assert "8"[..0] == []; }
    ParseIntValue([], "8");
    ParseDecimalWhole([], "8");
  }

  /** `float('-1.5')` */
  lemma {:induction false} NegativeExample()
    ensures ParseDecimal("-1.5") == Some(Decimal(-15, 1))
  {
    NegativeSpelling();
    FifteenDigits();
    ParseDecimalPoint("-", "1", "5");
  }

  lemma NegativeSpelling()
    ensures "-" + "1" + "." + "5" == "-1.5"
  {
  }

  lemma FifteenDigits()
    ensures DigitsValue("1" + "5") == 15
  {
    assert "1" + "5" == "15";
    assert "15"[..1] == "1" && "1"[..0] == [];
  }

  /** `float('.5')` */
  lemma {:induction false} FractionExample()
    ensures ParseDecimal(".5") == Some(Decimal(5, 1))
  {
    FractionSpelling();
    ParseDecimalPoint([], [], "5");
  }

  lemma FractionSpelling()
    ensures [] + [] + "." + "5" == ".5"
    ensures DigitsValue([] + "5") == 5
  {
    assert [] + "5" == "5";
    assert "5"[..0] == [];
  }

  /** A missing hour field gives `pd.NA`. */
  lemma {:induction false} MissingHours()
    ensures Duration(":30").None?
  {
    StripNoSpace(":30");
    MissingHoursText();
    DurationAccepts(":30");
  }

  lemma {:induction false} MissingHoursText()
    ensures !DurationText(":30")
  {
    var t := ":30";
    NoEarlierIndex(t, ':', 0);
    assert t[..0] == [];
    assert Split(t, ":")[0] == [];
  }

  /** A missing minute field gives `pd.NA`. */
  lemma {:induction false} MissingMinutes()
    ensures Duration("8:").None?
  {
    StripNoSpace("8:");
    MissingMinutesText();
    DurationAccepts("8:");
  }

  lemma {:induction false} MissingMinutesText()
    ensures !DurationText("8:")
  {
    var t := "8:";
    NoEarlierIndex(t, ':', 1);
    assert t[2..] == [];
    assert Split(t, ":") == [t[..1]] + Split([], ":");
  }

  /** A non-digit in the minute field gives `pd.NA`. */
  lemma {:induction false} LetterInMinutes()
    ensures Duration("8:3x").None?
  {
    StripNoSpace("8:3x");
    LetterInMinutesText();
    DurationAccepts("8:3x");
  }

  lemma {:induction false} LetterInMinutesText()
    ensures !DurationText("8:3x")
  {
    var t := "8:3x";
    NoEarlierIndex(t, ':', 1);
    LetterInMinutesFields();
    CharAbsent("3x", ':');
    assert Split(t, ":") == ["8"] + Split("3x", ":");
    StripNoSpace("3x");
  }

  lemma LetterInMinutesFields()
    ensures "8:3x"[..1] == "8" && "8:3x"[2..] == "3x"
    ensures !IntLiteral("3x")
  {
    assert "3x"[1] == 'x' && "3x"[1..][0] == 'x';
  }

  /** A letter in the hour field gives `pd.NA`. */
  lemma {:induction false} LettersInHours()
    ensures Duration("abc:5").None?
  {
    StripNoSpace("abc:5");
    LettersInHoursText();
    DurationAccepts("abc:5");
  }

  lemma {:induction false} LettersInHoursText()
    ensures !DurationText("abc:5")
  {
    var t := "abc:5";
    NoEarlierIndex(t, ':', 3);
    assert t[..3] == "abc";
    assert Split(t, ":")[0] == "abc";
    StripNoSpace("abc");
    assert !IntLiteral("abc") by { assert !IsDigit("abc"[0]) && !IsSign("abc"[0]); }
  }

  /** Two points give `pd.NA`. */
  lemma {:induction false} TwoPoints()
    ensures Duration("1.2.3").None?
  {
    StripNoSpace("1.2.3");
    TwoPointsText();
    DurationAccepts("1.2.3");
  }

  lemma {:induction false} TwoPointsText()
    ensures !DurationText("1.2.3")
  {
    var t := "1.2.3";
    CharAbsent(t, ':');
    assert !NumberBody(t) by { assert t[1] == '.' && t[3] == '.'; }
    assert !IsSign(t[0]);
  }
}
