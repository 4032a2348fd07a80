/** Properties of the DIMACS parser, stated over input texts built from
    rendered numbers: the overflow guards accept exactly the values within
    the limit, a rendered literal is read back with its separator, a
    malformed literal is rejected, and each clause-count and range
    violation is reported where the parser meets it.  The whole-file round
    trip is in DimacsRoundTrip. */
module DimacsText {
  import opened Limits
  import opened Results
  import opened Digits
  import opened DimacsErrors
  import opened Reader
  import opened Dimacs

  /** t occurs in s at position p. */
  predicate Occurs(s: seq<char>, p: nat, t: seq<char>) {
    p + |t| <= |s| && MatchFrom(s, p, t, 0)
  }

  /** The characters of t from index i on agree with s from p + i on. */
  predicate MatchFrom(s: seq<char>, p: nat, t: seq<char>, i: nat)
    requires p + |t| <= |s|
    decreases |t| - i
  {
    |t| <= i || (s[p + i] == t[i] && MatchFrom(s, p, t, i + 1))
  }

  lemma {:induction false} MatchAt(s: seq<char>, p: nat, t: seq<char>, j: nat, i: nat)
    requires p + |t| <= |s| && MatchFrom(s, p, t, j) && j <= i < |t|
    ensures s[p + i] == t[i]
    decreases i - j
  {
    if j < i {
      MatchAt(s, p, t, j + 1, i);
    }
  }

  lemma {:induction false} MatchAll(s: seq<char>, p: nat, t: seq<char>, j: nat)
    requires p + |t| <= |s| && forall i :: j <= i < |t| ==> s[p + i] == t[i]
    ensures MatchFrom(s, p, t, j)
    decreases |t| - j
  {
    if j < |t| {
      MatchAll(s, p, t, j + 1);
    }
  }

  lemma OccursAt(s: seq<char>, p: nat, t: seq<char>, i: nat)
    requires Occurs(s, p, t) && i < |t|
    ensures s[p + i] == t[i]
  {
    MatchAt(s, p, t, 0, i);
  }

  lemma OccursAll(s: seq<char>, p: nat, t: seq<char>)
    requires p + |t| <= |s| && forall i :: 0 <= i < |t| ==> s[p + i] == t[i]
    ensures Occurs(s, p, t)
  {
    MatchAll(s, p, t, 0);
  }

  lemma OccursSplit(s: seq<char>, p: nat, a: seq<char>, b: seq<char>)
    requires Occurs(s, p, a + b)
    ensures Occurs(s, p, a) && Occurs(s, p + |a|, b)
  {
    forall i | 0 <= i < |a|
      ensures s[p + i] == a[i]
    {
      OccursAt(s, p, a + b, i);
    }
    OccursAll(s, p, a);
    forall i | 0 <= i < |b|
      ensures s[p + |a| + i] == b[i]
    {
      OccursAt(s, p, a + b, |a| + i);
    }
    OccursAll(s, p + |a|, b);
  }

  lemma {:induction false} RunEndOf(s: seq<char>, i: nat, j: nat)
    requires i <= j <= |s| && (j == |s| || !IsDigit(s[j]))
    requires forall q :: i <= q < j ==> IsDigit(s[q])
    ensures RunEnd(s, i) == j
    decreases j - i
  {
    if i < j {
      RunEndOf(s, i + 1, j);
    }
  }

  function AfterDigits(n: Outcome<Step>, v: nat): Outcome<Number> {
    match n
    case Ok(st) => Ok(Number(v, st))
    case Err(e) => Err(e)
  }

  /** The two overflow guards together fire exactly when appending the
      digit would exceed max. */
  lemma GuardsExact(acc: nat, d: nat, max: nat)
    requires 0 < acc <= max && d < 10
    ensures (max / 10 < acc || max - d < acc * 10) <==> max < acc * 10 + d
    ensures acc <= max / 10 ==> acc * 10 <= max
  {
  }

  /** One digit of the loop: the zero and overflow guards, then the next
      iteration with the digit appended. */
  lemma DigitStep(s: seq<char>, c: Cursor, acc: nat, max: nat, what: Quantity)
    requires Valid(s, c) && acc <= max && c.pos < |s| && IsDigit(s[c.pos])
    ensures At(s, c.pos + 1).line == c.line
    ensures var d := DigitValue(s[c.pos]);
            var r := ScanDigits(s, c, acc, max, what);
            && (acc == 0 ==> r == Err(ParseError(c.line, InvalidDigitAfterZero(what))))
            && (0 < acc && max < acc * 10 + d ==> r.Err? && IsOverflow(r.error.kind, what) && r.error.line == c.line)
            && (0 < acc && acc * 10 + d <= max ==> r == ScanDigits(s, At(s, c.pos + 1), acc * 10 + d, max, what))
  {
    var c1 := At(s, c.pos + 1);
    assert Next(s, c) == Ok(Step(Char(s[c.pos]), c1));
    assert c1.line == c.line;
    if 0 < acc {
      GuardsExact(acc, DigitValue(s[c.pos]), max);
    }
  }

  /** The value of the digit run from i on, appended to acc, position by
      position. */
  function RunValue(s: seq<char>, i: nat, acc: nat): nat
    requires i <= |s|
    decreases |s| - i
  {
    if i < |s| && IsDigit(s[i]) then RunValue(s, i + 1, acc * 10 + DigitValue(s[i])) else acc
  }

  lemma {:induction false} RunValueAtLeast(s: seq<char>, i: nat, acc: nat)
    requires i <= |s|
    ensures acc <= RunValue(s, i, acc)
    decreases |s| - i
  {
    if i < |s| && IsDigit(s[i]) {
      RunValueAtLeast(s, i + 1, acc * 10 + DigitValue(s[i]));
    }
  }

  /** The run from i on is made of digits, and RunValue is its decimal
      value appended to acc. */
  lemma {:induction false} RunValueIsAccumulate(s: seq<char>, i: nat, acc: nat)
    requires i <= |s|
    ensures AllDigits(s[i..RunEnd(s, i)])
    ensures RunValue(s, i, acc) == Accumulate(acc, s[i..RunEnd(s, i)])
    decreases |s| - i
  {
    var k := RunEnd(s, i);
    if i < |s| && IsDigit(s[i]) {
      RunValueIsAccumulate(s, i + 1, acc * 10 + DigitValue(s[i]));
      assert s[i..k][1..] == s[i + 1..k];
    } else {
      assert s[i..k] == [];
    }
  }

  /** A run that starts with '0' and goes on is rejected at its second digit. */
  lemma ScanRunZero(s: seq<char>, p: nat, max: nat, what: Quantity)
    requires p <= |s| && p < RunEnd(s, p)
    ensures ScanDigits(s, At(s, p), 0, max, what) == Err(ParseError(At(s, p).line, InvalidDigitAfterZero(what)))
  {
    DigitStep(s, At(s, p), 0, max, what);
  }

  /** A run whose value stays within max is read to its end. */
  lemma {:induction false} ScanRunWithin(s: seq<char>, p: nat, acc: nat, max: nat, what: Quantity)
    requires p <= |s| && (0 < acc || RunEnd(s, p) == p) && RunValue(s, p, acc) <= max
    ensures acc <= max
    ensures ScanDigits(s, At(s, p), acc, max, what) == AfterDigits(Next(s, At(s, RunEnd(s, p))), RunValue(s, p, acc))
    decreases |s| - p
  {
    RunValueAtLeast(s, p, acc);
    if p < |s| && IsDigit(s[p]) {
      var next := acc * 10 + DigitValue(s[p]);
      RunValueAtLeast(s, p + 1, next);
      assert RunValue(s, p, acc) == RunValue(s, p + 1, next);
      assert RunEnd(s, p) == RunEnd(s, p + 1);
      DigitContinues(s, p, acc, max, what, next);
      ScanRunWithin(s, p + 1, next, max, what);
    } else {
      RunStop(s, At(s, p), acc, max, what);
    }
  }

  /** A run whose value exceeds max trips an overflow guard on its own line. */
  lemma {:induction false} ScanRunOver(s: seq<char>, p: nat, acc: nat, max: nat, what: Quantity)
    requires p <= |s| && acc <= max && (0 < acc || RunEnd(s, p) == p) && max < RunValue(s, p, acc)
    ensures var r := ScanDigits(s, At(s, p), acc, max, what);
            r.Err? && IsOverflow(r.error.kind, what) && r.error.line == At(s, p).line
    decreases |s| - p
  {
    if p < |s| && IsDigit(s[p]) {
      var next := acc * 10 + DigitValue(s[p]);
      if next <= max {
        assert RunValue(s, p, acc) == RunValue(s, p + 1, next);
        DigitContinues(s, p, acc, max, what, next);
        ScanRunOver(s, p + 1, next, max, what);
      } else {
        DigitStep(s, At(s, p), acc, max, what);
      }
    }
  }

  /** A digit that keeps the value within max moves the loop on by one
      position, on the same line. */
  lemma DigitContinues(s: seq<char>, p: nat, acc: nat, max: nat, what: Quantity, next: nat)
    requires p < |s| && IsDigit(s[p]) && 0 < acc && next == acc * 10 + DigitValue(s[p]) && next <= max
    ensures At(s, p + 1).line == At(s, p).line
    ensures ScanDigits(s, At(s, p), acc, max, what) == ScanDigits(s, At(s, p + 1), next, max, what)
  {
    DigitStep(s, At(s, p), acc, max, what);
  }

  /** The digit loop from position p: the zero guard, then overflow
      exactly when the run's value exceeds max, else the run's value. */
  lemma ScanRun(s: seq<char>, p: nat, acc: nat, max: nat, what: Quantity)
    requires p <= |s| && acc <= max
    ensures var k := RunEnd(s, p);
            var v := RunValue(s, p, acc);
            var r := ScanDigits(s, At(s, p), acc, max, what);
            && (acc == 0 && p < k ==> r == Err(ParseError(At(s, p).line, InvalidDigitAfterZero(what))))
            && (0 < acc || k == p ==> (max < v <==> r.Err? && IsOverflow(r.error.kind, what)))
            && (0 < acc || k == p ==> max < v ==> r.Err? && r.error.line == At(s, p).line)
            && (0 < acc || k == p ==> v <= max ==> r == AfterDigits(Next(s, At(s, k)), v))
  {
    var k := RunEnd(s, p);
    if acc == 0 && p < k {
      ScanRunZero(s, p, max, what);
    } else if max < RunValue(s, p, acc) {
      ScanRunOver(s, p, acc, max, what);
    } else {
      ScanRunWithin(s, p, acc, max, what);
    }
  }

  /** The digit loop's guards: a run that starts with '0' and goes on is
      rejected at its second digit; otherwise the run is rejected by an
      overflow guard exactly when its value exceeds `max`, and when it does
      not, the value returned is the run's decimal value and the step is the
      reading of the character after the run. */
  lemma ScanDigitsValue(s: seq<char>, c: Cursor, acc: nat, max: nat, what: Quantity)
    requires Valid(s, c) && acc <= max
    ensures AllDigits(s[c.pos..RunEnd(s, c.pos)])
    ensures var k := RunEnd(s, c.pos);
            var v := Accumulate(acc, s[c.pos..k]);
            var r := ScanDigits(s, c, acc, max, what);
            && (acc == 0 && c.pos < k ==> r == Err(ParseError(c.line, InvalidDigitAfterZero(what))))
            && (0 < acc || k == c.pos ==> (max < v <==> r.Err? && IsOverflow(r.error.kind, what)))
            && (0 < acc || k == c.pos ==> max < v ==> r.Err? && r.error.line == c.line)
            && (0 < acc || k == c.pos ==> v <= max ==> r == AfterDigits(Next(s, At(s, k)), v))
  {
    assert At(s, c.pos) == c;
    ScanRun(s, c.pos, acc, max, what);
    RunValueIsAccumulate(s, c.pos, acc);
  }

  /** No digit ahead: the loop stops with the value accumulated so far. */
  lemma RunStop(s: seq<char>, c: Cursor, acc: nat, max: nat, what: Quantity)
    requires Valid(s, c) && acc <= max && !(c.pos < |s| && IsDigit(s[c.pos]))
    ensures ScanDigits(s, c, acc, max, what) == AfterDigits(Next(s, c), acc)
  {
  }

  /** Reading a rendered number whose first digit has been read already. */
  lemma ScanOfDecimal(s: seq<char>, p: nat, n: nat, max: nat, what: Quantity, e: nat, after: char)
    requires 9 <= max
    requires Occurs(s, p, Decimal(n)) && e == p + |Decimal(n)| && e < |s|
    requires s[e] == after && !IsDigit(after) && after != '\r'
    ensures var r := ScanDigits(s, At(s, p + 1), Leading(n), max, what);
            && (n <= max ==> r == Ok(Number(n, Step(Char(after), At(s, e + 1)))))
            && (max < n ==> r.Err? && IsOverflow(r.error.kind, what) && r.error.line == At(s, p + 1).line)
  {
    RunOfDecimal(s, p, n, e);
    assert Next(s, At(s, e)) == Ok(Step(Char(s[e]), At(s, e + 1)));
    ScanRun(s, p + 1, Leading(n), max, what);
  }

  /** A rendered number within max, read from its first digit on: the
      digit loop returns it together with the reading of whatever follows
      it, end-of-file included. */
  lemma NumberOfText(s: seq<char>, p: nat, n: nat, max: nat, what: Quantity, e: nat)
    requires 9 <= max && n <= max
    requires Occurs(s, p, Decimal(n)) && e == p + |Decimal(n)| && (e == |s| || !IsDigit(s[e]))
    ensures p < |s| && IsDigit(s[p]) && DigitValue(s[p]) == Leading(n)
    ensures ScanDigits(s, At(s, p + 1), Leading(n), max, what) == AfterDigits(Next(s, At(s, e)), n)
  {
    RunOfDecimal(s, p, n, e);
    DecimalDigits(n);
    OccursAt(s, p, Decimal(n), 0);
    ScanRun(s, p + 1, Leading(n), max, what);
  }

  /** The line the reader is on once it has read the character at e, or
      once it has met end-of-file when e is the end of the input. */
  function LineAfter(s: seq<char>, e: nat): int
    requires e <= |s|
  {
    At(s, if e < |s| then e + 1 else e).line
  }

  /** Reading at e when no carriage return is there: the character at e,
      or end-of-file, on the line LineAfter names. */
  lemma ReadAt(s: seq<char>, e: nat) returns (next: Step)
    requires e <= |s| && (e == |s| || s[e] != '\r')
    ensures Next(s, At(s, e)) == Ok(next) && next.cur.line == LineAfter(s, e)
    ensures next == if e < |s| then Step(Char(s[e]), At(s, e + 1)) else Step(Eof, At(s, e))
  {
    next := if e < |s| then Step(Char(s[e]), At(s, e + 1)) else Step(Eof, At(s, e));
  }

  /** The digits after the first of a rendered number form the run that
      ends at e, and its value, after the first digit, is the number. */
  lemma RunOfDecimal(s: seq<char>, p: nat, n: nat, e: nat)
    requires Occurs(s, p, Decimal(n)) && e == p + |Decimal(n)| && (e == |s| || !IsDigit(s[e]))
    ensures RunEnd(s, p + 1) == e && RunValue(s, p + 1, Leading(n)) == n
    ensures 0 < Leading(n) || e == p + 1
  {
    RunSliceOfDecimal(s, p, n);
    DecimalDigits(n);
    RunValueIsAccumulate(s, p + 1, Leading(n));
  }

  lemma RunSliceOfDecimal(s: seq<char>, p: nat, n: nat)
    requires Occurs(s, p, Decimal(n))
    requires p + |Decimal(n)| == |s| || !IsDigit(s[p + |Decimal(n)|])
    ensures var D := Decimal(n);
            && RunEnd(s, p + 1) == p + |D|
            && AllDigits(s[p + 1..p + |D|])
            && Accumulate(Leading(n), s[p + 1..p + |D|]) == n
  {
    var D := Decimal(n);
    DecimalDigits(n);
    var e := p + |D|;
    forall q | p + 1 <= q < e
      ensures IsDigit(s[q])
    {
      OccursAt(s, p, D, q - p);
      AllDigitsAt(D, q - p);
    }
    RunEndOf(s, p + 1, e);
    forall q | 0 <= q < |D| - 1
      ensures s[p + 1..e][q] == D[1..][q]
    {
      OccursAt(s, p, D, q + 1);
    }
    assert s[p + 1..e] == D[1..];
    ValueOfDecimal(n);
    assert Value(D) == Accumulate(Leading(n), D[1..]);
  }

  lemma OccursJoin(s: seq<char>, p: nat, a: seq<char>, b: seq<char>)
    requires Occurs(s, p, a) && Occurs(s, p + |a|, b)
    ensures Occurs(s, p, a + b)
  {
    forall i | 0 <= i < |a + b|
      ensures s[p + i] == (a + b)[i]
    {
      if i < |a| {
        OccursAt(s, p, a, i);
      } else {
        OccursAt(s, p + |a|, b, i - |a|);
      }
    }
    OccursAll(s, p, a + b);
  }

  /** The decimal digits of n, most significant first, end just before e. */
  predicate NumeralBefore(s: seq<char>, e: nat, n: nat)
    decreases n
  {
    0 < e <= |s| && s[e - 1] == DigitChar(n % 10) && (n < 10 || NumeralBefore(s, e - 1, n / 10))
  }

  /** The characters NumeralBefore covers are digits. */
  lemma {:induction false} NumeralDigits(s: seq<char>, e: nat, n: nat, i: nat)
    requires NumeralBefore(s, e, n) && e <= i + DigitCount(n) && i < e
    ensures IsDigit(s[i])
    decreases n
  {
    if i < e - 1 {
      NumeralDigits(s, e - 1, n / 10, i);
    }
  }

  /** NumeralBefore says, digit by digit, that Decimal(n) occurs in the text. */
  lemma {:induction false} NumeralOfText(s: seq<char>, q: nat, n: nat)
    requires Occurs(s, q, Decimal(n))
    ensures NumeralBefore(s, q + DigitCount(n), n)
    decreases n
  {
    DecimalCount(n);
    var d := [DigitChar(n % 10)];
    if n < 10 {
      OccursAt(s, q, Decimal(n), 0);
    } else {
      OccursSplit(s, q, Decimal(n / 10), d);
      OccursAt(s, q + |Decimal(n / 10)|, d, 0);
      DecimalCount(n / 10);
      NumeralOfText(s, q, n / 10);
    }
  }

  lemma {:induction false} TextOfNumeral(s: seq<char>, q: nat, n: nat)
    requires NumeralBefore(s, q + DigitCount(n), n)
    ensures Occurs(s, q, Decimal(n)) && |Decimal(n)| == DigitCount(n)
    decreases n
  {
    DecimalCount(n);
    var d := [DigitChar(n % 10)];
    if n < 10 {
      OccursAll(s, q, d);
    } else {
      TextOfNumeral(s, q, n / 10);
      OccursAll(s, q + |Decimal(n / 10)|, d);
      OccursJoin(s, q, Decimal(n / 10), d);
    }
  }

  /** The literal x, written as '%d' writes it, starts at p and is
      followed by sep: a minus sign at p when x is negative, then the
      digits of its magnitude, then sep at p + Span(x). */
  predicate LiteralAt(s: seq<char>, p: nat, x: int, sep: char) {
    var q := if x < 0 then p + 1 else p;
    var e := q + DigitCount(Abs(x));
    && e < |s| && NumeralBefore(s, e, Abs(x)) && s[e] == sep
    && (x < 0 ==> s[p] == '-')
  }

  /** A rendered literal followed by a separator, as a piece of text, is
      where LiteralAt places its parts. */
  lemma LiteralOfText(s: seq<char>, p: nat, x: int, sep: char)
    requires Occurs(s, p, Render(x) + [sep])
    ensures LiteralAt(s, p, x, sep)
  {
    var D := Decimal(Abs(x));
    var R := Render(x);
    var q := if x < 0 then p + 1 else p;
    OccursSplit(s, p, R, [sep]);
    OccursAt(s, p + |R|, [sep], 0);
    if x < 0 {
      assert R == "-" + D;
      OccursSplit(s, p, "-", D);
      OccursAt(s, p, "-", 0);
    } else {
      assert R == D;
    }
    NumeralOfText(s, q, Abs(x));
    DecimalCount(Abs(x));
  }

  /** The digits of a literal, as the text holds them. */
  lemma DigitsOfLiteral(s: seq<char>, p: nat, x: int, sep: char, q: nat)
    requires LiteralAt(s, p, x, sep)
    requires q == if x < 0 then p + 1 else p
    ensures Occurs(s, q, Decimal(Abs(x))) && q + |Decimal(Abs(x))| == p + Span(x)
    ensures IsDigit(s[q]) && s[q] == DigitChar(Leading(Abs(x)))
  {
    TextOfNumeral(s, q, Abs(x));
    OccursAt(s, q, Decimal(Abs(x)), 0);
    DecimalDigits(Abs(x));
  }

  /** The first character of a rendered literal at p is not a separator,
      and reading the sign leaves the cursor after the first digit at q. */
  lemma SignOfRender(s: seq<char>, p: nat, x: int, sep: char, q: nat)
    requires LiteralAt(s, p, x, sep)
    requires q == if x < 0 then p + 1 else p
    ensures p < |s| && Next(s, At(s, p)) == Ok(Step(Char(s[p]), At(s, p + 1)))
    ensures s[p] != ' ' && s[p] != '\t' && s[p] != '\n' && s[p] != 'c'
    ensures ReadSign(s, Step(Char(s[p]), At(s, p + 1)))
            == Ok((if x < 0 then -1 else 1, Step(Char(s[q]), At(s, q + 1))))
  {
    DigitsOfLiteral(s, p, x, sep, q);
  }

  /** A rendered literal at p followed by a separator at e - 1: reading it
      returns the literal and the step that read the separator, or the
      range error (reported after the separator has been read) when its
      magnitude exceeds the declared maximum variable. */
  lemma ReadLiteralOfRender(s: seq<char>, p: nat, x: int, sep: char, variables: nat, e: nat)
    requires LiteralAt(s, p, x, sep)
    requires IsSeparator(sep) && Abs(x) <= INT_MAX
    requires e == p + Span(x) + 1
    ensures p < |s| && e <= |s|
    ensures var r := ReadLiteral(s, Step(Char(s[p]), At(s, p + 1)), variables, false);
            && (Abs(x) <= variables ==> r == Ok(Literal(x, Step(Char(sep), At(s, e)))))
            && (variables < Abs(x) ==> r == Err(ParseError(At(s, e).line, LiteralExceedsMaxVariable(x, variables))))
  {
    var q := if x < 0 then p + 1 else p;
    var sign := if x < 0 then -1 else 1;
    var first := Step(Char(s[q]), At(s, q + 1));
    SignOfRender(s, p, x, sep, q);
    DigitsOfRender(s, p, x, sep, q, e);
    assert sign * Abs(x) == x;
    LiteralFromParts(s, Step(Char(s[p]), At(s, p + 1)), variables, sign, first, Abs(x), Step(Char(sep), At(s, e)), x);
  }

  /** The digit loop over a rendered literal's magnitude stops at the
      separator with the magnitude. */
  lemma DigitsOfRender(s: seq<char>, p: nat, x: int, sep: char, q: nat, e: nat)
    requires LiteralAt(s, p, x, sep)
    requires IsSeparator(sep) && Abs(x) <= INT_MAX
    requires q == if x < 0 then p + 1 else p
    requires e == p + Span(x) + 1
    ensures e <= |s| && IsDigit(s[q])
    ensures ScanDigits(s, At(s, q + 1), DigitValue(s[q]), INT_MAX, LiteralNumber)
            == Ok(Number(Abs(x), Step(Char(sep), At(s, e))))
  {
    DigitsOfLiteral(s, p, x, sep, q);
    ScanOfDecimal(s, q, Abs(x), INT_MAX, LiteralNumber, e - 1, sep);
  }

  lemma LiteralFromParts(s: seq<char>, st: Step, variables: nat, sign: int, first: Step, n: nat, next: Step, lit: int)
    requires Valid(s, st.cur) && st.token.Char? && Valid(s, first.cur) && IsDigitToken(first.token)
    requires ReadSign(s, st) == Ok((sign, first))
    requires ScanDigits(s, first.cur, DigitValue(first.token.c), INT_MAX, LiteralNumber) == Ok(Number(n, next))
    requires next.token.Char? && IsSeparator(next.token.c) && lit == sign * n
    ensures var r := ReadLiteral(s, st, variables, false);
            && (Abs(lit) <= variables ==> r == Ok(Literal(lit, next)))
            && (variables < Abs(lit) ==> r == Err(ParseError(next.cur.line, LiteralExceedsMaxVariable(lit, variables))))
  {
  }

  /** How the body loop goes on after a literal's separator was read: a
      'c' starts a comment right there, anything else continues the loop. */
  function Continue(s: seq<char>, e: Cursor, h: Header, b: Body, sep: char): Outcome<Cnf>
    requires Valid(s, e) && BodyInv(h, b)
  {
    if sep == 'c' then
      var c' :- SkipComment(s, e, EofInComment);
      ParseBody(s, c', h, b)
    else
      ParseBody(s, e, h, b)
  }

  /** The body loop at a character that starts a literal, while clauses
      are still expected: a failure to read the literal is the loop's
      failure, a literal read is added and the loop continues after it. */
  lemma LiteralInBody(s: seq<char>, c: Cursor, h: Header, b: Body, st: Step)
    requires Valid(s, c) && BodyInv(h, b) && b.parsed < h.clauses
    requires Next(s, c) == Ok(st) && st.token.Char? && !IsSeparator(st.token.c)
    ensures Valid(s, st.cur)
    ensures var r := ReadLiteral(s, st, h.variables, false);
            && (r.Err? ==> ParseBody(s, c, h, b) == Err(r.error))
            && (r.Ok? ==> BodyInv(h, Add(b, r.value.lit))
                          && ParseBody(s, c, h, b) == Continue(s, r.value.next.cur, h, Add(b, r.value.lit), r.value.next.token.c))
  {
    var r := ReadLiteral(s, st, h.variables, false);
    if r.Ok? {
      assert (b.added + [r.value.lit])[..|b.added|] == b.added;
    }
  }

  /** One rendered literal at p in the body: it is added (and counted when
      it is a zero), and the loop continues at e, right after its
      separator, a 'c' separator starting a comment without reading a
      further character. */
  lemma ItemStep(s: seq<char>, p: nat, h: Header, b: Body, x: int, sep: char, e: nat)
    requires BodyInv(h, b) && h.variables <= INT_MAX
    requires LiteralAt(s, p, x, sep) && IsSeparator(sep)
    requires Abs(x) <= h.variables && b.parsed < h.clauses
    requires e == p + Span(x) + 1
    ensures p < e <= |s| && BodyInv(h, Add(b, x))
    ensures ParseBody(s, At(s, p), h, b) == Continue(s, At(s, e), h, Add(b, x), sep)
  {
    var st := Step(Char(s[p]), At(s, p + 1));
    SignOfRender(s, p, x, sep, if x < 0 then p + 1 else p);
    ReadLiteralOfRender(s, p, x, sep, h.variables, e);
    LiteralInBody(s, At(s, p), h, b, st);
  }

  /** A rendered literal at p whose magnitude exceeds the declared maximum
      variable is rejected whatever its sign, on the line where its
      separator was read. */
  lemma LiteralOutOfRange(s: seq<char>, p: nat, h: Header, b: Body, x: int, sep: char, e: nat)
    requires BodyInv(h, b)
    requires LiteralAt(s, p, x, sep) && IsSeparator(sep)
    requires h.variables < Abs(x) <= INT_MAX && b.parsed < h.clauses
    requires e == p + Span(x) + 1
    ensures e <= |s| && ParseBody(s, At(s, p), h, b) == Err(ParseError(At(s, e).line, LiteralExceedsMaxVariable(x, h.variables)))
  {
    var st := Step(Char(s[p]), At(s, p + 1));
    SignOfRender(s, p, x, sep, if x < 0 then p + 1 else p);
    ReadLiteralOfRender(s, p, x, sep, h.variables, e);
    LiteralInBody(s, At(s, p), h, b, st);
  }

  /** Once the specified number of clauses has been parsed, the start of
      any further literal is an error at that token, whether or not it is
      a zero. */
  lemma MoreClausesAtLiteral(s: seq<char>, c: Cursor, h: Header, b: Body)
    requires Valid(s, c) && BodyInv(h, b) && b.parsed == h.clauses
    requires c.pos < |s|
    requires IsDigit(s[c.pos]) || (s[c.pos] == '-' && c.pos + 1 < |s| && IsDigit(s[c.pos + 1]))
    ensures ParseBody(s, c, h, b) == Err(ParseError(c.line, MoreClausesThanSpecified))
  {
    var st := Step(Char(s[c.pos]), At(s, c.pos + 1));
    assert Next(s, c) == Ok(st);
    if s[c.pos] == '-' {
      assert Next(s, st.cur) == Ok(Step(Char(s[c.pos + 1]), At(s, c.pos + 2)));
      assert At(s, c.pos + 2).line == c.line;
    }
  }

  /** A rendered literal within 'int' that is followed by end-of-file, or
      by a character that is no digit, no separator and no carriage return
      (a '\r' is the reader's business), is rejected once that character
      has been read, before its range is checked. */
  lemma BadCharAfterLiteral(s: seq<char>, p: nat, h: Header, b: Body, x: int, e: nat)
    requires BodyInv(h, b) && b.parsed < h.clauses && Abs(x) <= INT_MAX
    requires Occurs(s, p, Render(x)) && e == p + |Render(x)|
    requires e == |s| || (!IsDigit(s[e]) && !IsSeparator(s[e]) && s[e] != '\r')
    ensures ParseBody(s, At(s, p), h, b) == Err(ParseError(LineAfter(s, e), UnexpectedCharAfter(x)))
  {
    var n := Abs(x);
    var q := if x < 0 then p + 1 else p;
    var sign: int := if x < 0 then -1 else 1;
    SignOfText(s, p, x, q);
    NumberOfText(s, q, n, INT_MAX, LiteralNumber, e);
    var st := Step(Char(s[p]), At(s, p + 1));
    var first := Step(Char(s[q]), At(s, q + 1));
    var next := ReadAt(s, e);
    assert ScanDigits(s, first.cur, DigitValue(first.token.c), INT_MAX, LiteralNumber) == Ok(Number(n, next));
    assert sign * n == x;
    assert ReadLiteral(s, st, h.variables, false) == Err(ParseError(next.cur.line, UnexpectedCharAfter(x)));
    LiteralInBody(s, At(s, p), h, b, st);
  }

  /** Where the parts of a rendered literal sit: a '-' at p when it is
      negative, then the digits of its magnitude from q on. */
  lemma DigitsOfText(s: seq<char>, p: nat, x: int, q: nat)
    requires Occurs(s, p, Render(x)) && q == if x < 0 then p + 1 else p
    ensures Occurs(s, q, Decimal(Abs(x))) && q + |Decimal(Abs(x))| == p + |Render(x)|
    ensures x < 0 ==> s[p] == '-'
  {
    if x < 0 {
      assert Render(x) == "-" + Decimal(Abs(x));
      OccursSplit(s, p, "-", Decimal(Abs(x)));
      OccursAt(s, p, "-", 0);
    }
  }

  /** Reading the sign of a rendered literal at p leaves the cursor after
      its first digit at q. */
  lemma SignOfText(s: seq<char>, p: nat, x: int, q: nat)
    requires Occurs(s, p, Render(x)) && q == if x < 0 then p + 1 else p
    ensures Occurs(s, q, Decimal(Abs(x))) && q + |Decimal(Abs(x))| == p + |Render(x)|
    ensures q < |s| && IsDigit(s[q]) && !IsSeparator(s[p])
    ensures Next(s, At(s, p)) == Ok(Step(Char(s[p]), At(s, p + 1)))
    ensures ReadSign(s, Step(Char(s[p]), At(s, p + 1)))
            == Ok((if x < 0 then -1 else 1, Step(Char(s[q]), At(s, q + 1))))
  {
    DigitsOfText(s, p, x, q);
    DecimalDigits(Abs(x));
    OccursAt(s, q, Decimal(Abs(x)), 0);
    assert s[p] == if x < 0 then '-' else s[q];
  }

  /** A '-' must be followed by a digit: end-of-file or any other
      character after it (a '\r' aside) is rejected once read, whether
      or not more clauses are expected. */
  lemma MinusWithoutDigit(s: seq<char>, c: Cursor, h: Header, b: Body)
    requires Valid(s, c) && BodyInv(h, b) && c.pos < |s| && s[c.pos] == '-'
    requires c.pos + 1 == |s| || (!IsDigit(s[c.pos + 1]) && s[c.pos + 1] != '\r')
    ensures ParseBody(s, c, h, b) == Err(ParseError(LineAfter(s, c.pos + 1), ExpectedDigitAfterMinus))
  {
    var e := c.pos + 1;
    var st := Step(Char('-'), At(s, e));
    var d := ReadAt(s, e);
    assert Next(s, c) == Ok(st);
    assert ReadSign(s, st) == Err(ParseError(d.cur.line, ExpectedDigitAfterMinus));
    assert ReadLiteral(s, st, h.variables, b.parsed == h.clauses) == Err(ParseError(d.cur.line, ExpectedDigitAfterMinus));
  }

  /** A literal can only start with a digit or a '-': any other character
      that the body loop does not skip is rejected where it stands. */
  lemma NotANumber(s: seq<char>, c: Cursor, h: Header, b: Body)
    requires Valid(s, c) && BodyInv(h, b) && c.pos < |s|
    requires !IsDigit(s[c.pos]) && !IsSeparator(s[c.pos]) && s[c.pos] != '-' && s[c.pos] != '\r'
    ensures ParseBody(s, c, h, b) == Err(ParseError(c.line, ExpectedNumber))
  {
    var st := Step(Char(s[c.pos]), At(s, c.pos + 1));
    assert Next(s, c) == Ok(st);
    assert st.cur.line == c.line;
    assert ReadLiteral(s, st, h.variables, b.parsed == h.clauses) == Err(ParseError(c.line, ExpectedNumber));
  }

  /** The literal '-0' is accepted and, being zero, terminates a clause. */
  lemma NegativeZero(s: seq<char>, c: Cursor, variables: nat, sep: char)
    requires Valid(s, c) && IsSeparator(sep) && c.pos + 2 < |s|
    requires s[c.pos] == '-' && s[c.pos + 1] == '0' && s[c.pos + 2] == sep
    ensures ReadLiteral(s, Step(Char('-'), At(s, c.pos + 1)), variables, false)
            == Ok(Literal(0, Step(Char(sep), At(s, c.pos + 3))))
  {
    var st := Step(Char('0'), At(s, c.pos + 2));
    assert Next(s, At(s, c.pos + 1)) == Ok(st);
    assert Next(s, At(s, c.pos + 2)) == Ok(Step(Char(sep), At(s, c.pos + 3)));
    assert ScanDigits(s, st.cur, 0, INT_MAX, LiteralNumber) == Ok(Number(0, Step(Char(sep), At(s, c.pos + 3))));
  }
}
