/** Comments and runs of blanks, wherever the parser allows them: comment
    lines before the header, blanks inside and at the end of the header
    line, and blanks, newlines and comments between the literals of the
    body.  Each is shown to be consumed without changing what is parsed. */
module DimacsLayout {
  import opened Limits
  import opened Results
  import opened Digits
  import opened DimacsErrors
  import opened Reader
  import opened Dimacs
  import opened DimacsText
  import opened DimacsRoundTrip

  /** Every character of s[p..k] is a space or a tab. */
  predicate Blanks(s: seq<char>, p: nat, k: nat)
    decreases k - p
  {
    p <= k <= |s| && (p == k || (IsBlank(s[p]) && Blanks(s, p + 1, k)))
  }

  /** Every character of s[p..k] is a space, a tab or a newline. */
  predicate Spacing(s: seq<char>, p: nat, k: nat)
    decreases k - p
  {
    p <= k <= |s| && (p == k || ((s[p] == ' ' || s[p] == '\t' || s[p] == '\n') && Spacing(s, p + 1, k)))
  }

  /** The text of a comment runs from p up to the newline at k; a '\r' in
      it is allowed only as the first half of that line's "\r\n". */
  predicate CommentLine(s: seq<char>, p: nat, k: nat)
    decreases k - p
  {
    && p <= k < |s|
    && if p == k then s[k] == '\n'
       else s[p] != '\n' && (s[p] == '\r' ==> p + 1 == k) && CommentLine(s, p + 1, k)
  }

  /** The first position from i on that is not a space or a tab. */
  function BlankEnd(s: seq<char>, i: nat): (k: nat)
    requires i <= |s|
    ensures Blanks(s, i, k) && (k == |s| || !IsBlank(s[k]))
    decreases |s| - i
  {
    if i < |s| && IsBlank(s[i]) then BlankEnd(s, i + 1) else i
  }

  /** The first newline from i on, or the end of the input. */
  function LineEnd(s: seq<char>, i: nat): (k: nat)
    requires i <= |s|
    ensures i <= k <= |s| && (k < |s| ==> s[k] == '\n')
    decreases |s| - i
  {
    if i < |s| && s[i] != '\n' then LineEnd(s, i + 1) else i
  }

  /** s[p..q] is a sequence of whole comment lines, each a 'c' followed by
      its text and a newline. */
  predicate CommentLines(s: seq<char>, p: nat, q: nat)
    decreases q - p
  {
    p <= q <= |s|
    && (p == q
        || (&& s[p] == 'c'
            && var k := LineEnd(s, p + 1);
            && k < q && CommentLine(s, p + 1, k) && CommentLines(s, k + 1, q)))
  }

  /** The first of a nonempty run of comment lines ends at the newline k. */
  lemma FirstCommentLine(s: seq<char>, p: nat, q: nat) returns (k: nat)
    requires CommentLines(s, p, q) && p < q
    ensures p < |s| && s[p] == 'c' && k < q && CommentLine(s, p + 1, k) && CommentLines(s, k + 1, q)
  {
    k := LineEnd(s, p + 1);
  }

  /** A comment's text and its newline are consumed: the parser resumes
      right after the newline, on the next line. */
  lemma {:induction false} SkipCommentOk(s: seq<char>, p: nat, k: nat, eof: ErrorKind)
    requires CommentLine(s, p, k)
    ensures SkipComment(s, At(s, p), eof) == Ok(At(s, k + 1))
    decreases k - p
  {
    if s[p] == '\r' {
      assert Next(s, At(s, p)) == Ok(Step(Char('\n'), At(s, k + 1)));
    } else if p < k {
      assert Next(s, At(s, p)) == Ok(Step(Char(s[p]), At(s, p + 1)));
      SkipCommentOk(s, p + 1, k, eof);
    }
  }

  /** A comment line, its 'c' at p and its newline at k. */
  predicate CommentAt(s: seq<char>, p: nat, k: nat) {
    p < |s| && s[p] == 'c' && CommentLine(s, p + 1, k)
  }

  /** Whatever is unchanged across each comment line is unchanged across
      a whole run of them. */
  lemma {:induction false} AcrossComments<T>(s: seq<char>, f: nat -> T, p: nat, q: nat)
    requires CommentLines(s, p, q)
    requires forall i: nat, k: nat :: CommentAt(s, i, k) ==> f(i) == f(k + 1)
    ensures f(p) == f(q)
    decreases q - p
  {
    if p < q {
      var k := FirstCommentLine(s, p, q);
      assert CommentAt(s, p, k);
      AcrossComments(s, f, k + 1, q);
    }
  }

  /** One comment line before the header is skipped. */
  lemma LeadingCommentLine(s: seq<char>, p: nat, k: nat)
    requires CommentAt(s, p, k)
    ensures LeadingComments(s, At(s, p)) == LeadingComments(s, At(s, k + 1))
  {
    assert Next(s, At(s, p)) == Ok(Step(Char('c'), At(s, p + 1)));
    SkipCommentOk(s, p + 1, k, EofInHeaderComment);
  }

  lemma LeadingCommentLines(s: seq<char>)
    ensures forall i: nat, k: nat :: CommentAt(s, i, k) ==>
              LeadingComments(s, At(s, i)) == LeadingComments(s, At(s, k + 1))
  {
    forall i: nat, k: nat | CommentAt(s, i, k)
      ensures LeadingComments(s, At(s, i)) == LeadingComments(s, At(s, k + 1))
    {
      LeadingCommentLine(s, i, k);
    }
  }

  /** The comment-skipping loop before the header, started at each position. */
  function LeadingFrom(s: seq<char>): nat -> Outcome<Step> {
    (i: nat) => if i <= |s| then LeadingComments(s, At(s, i)) else Ok(Step(Eof, At(s, |s|)))
  }

  /** Comment lines before the header are all skipped: the first step
      returned is the one that read the character after them. */
  lemma LeadingCommentsOk(s: seq<char>, p: nat, q: nat)
    requires CommentLines(s, p, q) && q < |s| && s[q] != 'c' && s[q] != '\r'
    ensures LeadingComments(s, At(s, p)) == Ok(Step(Char(s[q]), At(s, q + 1)))
  {
    LeadingCommentLines(s);
    AcrossComments(s, LeadingFrom(s), p, q);
    assert Next(s, At(s, q)) == Ok(Step(Char(s[q]), At(s, q + 1)));
  }

  /** The keyword's " cnf " after its 'p', read one character at a time. */
  lemma KeywordRestOk(s: seq<char>, q: nat)
    requires Occurs(s, q, "p cnf ")
    ensures q + 6 <= |s| && s[q] == 'p'
    ensures KeywordRest(s, At(s, q + 1)) == Ok(At(s, q + 6))
  {
    KeywordChars(s, q);
    assert Expect(s, At(s, q + 1), ' ', ExpectedSpaceAfterP) == Ok(At(s, q + 2));
    assert Expect(s, At(s, q + 2), 'c', ExpectedCAfterP) == Ok(At(s, q + 3));
    assert Expect(s, At(s, q + 3), 'n', ExpectedNAfterPC) == Ok(At(s, q + 4));
    assert Expect(s, At(s, q + 4), 'f', ExpectedFAfterPCn) == Ok(At(s, q + 5));
  }

  lemma KeywordChars(s: seq<char>, q: nat)
    requires Occurs(s, q, "p cnf ")
    ensures q + 6 <= |s|
    ensures s[q] == 'p' && s[q + 1] == ' ' && s[q + 2] == 'c' && s[q + 3] == 'n' && s[q + 4] == 'f' && s[q + 5] == ' '
  {
    var k := "p cnf ";
    OccursAt(s, q, k, 0);
    OccursAt(s, q, k, 1);
    OccursAt(s, q, k, 2);
    OccursAt(s, q, k, 3);
    OccursAt(s, q, k, 4);
    OccursAt(s, q, k, 5);
  }

  /** The keyword "p cnf " after any number of comment lines is accepted,
      and the header goes on right after its space. */
  lemma KeywordAfterComments(s: seq<char>, q: nat)
    requires CommentLines(s, 0, q) && Occurs(s, q, "p cnf ")
    ensures q + 6 <= |s| && HeaderKeyword(s) == Ok(At(s, q + 6))
  {
    KeywordRestOk(s, q);
    LeadingCommentsOk(s, 0, q);
    KeywordOfParts(s, q);
  }

  /** The error for the i-th character of " cnf " after the 'p', in the
      order the keyword is spelled. */
  function KeywordError(i: nat): ErrorKind
    requires i < 5
  {
    [ExpectedSpaceAfterP, ExpectedCAfterP, ExpectedNAfterPC, ExpectedFAfterPCn, ExpectedSpaceAfterPCnf][i]
  }

  /** A required character that is not there, or end-of-file in its
      place, is the given error once read. */
  lemma ExpectMiss(s: seq<char>, p: nat, want: char, kind: ErrorKind)
    requires p <= |s| && (p == |s| || (s[p] != want && s[p] != '\r'))
    ensures Expect(s, At(s, p), want, kind) == Err(ParseError(LineAfter(s, p), kind))
  {
    var next := ReadAt(s, p);
  }

  /** After the 'p', the first i characters of " cnf " are there and the
      next one is not: the error names the character missing. */
  lemma KeywordRestMiss(s: seq<char>, p: nat, i: nat)
    requires i < 5 && p + i <= |s|
    requires (0 < i ==> s[p] == ' ') && (1 < i ==> s[p + 1] == 'c') && (2 < i ==> s[p + 2] == 'n') && (3 < i ==> s[p + 3] == 'f')
    requires p + i == |s| || (s[p + i] != " cnf "[i] && s[p + i] != '\r')
    ensures KeywordRest(s, At(s, p)) == Err(ParseError(LineAfter(s, p + i), KeywordError(i)))
  {
    match i
    case 0 => ExpectMiss(s, p, ' ', ExpectedSpaceAfterP);
    case 1 => KeywordMissC(s, p);
    case 2 => KeywordMissN(s, p);
    case 3 => KeywordMissF(s, p);
    case 4 => KeywordMissSpace(s, p);
  }

  /** " " read, then no 'c'. */
  lemma KeywordMissC(s: seq<char>, p: nat)
    requires p + 1 <= |s| && s[p] == ' '
    requires p + 1 == |s| || (s[p + 1] != 'c' && s[p + 1] != '\r')
    ensures KeywordRest(s, At(s, p)) == Err(ParseError(LineAfter(s, p + 1), ExpectedCAfterP))
  {
    assert Expect(s, At(s, p), ' ', ExpectedSpaceAfterP) == Ok(At(s, p + 1));
    ExpectMiss(s, p + 1, 'c', ExpectedCAfterP);
  }

  /** " c" read, then no 'n'. */
  lemma KeywordMissN(s: seq<char>, p: nat)
    requires p + 2 <= |s| && s[p] == ' ' && s[p + 1] == 'c'
    requires p + 2 == |s| || (s[p + 2] != 'n' && s[p + 2] != '\r')
    ensures KeywordRest(s, At(s, p)) == Err(ParseError(LineAfter(s, p + 2), ExpectedNAfterPC))
  {
    assert Expect(s, At(s, p), ' ', ExpectedSpaceAfterP) == Ok(At(s, p + 1));
    assert Expect(s, At(s, p + 1), 'c', ExpectedCAfterP) == Ok(At(s, p + 2));
    ExpectMiss(s, p + 2, 'n', ExpectedNAfterPC);
  }

  /** " cn" read, then no 'f'. */
  lemma KeywordMissF(s: seq<char>, p: nat)
    requires p + 3 <= |s| && s[p] == ' ' && s[p + 1] == 'c' && s[p + 2] == 'n'
    requires p + 3 == |s| || (s[p + 3] != 'f' && s[p + 3] != '\r')
    ensures KeywordRest(s, At(s, p)) == Err(ParseError(LineAfter(s, p + 3), ExpectedFAfterPCn))
  {
    assert Expect(s, At(s, p), ' ', ExpectedSpaceAfterP) == Ok(At(s, p + 1));
    assert Expect(s, At(s, p + 1), 'c', ExpectedCAfterP) == Ok(At(s, p + 2));
    assert Expect(s, At(s, p + 2), 'n', ExpectedNAfterPC) == Ok(At(s, p + 3));
    ExpectMiss(s, p + 3, 'f', ExpectedFAfterPCn);
  }

  /** " cnf" read, then no space. */
  lemma KeywordMissSpace(s: seq<char>, p: nat)
    requires p + 4 <= |s| && s[p] == ' ' && s[p + 1] == 'c' && s[p + 2] == 'n' && s[p + 3] == 'f'
    requires p + 4 == |s| || (s[p + 4] != ' ' && s[p + 4] != '\r')
    ensures KeywordRest(s, At(s, p)) == Err(ParseError(LineAfter(s, p + 4), ExpectedSpaceAfterPCnf))
  {
    assert Expect(s, At(s, p), ' ', ExpectedSpaceAfterP) == Ok(At(s, p + 1));
    assert Expect(s, At(s, p + 1), 'c', ExpectedCAfterP) == Ok(At(s, p + 2));
    assert Expect(s, At(s, p + 2), 'n', ExpectedNAfterPC) == Ok(At(s, p + 3));
    assert Expect(s, At(s, p + 3), 'f', ExpectedFAfterPCn) == Ok(At(s, p + 4));
    ExpectMiss(s, p + 4, ' ', ExpectedSpaceAfterPCnf);
  }

  /** The characters of a matched prefix of " cnf ", one by one. */
  lemma KeywordPrefix(s: seq<char>, p: nat, i: nat)
    requires i < 5 && p + i <= |s| && forall j :: 0 <= j < i ==> s[p + j] == " cnf "[j]
    ensures 0 < i ==> s[p] == ' '
    ensures 1 < i ==> s[p + 1] == 'c'
    ensures 2 < i ==> s[p + 2] == 'n'
    ensures 3 < i ==> s[p + 3] == 'f'
  {
    if 0 < i { assert s[p + 0] == " cnf "[0]; }
    if 1 < i { assert s[p + 1] == " cnf "[1]; }
    if 2 < i { assert s[p + 2] == " cnf "[2]; }
    if 3 < i { assert s[p + 3] == " cnf "[3]; }
  }

  /** After the comment lines the header must start with 'p': end-of-file
      or any other character that is no 'c' and no carriage return is
      rejected once read. */
  lemma NeitherPNorC(s: seq<char>, q: nat)
    requires CommentLines(s, 0, q)
    requires q == |s| || (s[q] != 'p' && s[q] != 'c' && s[q] != '\r')
    ensures ParseHeader(s) == Err(ParseError(LineAfter(s, q), ExpectedPOrC))
  {
    LeadingCommentLines(s);
    AcrossComments(s, LeadingFrom(s), 0, q);
    var first := ReadAt(s, q);
    assert LeadingComments(s, At(s, q)) == Ok(first);
    assert HeaderKeyword(s) == Fail(s, first.cur, ExpectedPOrC);
    KeywordFails(s);
  }

  /** After the comment lines and a 'p', the keyword breaks off after the
      first i characters of " cnf ": the header is rejected with the
      error for the character missing, once the offending one is read. */
  lemma KeywordMismatch(s: seq<char>, q: nat, i: nat)
    requires CommentLines(s, 0, q) && q < |s| && s[q] == 'p'
    requires i < 5 && q + 1 + i <= |s| && forall j :: 0 <= j < i ==> s[q + 1 + j] == " cnf "[j]
    requires q + 1 + i == |s| || (s[q + 1 + i] != " cnf "[i] && s[q + 1 + i] != '\r')
    ensures ParseHeader(s) == Err(ParseError(LineAfter(s, q + 1 + i), KeywordError(i)))
  {
    KeywordPrefix(s, q + 1, i);
    KeywordRestMiss(s, q + 1, i);
    KeywordAfterP(s, q, ParseError(LineAfter(s, q + 1 + i), KeywordError(i)));
  }

  /** With a 'p' after the comment lines, the header fails as the rest of
      the keyword does. */
  lemma KeywordAfterP(s: seq<char>, q: nat, e: ParseError)
    requires CommentLines(s, 0, q) && q < |s| && s[q] == 'p'
    requires KeywordRest(s, At(s, q + 1)) == Err(e)
    ensures ParseHeader(s) == Err(e)
  {
    LeadingCommentsOk(s, 0, q);
    KeywordRestFails(s, q);
    KeywordFails(s);
  }

  /** With a 'p' read after the comment lines, the keyword fails as its
      rest does. */
  lemma KeywordRestFails(s: seq<char>, q: nat)
    requires q < |s| && LeadingComments(s, At(s, 0)) == Ok(Step(Char('p'), At(s, q + 1)))
    requires KeywordRest(s, At(s, q + 1)).Err?
    ensures HeaderKeyword(s) == KeywordRest(s, At(s, q + 1))
  {
  }

  /** A header whose keyword is rejected is rejected with that error. */
  lemma KeywordFails(s: seq<char>)
    requires HeaderKeyword(s).Err?
    ensures ParseHeader(s) == Err(HeaderKeyword(s).error)
  {
  }

  lemma KeywordOfParts(s: seq<char>, q: nat)
    requires q + 6 <= |s|
    requires LeadingComments(s, At(s, 0)) == Ok(Step(Char('p'), At(s, q + 1)))
    requires KeywordRest(s, At(s, q + 1)) == Ok(At(s, q + 6))
    ensures HeaderKeyword(s) == Ok(At(s, q + 6))
  {
  }

  /** Skipping blanks: a run of spaces and tabs makes no difference. */
  lemma {:induction false} SkipBlanksRun(s: seq<char>, p: nat, k: nat)
    requires Blanks(s, p, k)
    ensures SkipBlanks(s, At(s, p)) == SkipBlanks(s, At(s, k))
    decreases k - p
  {
    if p < k {
      assert Next(s, At(s, p)) == Ok(Step(Char(s[p]), At(s, p + 1)));
      SkipBlanksRun(s, p + 1, k);
    }
  }

  /** What skipping blanks computes: the next token after the longest run
      of spaces and tabs, so every character it skips is a blank and the
      token it returns is not. */
  lemma SkipBlanksIs(s: seq<char>, c: Cursor)
    requires Valid(s, c)
    ensures SkipBlanks(s, c) == Next(s, At(s, BlankEnd(s, c.pos)))
  {
    var k := BlankEnd(s, c.pos);
    assert c == At(s, c.pos);
    SkipBlanksRun(s, c.pos, k);
    var n := Next(s, At(s, k));
    assert n.Ok? && n.value.token.Char? ==> !IsBlank(n.value.token.c);
  }

  /** Blanks between "p cnf " and the maximum variable are skipped. */
  lemma VariablesAfterBlanks(s: seq<char>, p: nat, k: nat)
    requires Blanks(s, p, k)
    ensures HeaderVariables(s, At(s, p)) == HeaderVariables(s, At(s, k))
  {
    SkipBlanksRun(s, p, k);
  }

  /** Blanks between the maximum variable's space and the clause count
      are skipped. */
  lemma ClausesAfterBlanks(s: seq<char>, p: nat, k: nat, variables: nat)
    requires Blanks(s, p, k)
    ensures HeaderClauses(s, At(s, p), variables) == HeaderClauses(s, At(s, k), variables)
  {
    SkipBlanksRun(s, p, k);
  }

  /** A rendered clause count, then blanks, then the header's newline. */
  lemma ClausesBeforeNewline(s: seq<char>, p: nat, m: nat, v: nat, e: nat, d: nat)
    requires e == p + DigitCount(m) && NumeralBefore(s, e, m) && Blanks(s, e, d)
    requires d < |s| && s[d] == '\n' && m <= SIZE_MAX
    ensures HeaderClauses(s, At(s, p), v) == Ok(Number(m, Step(Char('\n'), At(s, d + 1))))
  {
    if e == d {
      ClausesOfDecimal(s, p, m, v, e, d + 1);
    } else {
      var first := CountRead(s, p, m, e);
      TrailingBlanks(s, e, d);
      ClausesThenBlank(s, p, m, v, first, Step(Char(s[e]), At(s, e + 1)), d);
    }
  }

  /** The clause count's digits, up to the blank at e after them. */
  lemma CountRead(s: seq<char>, p: nat, m: nat, e: nat) returns (first: Step)
    requires e == p + DigitCount(m) && NumeralBefore(s, e, m) && e < |s| && IsBlank(s[e]) && m <= SIZE_MAX
    ensures Valid(s, first.cur) && IsDigitToken(first.token) && SkipBlanks(s, At(s, p)) == Ok(first)
    ensures ScanDigits(s, first.cur, DigitValue(first.token.c), SIZE_MAX, ClauseCount)
            == Ok(Number(m, Step(Char(s[e]), At(s, e + 1))))
  {
    TextOfNumeral(s, p, m);
    DecimalDigits(m);
    OccursAt(s, p, Decimal(m), 0);
    first := Step(Char(DigitChar(Leading(m))), At(s, p + 1));
    assert SkipBlanks(s, At(s, p)) == Ok(first);
    ScanOfDecimal(s, p, m, SIZE_MAX, ClauseCount, e, s[e]);
  }

  /** The blanks after the clause count, up to the newline at d. */
  lemma TrailingBlanks(s: seq<char>, e: nat, d: nat)
    requires e < d < |s| && Blanks(s, e, d) && s[d] == '\n'
    ensures SkipBlanks(s, At(s, e + 1)) == Ok(Step(Char('\n'), At(s, d + 1)))
  {
    SkipBlanksRun(s, e + 1, d);
    assert Next(s, At(s, d)) == Ok(Step(Char('\n'), At(s, d + 1)));
  }

  /** The clause count's digit loop stopped at a blank, and the blanks
      after it end with the newline. */
  lemma ClausesThenBlank(s: seq<char>, p: nat, m: nat, v: nat, first: Step, next: Step, d: nat)
    requires p <= |s| && d < |s| && Valid(s, first.cur) && IsDigitToken(first.token)
    requires Valid(s, next.cur) && next.token.Char? && IsBlank(next.token.c)
    requires SkipBlanks(s, At(s, p)) == Ok(first)
    requires ScanDigits(s, first.cur, DigitValue(first.token.c), SIZE_MAX, ClauseCount) == Ok(Number(m, next))
    requires SkipBlanks(s, next.cur) == Ok(Step(Char('\n'), At(s, d + 1)))
    ensures HeaderClauses(s, At(s, p), v) == Ok(Number(m, Step(Char('\n'), At(s, d + 1))))
  {
  }

  /** A header read up to the clause count: comments, "p cnf ", blanks,
      V, ' ' and blanks up to b. */
  predicate VariablesUpTo(s: seq<char>, q: nat, a: nat, v: nat, b: nat) {
    && CommentLines(s, 0, q) && Occurs(s, q, "p cnf ")
    && Blanks(s, q + 6, a)
    && NumeralBefore(s, a + DigitCount(v), v) && a + DigitCount(v) < |s| && s[a + DigitCount(v)] == ' '
    && Blanks(s, a + DigitCount(v) + 1, b)
  }

  /** The header line up to the position d where its newline belongs,
      with leading comment lines before it and runs of blanks where the
      parser skips them: comments, "p cnf ", blanks, V, ' ', blanks, M,
      blanks. */
  predicate HeaderUpTo(s: seq<char>, q: nat, a: nat, v: nat, b: nat, m: nat, d: nat) {
    && CommentLines(s, 0, q) && Occurs(s, q, "p cnf ")
    && Blanks(s, q + 6, a)
    && NumeralBefore(s, a + DigitCount(v), v) && a + DigitCount(v) < |s| && s[a + DigitCount(v)] == ' '
    && Blanks(s, a + DigitCount(v) + 1, b)
    && NumeralBefore(s, b + DigitCount(m), m) && Blanks(s, b + DigitCount(m), d)
  }

  /** A whole header line, its newline at d. */
  predicate HeaderLine(s: seq<char>, q: nat, a: nat, v: nat, b: nat, m: nat, d: nat) {
    HeaderUpTo(s, q, a, v, b, m, d) && d < |s| && s[d] == '\n'
  }

  /** Such a header is accepted with its two numbers when they fit, and
      the body starts right after its newline. */
  lemma HeaderLineParses(s: seq<char>, q: nat, a: nat, v: nat, b: nat, m: nat, d: nat)
    requires HeaderLine(s, q, a, v, b, m, d) && v <= INT_MAX && m <= SIZE_MAX
    ensures ParseHeader(s) == Ok((Header(v, m), At(s, d + 1)))
  {
    var e := a + DigitCount(v) + 1;
    VariablesLine(s, q + 6, a, v, e);
    ClausesLine(s, e, b, m, v, d);
    KeywordAfterComments(s, q);
    assert q + 6 <= |s| && e <= |s| && d + 1 <= |s|;
    assert HeaderKeyword(s) == Ok(At(s, q + 6));
    assert HeaderVariables(s, At(s, q + 6)) == Ok(Number(v, Step(Char(' '), At(s, e))));
    assert HeaderClauses(s, At(s, e), v) == Ok(Number(m, Step(Char('\n'), At(s, d + 1))));
  }

  /** The maximum variable must be followed by a space: a tab, any other
      character that is no digit and no carriage return, or end-of-file
      right after its digits is rejected once read. */
  lemma VariablesNeedSpace(s: seq<char>, q: nat, a: nat, v: nat, e: nat)
    requires CommentLines(s, 0, q) && Occurs(s, q, "p cnf ") && Blanks(s, q + 6, a)
    requires e == a + DigitCount(v) && NumeralBefore(s, e, v) && v <= INT_MAX
    requires e == |s| || (s[e] != ' ' && !IsDigit(s[e]) && s[e] != '\r')
    ensures ParseHeader(s) == Err(ParseError(LineAfter(s, e), ExpectedSpaceAfterVariables(v)))
  {
    KeywordAfterComments(s, q);
    VariablesAfterBlanks(s, q + 6, a);
    VariablesThenOther(s, a, v, e);
    assert HeaderKeyword(s) == Ok(At(s, q + 6));
    assert HeaderVariables(s, At(s, q + 6)) == Err(ParseError(LineAfter(s, e), ExpectedSpaceAfterVariables(v)));
  }

  /** A rendered maximum variable at a, followed at e by anything but a
      space. */
  lemma VariablesThenOther(s: seq<char>, a: nat, v: nat, e: nat)
    requires e == a + DigitCount(v) && NumeralBefore(s, e, v) && v <= INT_MAX
    requires e == |s| || (s[e] != ' ' && !IsDigit(s[e]) && s[e] != '\r')
    ensures a <= |s| && HeaderVariables(s, At(s, a)) == Err(ParseError(LineAfter(s, e), ExpectedSpaceAfterVariables(v)))
  {
    var first := NumberAt(s, a, v, INT_MAX, MaxVariable);
    var next := ReadAt(s, e);
    assert next.token != Char(' ');
    assert ScanDigits(s, first.cur, DigitValue(first.token.c), INT_MAX, MaxVariable) == Ok(Number(v, next));
    assert HeaderVariables(s, At(s, a)) == Fail(s, next.cur, ExpectedSpaceAfterVariables(v));
  }

  /** The maximum variable must start right after the blanks that
      follow "p cnf ": end-of-file or any character there that is no
      digit (a carriage return aside) is rejected once read. */
  lemma VariablesNeedDigit(s: seq<char>, q: nat, a: nat)
    requires CommentLines(s, 0, q) && Occurs(s, q, "p cnf ") && Blanks(s, q + 6, a)
    requires a == |s| || (!IsDigit(s[a]) && !IsBlank(s[a]) && s[a] != '\r')
    ensures ParseHeader(s) == Err(ParseError(LineAfter(s, a), ExpectedDigitAfterPCnf))
  {
    KeywordAfterComments(s, q);
    var last := BlanksThen(s, q + 6, a);
    assert !IsDigitToken(last.token);
    assert HeaderVariables(s, At(s, q + 6)) == Fail(s, last.cur, ExpectedDigitAfterPCnf);
  }

  /** The clause count must start right after the blanks that follow the
      maximum variable's space: end-of-file or any character there that
      is no digit (a carriage return aside), a newline included, is
      rejected once read. */
  lemma ClausesNeedDigit(s: seq<char>, q: nat, a: nat, v: nat, b: nat)
    requires VariablesUpTo(s, q, a, v, b) && v <= INT_MAX
    requires b == |s| || (!IsDigit(s[b]) && !IsBlank(s[b]) && s[b] != '\r')
    ensures ParseHeader(s) == Err(ParseError(LineAfter(s, b), ExpectedDigitAfterVariables(v)))
  {
    var e := a + DigitCount(v) + 1;
    assert Blanks(s, e, b) && Blanks(s, q + 6, a) && NumeralBefore(s, e - 1, v);
    VariablesLine(s, q + 6, a, v, e);
    ClausesMissing(s, e, b, v);
    KeywordAfterComments(s, q);
    assert q + 6 <= |s| && e <= |s|;
    assert HeaderKeyword(s) == Ok(At(s, q + 6));
    assert HeaderVariables(s, At(s, q + 6)) == Ok(Number(v, Step(Char(' '), At(s, e))));
    assert HeaderClauses(s, At(s, e), v) == Err(ParseError(LineAfter(s, b), ExpectedDigitAfterVariables(v)));
  }

  /** Blanks from e up to b, where no digit follows. */
  lemma ClausesMissing(s: seq<char>, e: nat, b: nat, v: nat)
    requires Blanks(s, e, b)
    requires b == |s| || (!IsDigit(s[b]) && !IsBlank(s[b]) && s[b] != '\r')
    ensures e <= |s| && HeaderClauses(s, At(s, e), v) == Err(ParseError(LineAfter(s, b), ExpectedDigitAfterVariables(v)))
  {
    var last := BlanksThen(s, e, b);
    assert !IsDigitToken(last.token);
    assert HeaderClauses(s, At(s, e), v) == Fail(s, last.cur, ExpectedDigitAfterVariables(v));
  }

  /** A rendered number at a, a header number being read: its first digit
      is what skipping blanks stops at, and the digit loop returns the
      number with the reading of whatever follows its digits. */
  lemma NumberAt(s: seq<char>, a: nat, n: nat, max: nat, what: Quantity) returns (first: Step)
    requires NumeralBefore(s, a + DigitCount(n), n) && 9 <= max && n <= max
    requires a + DigitCount(n) == |s| || !IsDigit(s[a + DigitCount(n)])
    ensures Valid(s, first.cur) && IsDigitToken(first.token) && SkipBlanks(s, At(s, a)) == Ok(first)
    ensures ScanDigits(s, first.cur, DigitValue(first.token.c), max, what)
            == AfterDigits(Next(s, At(s, a + DigitCount(n))), n)
  {
    TextOfNumeral(s, a, n);
    NumberOfText(s, a, n, max, what, a + DigitCount(n));
    first := ReadAt(s, a);
    assert first == Step(Char(s[a]), At(s, a + 1)) && DigitValue(s[a]) == Leading(n);
  }

  /** After the clause count and any blanks the header line must end: any
      other character that is no digit and no carriage return, or
      end-of-file, is rejected once read. */
  lemma HeaderNeedsNewline(s: seq<char>, q: nat, a: nat, v: nat, b: nat, m: nat, d: nat)
    requires HeaderUpTo(s, q, a, v, b, m, d) && v <= INT_MAX && m <= SIZE_MAX
    requires d == |s| || (s[d] != '\n' && !IsBlank(s[d]) && s[d] != '\r' && (IsDigit(s[d]) ==> b + DigitCount(m) < d))
    ensures ParseHeader(s) == Err(ParseError(LineAfter(s, d), ExpectedNewlineAfterHeader(v, m)))
  {
    var e := a + DigitCount(v) + 1;
    assert NumeralBefore(s, b + DigitCount(m), m) && Blanks(s, b + DigitCount(m), d);
    assert Blanks(s, e, b) && Blanks(s, q + 6, a) && NumeralBefore(s, e - 1, v);
    VariablesLine(s, q + 6, a, v, e);
    ClausesAfterBlanks(s, e, b, v);
    ClausesThenOther(s, b, m, v, d);
    KeywordAfterComments(s, q);
    assert q + 6 <= |s| && e <= |s| && b <= |s|;
    assert HeaderKeyword(s) == Ok(At(s, q + 6));
    assert HeaderVariables(s, At(s, q + 6)) == Ok(Number(v, Step(Char(' '), At(s, e))));
    assert HeaderClauses(s, At(s, e), v) == Err(ParseError(LineAfter(s, d), ExpectedNewlineAfterHeader(v, m)));
  }

  /** A rendered clause count at b and blanks up to d, where something
      other than the newline follows. */
  lemma ClausesThenOther(s: seq<char>, b: nat, m: nat, v: nat, d: nat)
    requires NumeralBefore(s, b + DigitCount(m), m) && Blanks(s, b + DigitCount(m), d) && m <= SIZE_MAX
    requires d == |s| || (s[d] != '\n' && !IsBlank(s[d]) && s[d] != '\r' && (IsDigit(s[d]) ==> b + DigitCount(m) < d))
    ensures b <= |s| && HeaderClauses(s, At(s, b), v) == Err(ParseError(LineAfter(s, d), ExpectedNewlineAfterHeader(v, m)))
  {
    if b + DigitCount(m) == d {
      ClausesThenOtherAtOnce(s, b, m, v, d);
    } else {
      ClausesThenOtherAfterBlanks(s, b, m, v, d);
    }
  }

  /** The clause count directly followed by the offending character. */
  lemma ClausesThenOtherAtOnce(s: seq<char>, b: nat, m: nat, v: nat, d: nat)
    requires NumeralBefore(s, d, m) && d == b + DigitCount(m) && m <= SIZE_MAX
    requires d == |s| || (s[d] != '\n' && !IsBlank(s[d]) && !IsDigit(s[d]) && s[d] != '\r')
    ensures b <= |s| && HeaderClauses(s, At(s, b), v) == Err(ParseError(LineAfter(s, d), ExpectedNewlineAfterHeader(v, m)))
  {
    var last := ReadAt(s, d);
    var first := NumberAt(s, b, m, SIZE_MAX, ClauseCount);
    assert ScanDigits(s, first.cur, DigitValue(first.token.c), SIZE_MAX, ClauseCount) == Ok(Number(m, last));
  }

  /** The clause count, then blanks, then the offending character at d. */
  lemma ClausesThenOtherAfterBlanks(s: seq<char>, b: nat, m: nat, v: nat, d: nat)
    requires NumeralBefore(s, b + DigitCount(m), m) && Blanks(s, b + DigitCount(m), d) && m <= SIZE_MAX
    requires b + DigitCount(m) < d
    requires d == |s| || (s[d] != '\n' && !IsBlank(s[d]) && s[d] != '\r')
    ensures b <= |s| && HeaderClauses(s, At(s, b), v) == Err(ParseError(LineAfter(s, d), ExpectedNewlineAfterHeader(v, m)))
  {
    var e := b + DigitCount(m);
    assert e < |s| && IsBlank(s[e]) && Blanks(s, e + 1, d);
    var first := CountRead(s, b, m, e);
    var last := BlanksThen(s, e + 1, d);
    var count := Number(m, Step(Char(s[e]), At(s, e + 1)));
    ClausesThenBlanks(s, b, v, first, count, last);
    assert Fail<Number>(s, last.cur, ExpectedNewlineAfterHeader(v, m))
        == Err(ParseError(LineAfter(s, d), ExpectedNewlineAfterHeader(v, m)));
  }

  /** Blanks from p up to d, where something other than a blank or a
      carriage return follows: skipping stops at d. */
  lemma BlanksThen(s: seq<char>, p: nat, d: nat) returns (last: Step)
    requires Blanks(s, p, d)
    requires d == |s| || (!IsBlank(s[d]) && s[d] != '\r')
    ensures Valid(s, last.cur) && last.cur.line == LineAfter(s, d)
    ensures last == if d < |s| then Step(Char(s[d]), At(s, d + 1)) else Step(Eof, At(s, d))
    ensures SkipBlanks(s, At(s, p)) == Ok(last)
  {
    last := ReadAt(s, d);
    assert SkipBlanks(s, At(s, d)) == Ok(last);
    SkipBlanksRun(s, p, d);
  }

  /** How the clause count fails when blanks follow it and the token after
      them is no newline. */
  lemma ClausesThenBlanks(s: seq<char>, b: nat, v: nat, first: Step, count: Number, last: Step)
    requires b <= |s| && Valid(s, first.cur) && IsDigitToken(first.token) && SkipBlanks(s, At(s, b)) == Ok(first)
    requires ScanDigits(s, first.cur, DigitValue(first.token.c), SIZE_MAX, ClauseCount) == Ok(count)
    requires count.next.token.Char? && IsBlank(count.next.token.c) && Valid(s, count.next.cur)
    requires SkipBlanks(s, count.next.cur) == Ok(last) && last.token != Char('\n') && Valid(s, last.cur)
    ensures HeaderClauses(s, At(s, b), v) == Fail(s, last.cur, ExpectedNewlineAfterHeader(v, count.value))
  {
  }

  /** Blanks, then a rendered maximum variable and its space; e is just
      after the space. */
  lemma VariablesLine(s: seq<char>, k: nat, a: nat, v: nat, e: nat)
    requires Blanks(s, k, a) && e == a + DigitCount(v) + 1 && NumeralBefore(s, e - 1, v)
    requires e - 1 < |s| && s[e - 1] == ' ' && v <= INT_MAX
    ensures e <= |s| && HeaderVariables(s, At(s, k)) == Ok(Number(v, Step(Char(' '), At(s, e))))
  {
    VariablesAfterBlanks(s, k, a);
    VariablesOfDecimal(s, a, v, e - 1, e);
  }

  /** Blanks, then a rendered clause count, blanks and the newline at d. */
  lemma ClausesLine(s: seq<char>, k: nat, b: nat, m: nat, v: nat, d: nat)
    requires Blanks(s, k, b) && NumeralBefore(s, b + DigitCount(m), m) && Blanks(s, b + DigitCount(m), d)
    requires d < |s| && s[d] == '\n' && m <= SIZE_MAX
    ensures HeaderClauses(s, At(s, k), v) == Ok(Number(m, Step(Char('\n'), At(s, d + 1))))
  {
    ClausesAfterBlanks(s, k, b, v);
    ClausesBeforeNewline(s, b, m, v, b + DigitCount(m), d);
  }

  /** Whatever is unchanged across each space, tab or newline is
      unchanged across a run of them. */
  lemma {:induction false} AcrossSpacing<T>(s: seq<char>, f: nat -> T, p: nat, k: nat)
    requires Spacing(s, p, k)
    requires forall i: nat :: i < |s| && (s[i] == ' ' || s[i] == '\t' || s[i] == '\n') ==> f(i) == f(i + 1)
    ensures f(p) == f(k)
    decreases k - p
  {
    if p < k {
      AcrossSpacing(s, f, p + 1, k);
    }
  }

  /** The body loop started at each position. */
  function BodyFrom(s: seq<char>, h: Header, b: Body): nat -> Outcome<Cnf>
    requires BodyInv(h, b)
  {
    (i: nat) => if i <= |s| then ParseBody(s, At(s, i), h, b) else Ok(Cnf(0, 0, [], 0))
  }

  /** Spaces, tabs and newlines between literals are skipped. */
  lemma SpacingInBody(s: seq<char>, p: nat, k: nat, h: Header, b: Body)
    requires BodyInv(h, b) && Spacing(s, p, k)
    ensures ParseBody(s, At(s, p), h, b) == ParseBody(s, At(s, k), h, b)
  {
    forall i: nat | i < |s| && (s[i] == ' ' || s[i] == '\t' || s[i] == '\n')
      ensures BodyFrom(s, h, b)(i) == BodyFrom(s, h, b)(i + 1)
    {
      SpaceInBody(s, i, h, b);
    }
    AcrossSpacing(s, BodyFrom(s, h, b), p, k);
  }

  /** One space, tab or newline in the body. */
  lemma SpaceInBody(s: seq<char>, p: nat, h: Header, b: Body)
    requires BodyInv(h, b) && p < |s| && (s[p] == ' ' || s[p] == '\t' || s[p] == '\n')
    ensures ParseBody(s, At(s, p), h, b) == ParseBody(s, At(s, p + 1), h, b)
  {
    assert Next(s, At(s, p)) == Ok(Step(Char(s[p]), At(s, p + 1)));
  }

  /** A comment line between literals is skipped: parsing goes on after
      its newline with nothing added. */
  lemma CommentInBody(s: seq<char>, p: nat, k: nat, h: Header, b: Body)
    requires BodyInv(h, b) && p < |s| && s[p] == 'c' && CommentLine(s, p + 1, k)
    ensures ParseBody(s, At(s, p), h, b) == ParseBody(s, At(s, k + 1), h, b)
  {
    assert Next(s, At(s, p)) == Ok(Step(Char('c'), At(s, p + 1)));
    SkipCommentOk(s, p + 1, k, EofInComment);
  }

  /** A literal directly followed by a comment, as in "1c comment": the
      literal is added, and parsing goes on after the comment's newline. */
  lemma CommentAfterLiteral(s: seq<char>, p: nat, h: Header, b: Body, x: int, e: nat, k: nat)
    requires BodyInv(h, b) && h.variables <= INT_MAX
    requires LiteralAt(s, p, x, 'c') && Abs(x) <= h.variables && b.parsed < h.clauses
    requires e == p + Span(x) + 1 && CommentLine(s, e, k)
    ensures BodyInv(h, Add(b, x))
    ensures ParseBody(s, At(s, p), h, b) == ParseBody(s, At(s, k + 1), h, Add(b, x))
  {
    ItemStep(s, p, h, b, x, 'c', e);
    SkipCommentOk(s, e, k, EofInComment);
  }
}
