/** The DIMACS CNF parser 'parse': comment lines, the 'p cnf <V> <M>' header
    and a body of literals terminated by '0', every literal (the zeros
    included) being handed to the solver in input order.  The solver's
    'satch_add' is modelled by appending to the sequence of added literals. */
module Dimacs {
  import opened Limits
  import opened Results
  import opened Digits
  import opened DimacsErrors
  import opened Reader

  type Outcome<T> = Result<T, ParseError>

  /** The declared maximum variable and number of clauses. */
  datatype Header = Header(variables: nat, clauses: nat)

  /** A digit run's value and the step that read the character after it. */
  datatype Number = Number(value: nat, next: Step)

  /** A body literal and the step that read the character after it. */
  datatype Literal = Literal(lit: int, next: Step)

  /** A successfully parsed file: the header, the literals handed to
      'satch_add' in order, and the number of bytes read. */
  datatype Cnf = Cnf(variables: nat, clauses: nat, lits: seq<int>, bytes: nat)

  /** State of the body loop: 'parsed_clauses', the last literal 'lit' and
      the literals added so far. */
  datatype Body = Body(parsed: nat, lit: int, added: seq<int>)

  predicate IsBlank(ch: char) {
    ch == ' ' || ch == '\t'
  }

  predicate IsDigitToken(t: Token) {
    t.Char? && IsDigit(t.c)
  }

  /** Characters allowed right after the digits of a literal. */
  predicate IsSeparator(ch: char) {
    ch == ' ' || ch == '\t' || ch == '\n' || ch == 'c'
  }

  /** End of the maximal digit run starting at i. */
  function RunEnd(s: seq<char>, i: nat): (k: nat)
    requires i <= |s|
    ensures i <= k <= |s| && (k == |s| || !IsDigit(s[k]))
    ensures i < k ==> IsDigit(s[k - 1])
    decreases |s| - i
  {
    if i < |s| && IsDigit(s[i]) then RunEnd(s, i + 1) else i
  }

  /** Number of clause terminators among the literals. */
  function Zeros(lits: seq<int>): nat {
    if |lits| == 0 then 0 else Zeros(lits[..|lits| - 1]) + (if lits[|lits| - 1] == 0 then 1 else 0)
  }

  /** The last literal added, or 0 before the first one. */
  function LastLit(lits: seq<int>): int {
    if |lits| == 0 then 0 else lits[|lits| - 1]
  }

  /** 'parse_error' at the current line of cursor c. */
  function Fail<T>(s: seq<char>, c: Cursor, kind: ErrorKind): (r: Outcome<T>)
    requires Valid(s, c)
    ensures r.Err? && r.error == ParseError(c.line, kind) && LineIn(s, c.line)
  {
    ValidLine(s, c);
    Err(ParseError(c.line, kind))
  }

  /** Skip the rest of a comment line, consuming its newline. */
  function SkipComment(s: seq<char>, c: Cursor, eof: ErrorKind): (r: Outcome<Cursor>)
    requires Valid(s, c)
    ensures r.Ok? ==> Valid(s, r.value) && c.pos < r.value.pos && s[r.value.pos - 1] == '\n'
    ensures r.Ok? ==> r.value.line == c.line + 1
    ensures r.Err? ==> LineIn(s, r.error.line)
    ensures r.Err? ==> r.error.kind == eof || r.error.kind == ExpectedNewlineAfterReturn
    decreases |s| - c.pos
  {
    var st :- Next(s, c);
    match st.token
    case Eof => Fail(s, st.cur, eof)
    case Char(ch) => if ch == '\n' then Ok(st.cur) else SkipComment(s, st.cur, eof)
  }
  /** A comment with no newline after it runs into end-of-file. */
  lemma {:induction false} CommentNeedsNewline(s: seq<char>, c: Cursor, eof: ErrorKind)
    requires Valid(s, c) && forall i :: c.pos <= i < |s| ==> s[i] != '\n'
    ensures SkipComment(s, c, eof).Err?
    decreases |s| - c.pos
  {
    if c.pos < |s| {
      match Next(s, c)
      case Ok(st) =>
        if st.token != Char('\n') {
          CommentNeedsNewline(s, st.cur, eof);
        }
      case Err(_) =>
    }
  }


  /** The comment lines before the header; returns the step that read the
      first character which does not start a comment. */
  function LeadingComments(s: seq<char>, c: Cursor): (r: Outcome<Step>)
    requires Valid(s, c)
    ensures r.Ok? ==> Valid(s, r.value.cur) && c.pos <= r.value.cur.pos && r.value.token != Char('c')
    ensures r.Ok? && r.value.token.Char? ==> 0 < r.value.cur.pos && s[r.value.cur.pos - 1] == r.value.token.c
    ensures r.Err? ==> LineIn(s, r.error.line)
    decreases |s| - c.pos
  {
    var st :- Next(s, c);
    if st.token == Char('c') then
      var c' :- SkipComment(s, st.cur, EofInHeaderComment);
      LeadingComments(s, c')
    else
      Ok(st)
  }

  /** Read one character that must be `want`. */
  function Expect(s: seq<char>, c: Cursor, want: char, kind: ErrorKind): (r: Outcome<Cursor>)
    requires Valid(s, c)
    ensures r.Ok? ==> Valid(s, r.value) && c.pos < r.value.pos && s[r.value.pos - 1] == want
    ensures want != '\n' && want != '\r' ==> (r.Ok? <==> c.pos < |s| && s[c.pos] == want)
    ensures want != '\n' && want != '\r' && r.Ok? ==> r.value == At(s, c.pos + 1)
    ensures r.Err? ==> LineIn(s, r.error.line)
    ensures r.Err? ==> r.error.kind == kind || r.error.kind == ExpectedNewlineAfterReturn
  {
    var st :- Next(s, c);
    if st.token == Char(want) then Ok(st.cur) else Fail(s, st.cur, kind)
  }

  /** Read past spaces and tabs; returns the step that read the first other character. */
  function SkipBlanks(s: seq<char>, c: Cursor): (r: Outcome<Step>)
    requires Valid(s, c)
    ensures r.Ok? ==> Valid(s, r.value.cur) && c.pos <= r.value.cur.pos
    ensures r.Ok? ==> !(r.value.token.Char? && IsBlank(r.value.token.c))
    ensures r.Ok? && r.value.token.Char? ==> 0 < r.value.cur.pos && s[r.value.cur.pos - 1] == r.value.token.c
    ensures r.Err? ==> LineIn(s, r.error.line)
    decreases |s| - c.pos
  {
    var st :- Next(s, c);
    if st.token.Char? && IsBlank(st.token.c) then SkipBlanks(s, st.cur) else Ok(st)
  }

  /** The digit loop shared by the header numbers and the literals: `acc`
      holds the digits read so far, and every further digit is checked
      against `max` before the multiplication and before the addition, so
      the accumulator itself never exceeds `max`. */
  function ScanDigits(s: seq<char>, c: Cursor, acc: nat, max: nat, what: Quantity): (r: Outcome<Number>)
    requires Valid(s, c) && acc <= max
    ensures r.Ok? ==> r.value.value <= max
    ensures r.Ok? ==> Valid(s, r.value.next.cur) && c.pos <= r.value.next.cur.pos
    ensures r.Ok? ==> !IsDigitToken(r.value.next.token)
    ensures r.Ok? ==> Next(s, At(s, RunEnd(s, c.pos))) == Ok(r.value.next)
    ensures r.Err? ==> LineIn(s, r.error.line)
    decreases |s| - c.pos
  {
    var st :- Next(s, c);
    if IsDigitToken(st.token) then
      if acc == 0 then
        Fail(s, st.cur, InvalidDigitAfterZero(what))
      else if max / 10 < acc then
        Fail(s, st.cur, WayTooBig(what))
      else
        // the multiplication by ten cannot leave the range of max
        assert acc * 10 <= max;
        var digit := DigitValue(st.token.c);
        if max - digit < acc * 10 then
          Fail(s, st.cur, TooBig(what))
        else
          ScanDigits(s, st.cur, acc * 10 + digit, max, what)
    else
      Ok(Number(acc, st))
  }

  /** The rest of the keyword after its 'p': " cnf ", one character at a time. */
  function KeywordRest(s: seq<char>, c: Cursor): (r: Outcome<Cursor>)
    requires Valid(s, c)
    ensures r.Ok? ==> Valid(s, r.value) && r.value.pos == c.pos + 5
    ensures r.Ok? ==> s[c.pos..c.pos + 5] == " cnf "
    ensures r.Err? ==> LineIn(s, r.error.line)
  {
    var c1 :- Expect(s, c, ' ', ExpectedSpaceAfterP);
    var c2 :- Expect(s, c1, 'c', ExpectedCAfterP);
    var c3 :- Expect(s, c2, 'n', ExpectedNAfterPC);
    var c4 :- Expect(s, c3, 'f', ExpectedFAfterPCn);
    var c5 :- Expect(s, c4, ' ', ExpectedSpaceAfterPCnf);
    assert s[c.pos..c.pos + 5] == [s[c.pos], s[c1.pos], s[c2.pos], s[c3.pos], s[c4.pos]];
    Ok(c5)
  }

  /** The leading comments and the keyword "p cnf "; returns the cursor
      after the keyword's space. */
  function HeaderKeyword(s: seq<char>): (r: Outcome<Cursor>)
    ensures r.Ok? ==> Valid(s, r.value) && 6 <= r.value.pos
    ensures r.Ok? ==> s[r.value.pos - 6..r.value.pos] == "p cnf "
    ensures r.Err? ==> LineIn(s, r.error.line)
  {
    var first :- LeadingComments(s, At(s, 0));
    if first.token != Char('p') then Fail(s, first.cur, ExpectedPOrC) else
    var rest :- KeywordRest(s, first.cur);
    KeywordText(s, first.cur.pos - 1, rest.pos);
    Ok(rest)
  }
  lemma KeywordText(s: seq<char>, q: nat, e: nat)
    requires e == q + 6 <= |s| && s[q] == 'p' && s[q + 1..e] == " cnf "
    ensures s[q..e] == "p cnf "
  {
    assert s[q..e] == [s[q]] + s[q + 1..e];
  }

  /** The maximum variable after "p cnf ", which must be followed by a space. */
  function HeaderVariables(s: seq<char>, c: Cursor): (r: Outcome<Number>)
    requires Valid(s, c)
    ensures r.Ok? ==> r.value.value <= INT_MAX && r.value.next.token == Char(' ')
    ensures r.Ok? ==> Valid(s, r.value.next.cur) && c.pos < r.value.next.cur.pos
    ensures r.Ok? ==> var e := r.value.next.cur.pos - 1;
                      c.pos < e && s[e] == ' ' && IsDigit(s[e - 1])
    ensures r.Err? ==> LineIn(s, r.error.line)
  {
    var d :- SkipBlanks(s, c);
    if !IsDigitToken(d.token) then Fail(s, d.cur, ExpectedDigitAfterPCnf) else
    var vars :- ScanDigits(s, d.cur, DigitValue(d.token.c), INT_MAX, MaxVariable);
    if vars.next.token != Char(' ') then
      Fail(s, vars.next.cur, ExpectedSpaceAfterVariables(vars.value))
    else
      Ok(vars)
  }

  /** The number of clauses after the maximum variable and its space,
      then optional blanks and the header's newline. */
  function HeaderClauses(s: seq<char>, c: Cursor, variables: nat): (r: Outcome<Number>)
    requires Valid(s, c)
    ensures r.Ok? ==> r.value.value <= SIZE_MAX && r.value.next.token == Char('\n')
    ensures r.Ok? ==> Valid(s, r.value.next.cur) && c.pos < r.value.next.cur.pos
    ensures r.Ok? ==> s[r.value.next.cur.pos - 1] == '\n'
    ensures r.Err? ==> LineIn(s, r.error.line)
  {
    var d :- SkipBlanks(s, c);
    if !IsDigitToken(d.token) then Fail(s, d.cur, ExpectedDigitAfterVariables(variables)) else
    var count :- ScanDigits(s, d.cur, DigitValue(d.token.c), SIZE_MAX, ClauseCount);
    var last :- if count.next.token.Char? && IsBlank(count.next.token.c)
                then SkipBlanks(s, count.next.cur) else Ok(count.next);
    if last.token != Char('\n') then
      Fail(s, last.cur, ExpectedNewlineAfterHeader(variables, count.value))
    else
      Ok(Number(count.value, last))
  }

  /** The header 'p cnf <V> <M>' after the leading comments.  Returns the
      header and the cursor after its newline. */
  function ParseHeader(s: seq<char>): (r: Outcome<(Header, Cursor)>)
    ensures r.Ok? ==> r.value.0.variables <= INT_MAX && r.value.0.clauses <= SIZE_MAX
    ensures r.Ok? ==> Valid(s, r.value.1) && 6 < r.value.1.pos
    ensures r.Err? ==> LineIn(s, r.error.line)
  {
    var c :- HeaderKeyword(s);
    var vars :- HeaderVariables(s, c);
    var count :- HeaderClauses(s, vars.next.cur, vars.value);
    Ok((Header(vars.value, count.value), count.next.cur))
  }

  /** The optional '-' of a literal and its first digit.  `st` read the
      literal's first character.  Returns the sign and the step that read
      the first digit. */
  function ReadSign(s: seq<char>, st: Step): (r: Outcome<(int, Step)>)
    requires Valid(s, st.cur) && st.token.Char?
    ensures r.Ok? ==> Valid(s, r.value.1.cur) && st.cur.pos <= r.value.1.cur.pos
    ensures r.Ok? ==> IsDigitToken(r.value.1.token)
    ensures r.Ok? ==> (r.value.0 == -1 <==> st.token.c == '-') && (r.value.0 == 1 <==> st.token.c != '-')
    ensures r.Ok? <==> IsDigit(st.token.c) || (st.token.c == '-' && st.cur.pos < |s| && IsDigit(s[st.cur.pos]))
    ensures r.Ok? && st.token.c != '-' ==> r.value.1 == st
    ensures r.Ok? && st.token.c == '-' ==> r.value.1 == Step(Char(s[st.cur.pos]), At(s, st.cur.pos + 1))
    ensures r.Err? && st.token.c != '-' ==> r.error == ParseError(st.cur.line, ExpectedNumber)
    ensures r.Err? && st.token.c == '-' ==> r.error.kind == ExpectedDigitAfterMinus || r.error.kind == ExpectedNewlineAfterReturn
    ensures r.Err? ==> LineIn(s, r.error.line)
  {
    if st.token.c == '-' then
      var d :- Next(s, st.cur);
      if IsDigitToken(d.token) then Ok((-1, d)) else Fail(s, d.cur, ExpectedDigitAfterMinus)
    else if IsDigit(st.token.c) then
      Ok((1, st))
    else
      Fail(s, st.cur, ExpectedNumber)
  }

  /** One literal of the body.  `st` read its first character; `full`
      says that all specified clauses have been parsed already. */
  function ReadLiteral(s: seq<char>, st: Step, variables: nat, full: bool): (r: Outcome<Literal>)
    requires Valid(s, st.cur) && st.token.Char?
    ensures r.Ok? ==> !full
    ensures r.Ok? ==> -INT_MAX <= r.value.lit <= INT_MAX && Abs(r.value.lit) <= variables
    ensures r.Ok? ==> Valid(s, r.value.next.cur) && st.cur.pos < r.value.next.cur.pos
    ensures r.Ok? ==> r.value.next.token.Char? && IsSeparator(r.value.next.token.c)
    ensures r.Ok? ==> var q := if st.token.c == '-' then st.cur.pos + 1 else st.cur.pos;
                      q <= |s| && Next(s, At(s, RunEnd(s, q))) == Ok(r.value.next)
    ensures r.Err? ==> LineIn(s, r.error.line)
  {
    var signed :- ReadSign(s, st);
    var sign := signed.0;
    var first := signed.1;
    assert first.cur.pos == if st.token.c == '-' then st.cur.pos + 1 else st.cur.pos;
    if full then Fail(s, first.cur, MoreClausesThanSpecified) else
    var num :- ScanDigits(s, first.cur, DigitValue(first.token.c), INT_MAX, LiteralNumber);
    var lit := sign * num.value;
    if !(num.next.token.Char? && IsSeparator(num.next.token.c)) then
      Fail(s, num.next.cur, UnexpectedCharAfter(lit))
    else if Abs(lit) > variables then
      Fail(s, num.next.cur, LiteralExceedsMaxVariable(lit, variables))
    else
      Ok(Literal(lit, num.next))
  }

  /** What the body loop keeps true: at most the specified number of
      clauses parsed, each of them counted by one added zero, 'lit' the last
      added literal, every added literal within the declared variables. */
  predicate BodyInv(h: Header, b: Body) {
    && b.parsed <= h.clauses
    && Zeros(b.added) == b.parsed
    && b.lit == LastLit(b.added)
    && forall i :: 0 <= i < |b.added| ==> Abs(b.added[i]) <= h.variables
  }

  /** 'satch_add(lit)' together with the clause counting. */
  function Add(b: Body, lit: int): Body {
    Body(if lit == 0 then b.parsed + 1 else b.parsed, lit, b.added + [lit])
  }

  /** Adding a literal within the declared variables, while clauses are
      still expected, keeps the body invariant. */
  lemma AddKeeps(h: Header, b: Body, lit: int)
    requires BodyInv(h, b) && Abs(lit) <= h.variables && b.parsed < h.clauses
    ensures BodyInv(h, Add(b, lit))
  {
    var a := b.added + [lit];
    assert a[..|a| - 1] == b.added;
  }

  /** The checks at end-of-file. */
  function Finish(s: seq<char>, c: Cursor, h: Header, b: Body): (r: Outcome<Cnf>)
    requires Valid(s, c) && BodyInv(h, b)
    ensures r.Ok? <==> b.lit == 0 && b.parsed == h.clauses
    ensures r.Ok? ==> r.value == Cnf(h.variables, h.clauses, b.added, c.bytes)
    ensures r.Err? ==> r.error.line == c.line && LineIn(s, c.line)
    ensures b.lit != 0 ==> r.Err? && r.error.kind == TerminatingZeroMissing(b.lit)
    ensures b.lit == 0 && b.parsed + 1 == h.clauses ==> r.Err? && r.error.kind == SingleClauseMissing
    ensures b.lit == 0 && b.parsed + 1 < h.clauses ==>
              r.Err? && r.error.kind == ClausesMissing(h.clauses - b.parsed) && h.clauses - b.parsed > 1
  {
    if b.lit != 0 then
      Fail(s, c, TerminatingZeroMissing(b.lit))
    else if b.parsed < h.clauses then
      if b.parsed + 1 == h.clauses then
        Fail(s, c, SingleClauseMissing)
      else
        Fail(s, c, ClausesMissing(h.clauses - b.parsed))
    else
      Ok(Cnf(h.variables, h.clauses, b.added, c.bytes))
  }

  /** The body loop: blanks, comments (also a comment directly after a
      literal, which does not consume an extra character) and literals,
      until end-of-file. */
  function ParseBody(s: seq<char>, c: Cursor, h: Header, b: Body): (r: Outcome<Cnf>)
    requires Valid(s, c) && BodyInv(h, b)
    ensures r.Err? ==> LineIn(s, r.error.line)
    decreases |s| - c.pos
  {
    var st :- Next(s, c);
    match st.token
    case Eof => Finish(s, st.cur, h, b)
    case Char(ch) =>
      if ch == ' ' || ch == '\t' || ch == '\n' then
        ParseBody(s, st.cur, h, b)
      else if ch == 'c' then
        var c' :- SkipComment(s, st.cur, EofInComment);
        ParseBody(s, c', h, b)
      else
        var lit :- ReadLiteral(s, st, h.variables, b.parsed == h.clauses);
        var b' := Add(b, lit.lit);
        AddKeeps(h, b, lit.lit);
        if lit.next.token == Char('c') then
          var c' :- SkipComment(s, lit.next.cur, EofInComment);
          ParseBody(s, c', h, b')
        else
          ParseBody(s, lit.next.cur, h, b')
  }

  /** 'parse': the whole file. */
  function Parse(s: seq<char>): (r: Outcome<Cnf>)
    ensures r.Err? ==> LineIn(s, r.error.line)
  {
    var hc :- ParseHeader(s);
    ParseBody(s, hc.1, hc.0, Body(0, 0, []))
  }

  /** What an accepted body guarantees: the header's numbers, the literals
      added so far as a prefix, exactly the specified number of zeros, every
      literal within the declared variables, a terminating zero, and the
      whole input consumed. */
  lemma {:induction false} ParseBodySound(s: seq<char>, c: Cursor, h: Header, b: Body)
    requires Valid(s, c) && BodyInv(h, b)
    ensures var r := ParseBody(s, c, h, b);
            r.Ok? ==>
              && r.value.variables == h.variables && r.value.clauses == h.clauses
              && b.added <= r.value.lits
              && Zeros(r.value.lits) == h.clauses
              && (forall i :: 0 <= i < |r.value.lits| ==> Abs(r.value.lits[i]) <= h.variables)
              && LastLit(r.value.lits) == 0
              && r.value.bytes == |s|
    decreases |s| - c.pos, 1
  {
    match Next(s, c)
    case Err(_) =>
    case Ok(st) =>
      match st.token
      case Eof =>
      case Char(ch) =>
        if ch == ' ' || ch == '\t' || ch == '\n' {
          ParseBodySound(s, st.cur, h, b);
        } else if ch == 'c' {
          match SkipComment(s, st.cur, EofInComment)
          case Err(_) =>
          case Ok(c') => ParseBodySound(s, c', h, b);
        } else {
          LiteralSound(s, c, h, b, st);
        }
  }

  /** The literal case of ParseBodySound: `st` read the first character
      of a literal at c. */
  lemma {:induction false} LiteralSound(s: seq<char>, c: Cursor, h: Header, b: Body, st: Step)
    requires Valid(s, c) && BodyInv(h, b) && Next(s, c) == Ok(st) && Valid(s, st.cur) && st.token.Char?
    requires !IsSeparator(st.token.c)
    ensures var r := ParseBody(s, c, h, b);
            r.Ok? ==>
              && r.value.variables == h.variables && r.value.clauses == h.clauses
              && b.added <= r.value.lits
              && Zeros(r.value.lits) == h.clauses
              && (forall i :: 0 <= i < |r.value.lits| ==> Abs(r.value.lits[i]) <= h.variables)
              && LastLit(r.value.lits) == 0
              && r.value.bytes == |s|
    decreases |s| - c.pos, 0
  {
    match ReadLiteral(s, st, h.variables, b.parsed == h.clauses)
    case Err(_) =>
    case Ok(lit) =>
      var b' := Add(b, lit.lit);
      var r := ParseBody(s, c, h, b);
      if lit.next.token == Char('c') {
        match SkipComment(s, lit.next.cur, EofInComment)
        case Err(_) =>
        case Ok(c') =>
          ParseBodySound(s, c', h, b');
          assert r == ParseBody(s, c', h, b');
      } else {
        ParseBodySound(s, lit.next.cur, h, b');
        assert r == ParseBody(s, lit.next.cur, h, b');
      }
      if r.Ok? {
        PrefixOfAdd(b.added, lit.lit, r.value.lits);
      }
  }

  /** Whatever extends the literals after one more was added extends them
      before. */
  lemma PrefixOfAdd(added: seq<int>, lit: int, lits: seq<int>)
    requires added + [lit] <= lits
    ensures added <= lits
  {
    assert (added + [lit])[..|added|] == added;
  }

  /** What an accepted file guarantees: the header's bounds, exactly the
      specified number of zeros, every literal a non-minimal 'int' within
      the maximum variable, a terminating zero, and the whole input read. */
  lemma ParseSound(s: seq<char>)
    ensures var r := Parse(s);
            r.Ok? ==>
              && r.value.variables <= INT_MAX && r.value.clauses <= SIZE_MAX
              && Zeros(r.value.lits) == r.value.clauses
              && (forall i :: 0 <= i < |r.value.lits| ==>
                    Abs(r.value.lits[i]) <= r.value.variables && IsInt(r.value.lits[i]) && r.value.lits[i] != INT_MIN)
              && LastLit(r.value.lits) == 0
              && r.value.bytes == |s|
  {
    match ParseHeader(s)
    case Err(_) =>
    case Ok(hc) => ParseBodySound(s, hc.1, hc.0, Body(0, 0, []));
  }
}
