/** Whole files built from a header and rendered literals: a file in the
    canonical layout parses back to exactly its literals, and the clause
    count errors are reported with the line the parser has reached. */
module DimacsRoundTrip {
  import opened Limits
  import opened Results
  import opened Digits
  import opened DimacsErrors
  import opened Reader
  import opened Dimacs
  import opened DimacsText

  /** A literal of the body and the blank, tab or newline written after it. */
  datatype Item = Item(lit: int, sep: char)

  function Layout(items: seq<Item>): seq<char> {
    if |items| == 0 then [] else Render(items[0].lit) + [items[0].sep] + Layout(items[1..])
  }

  function Lits(items: seq<Item>): (r: seq<int>)
    ensures |r| == |items| && forall i :: 0 <= i < |items| ==> r[i] == items[i].lit
  {
    if |items| == 0 then [] else [items[0].lit] + Lits(items[1..])
  }

  /** Every separator is a blank, a tab or a newline. */
  predicate Spaced(items: seq<Item>) {
    |items| == 0 || ((items[0].sep == ' ' || items[0].sep == '\t' || items[0].sep == '\n') && Spaced(items[1..]))
  }

  /** Every literal is within the declared maximum variable. */
  predicate InRange(items: seq<Item>, variables: nat) {
    |items| == 0 || (Abs(items[0].lit) <= variables && InRange(items[1..], variables))
  }

  /** No literal of items starts after `clauses` clauses have been parsed,
      `parsed` of them before the first item. */
  predicate Open(parsed: nat, clauses: nat, items: seq<Item>)
    decreases |items|
  {
    |items| == 0 || (parsed < clauses && Open(if items[0].lit == 0 then parsed + 1 else parsed, clauses, items[1..]))
  }

  /** The body state after adding the literals of items. */
  function AddAll(b: Body, items: seq<Item>): Body {
    Body(b.parsed + Zeros(Lits(items)), if |items| == 0 then b.lit else items[|items| - 1].lit, b.added + Lits(items))
  }

  function HeaderText(variables: nat, clauses: nat): seq<char> {
    "p cnf " + Decimal(variables) + " " + Decimal(clauses) + "\n"
  }

  /** The canonical layout: a space after every literal, a newline after every zero. */
  function Canonical(lits: seq<int>): (items: seq<Item>)
    ensures Lits(items) == lits && Spaced(items)
  {
    if |lits| == 0 then []
    else
      var rest := Canonical(lits[1..]);
      var items := [Item(lits[0], if lits[0] == 0 then '\n' else ' ')] + rest;
      assert items[1..] == rest;
      items
  }

  function Emit(variables: nat, clauses: nat, lits: seq<int>): seq<char> {
    HeaderText(variables, clauses) + Layout(Canonical(lits))
  }

  lemma {:induction false} ZerosCons(x: int, t: seq<int>)
    ensures Zeros([x] + t) == (if x == 0 then 1 else 0) + Zeros(t)
    decreases |t|
  {
    if |t| == 0 {
      assert [x] + t == [x];
      assert [x][..0] == [];
    } else {
      var t' := t[..|t| - 1];
      assert ([x] + t)[..|t|] == [x] + t';
      ZerosCons(x, t');
    }
  }

  /** Adding the first item moves the body state on to the rest. */
  lemma AddFirst(b: Body, items: seq<Item>)
    requires |items| > 0
    ensures AddAll(Add(b, items[0].lit), items[1..]) == AddAll(b, items)
  {
    var x := items[0].lit;
    var L := Lits(items[1..]);
    assert Lits(items) == [x] + L;
    ZerosCons(x, L);
    assert b.added + [x] + L == b.added + ([x] + L);
  }

  /** The characters a run of items takes up. */
  function Width(items: seq<Item>): nat {
    if |items| == 0 then 0 else Span(items[0].lit) + 1 + Width(items[1..])
  }

  /** The items, each rendered and followed by its separator, sit one
      after another from p on. */
  predicate LaidOut(s: seq<char>, p: nat, items: seq<Item>)
    decreases |items|
  {
    if |items| == 0 then p <= |s|
    else LiteralAt(s, p, items[0].lit, items[0].sep) && LaidOut(s, p + Span(items[0].lit) + 1, items[1..])
  }

  lemma {:induction false} NumeralShift(pre: seq<char>, t: seq<char>, e: nat, n: nat)
    requires NumeralBefore(t, e, n)
    ensures NumeralBefore(pre + t, |pre| + e, n)
    decreases n
  {
    assert (pre + t)[|pre| + e - 1] == t[e - 1];
    if 10 <= n {
      NumeralShift(pre, t, e - 1, n / 10);
    }
  }

  lemma LiteralShift(pre: seq<char>, t: seq<char>, p: nat, x: int, sep: char)
    requires LiteralAt(t, p, x, sep)
    ensures LiteralAt(pre + t, |pre| + p, x, sep)
  {
    var q := if x < 0 then p + 1 else p;
    NumeralShift(pre, t, q + DigitCount(Abs(x)), Abs(x));
    assert (pre + t)[|pre| + q + DigitCount(Abs(x))] == t[q + DigitCount(Abs(x))];
    assert (pre + t)[|pre| + p] == t[p];
  }

  /** Text put in front moves laid-out items along with it. */
  lemma {:induction false} LaidOutShift(pre: seq<char>, t: seq<char>, p: nat, items: seq<Item>, q: nat)
    requires LaidOut(t, p, items) && q == |pre| + p
    ensures LaidOut(pre + t, q, items)
    decreases |items|
  {
    if |items| > 0 {
      LiteralShift(pre, t, p, items[0].lit, items[0].sep);
      LaidOutShift(pre, t, p + Span(items[0].lit) + 1, items[1..], q + Span(items[0].lit) + 1);
    }
  }

  /** A literal rendered and followed by its separator at the start of a text. */
  lemma LiteralInFront(x: int, sep: char, t: seq<char>)
    ensures LiteralAt(Render(x) + [sep] + t, 0, x, sep)
  {
    var R := Render(x) + [sep];
    OccursAll(R + t, 0, R);
    LiteralOfText(R + t, 0, x, sep);
  }

  lemma LaidOutCons(t: seq<char>, p: nat, items: seq<Item>, e: nat)
    requires |items| > 0 && LiteralAt(t, p, items[0].lit, items[0].sep)
    requires e == p + Span(items[0].lit) + 1 && LaidOut(t, e, items[1..])
    ensures LaidOut(t, p, items)
  {
  }

  /** An item rendered in front of text that holds the other items. */
  lemma LaidOutFront(items: seq<Item>, t: seq<char>)
    requires |items| > 0 && LaidOut(t, 0, items[1..])
    ensures LaidOut(Render(items[0].lit) + [items[0].sep] + t, 0, items)
  {
    var x := items[0].lit;
    var R := Render(x) + [items[0].sep];
    RenderSpan(x);
    LaidOutShift(R, t, 0, items[1..], Span(x) + 1);
    LiteralInFront(x, items[0].sep, t);
    LaidOutCons(R + t, 0, items, Span(x) + 1);
  }

  /** A layout is as long as the items' width. */
  lemma {:induction false} LayoutWidth(items: seq<Item>)
    ensures |Layout(items)| == Width(items)
    decreases |items|
  {
    if |items| > 0 {
      LayoutWidth(items[1..]);
      RenderSpan(items[0].lit);
    }
  }

  /** The layout of items, whatever follows it, places its items one after
      another from its start, and is as long as their width. */
  lemma {:induction false} LaidOutOfLayout(items: seq<Item>, post: seq<char>)
    ensures LaidOut(Layout(items) + post, 0, items) && |Layout(items)| == Width(items)
    decreases |items|
  {
    LayoutWidth(items);
    if |items| == 0 {
      assert Layout(items) + post == post;
    } else {
      var R, t := Render(items[0].lit) + [items[0].sep], Layout(items[1..]) + post;
      LaidOutOfLayout(items[1..], post);
      LaidOutFront(items, t);
      assert Layout(items) + post == R + t by {
        Regroup(R, Layout(items[1..]), post);
      }
    }
  }

  /** A literal at p followed by a blank, a tab or a newline is added, and
      the body loop goes on at e, right after that separator. */
  lemma PlainItemStep(s: seq<char>, p: nat, h: Header, b: Body, x: int, sep: char, e: nat)
    requires BodyInv(h, b) && h.variables <= INT_MAX
    requires LiteralAt(s, p, x, sep) && (sep == ' ' || sep == '\t' || sep == '\n')
    requires Abs(x) <= h.variables && b.parsed < h.clauses
    requires e == p + Span(x) + 1
    ensures p < e <= |s| && BodyInv(h, Add(b, x))
    ensures ParseBody(s, At(s, p), h, b) == ParseBody(s, At(s, e), h, Add(b, x))
  {
    ItemStep(s, p, h, b, x, sep, e);
  }

  /** A run of items laid out in the body from p, ending at q, is added
      literal by literal. */
  lemma {:induction false} ItemsStep(s: seq<char>, p: nat, h: Header, b: Body, items: seq<Item>, q: nat)
    requires BodyInv(h, b) && h.variables <= INT_MAX
    requires LaidOut(s, p, items) && q == p + Width(items)
    requires Spaced(items) && InRange(items, h.variables) && Open(b.parsed, h.clauses, items)
    ensures p <= q <= |s| && BodyInv(h, AddAll(b, items))
    ensures ParseBody(s, At(s, p), h, b) == ParseBody(s, At(s, q), h, AddAll(b, items))
    decreases |items|, 1
  {
    if |items| == 0 {
      assert b.added + [] == b.added;
      assert AddAll(b, items) == b;
    } else {
      AddFirst(b, items);
      ItemsCons(s, p, h, b, items[0].lit, items[0].sep, items[1..], p + Span(items[0].lit) + 1, q);
    }
  }

  /** The inductive step of ItemsStep: the item (x, sep) at p, then rest from e on. */
  lemma {:induction false} ItemsCons(s: seq<char>, p: nat, h: Header, b: Body, x: int, sep: char, rest: seq<Item>, e: nat, q: nat)
    requires BodyInv(h, b) && h.variables <= INT_MAX
    requires LiteralAt(s, p, x, sep) && (sep == ' ' || sep == '\t' || sep == '\n')
    requires Abs(x) <= h.variables && b.parsed < h.clauses
    requires e == p + Span(x) + 1 && LaidOut(s, e, rest) && q == e + Width(rest)
    requires Spaced(rest) && InRange(rest, h.variables) && Open(Add(b, x).parsed, h.clauses, rest)
    ensures p <= q <= |s| && BodyInv(h, AddAll(Add(b, x), rest))
    ensures ParseBody(s, At(s, p), h, b) == ParseBody(s, At(s, q), h, AddAll(Add(b, x), rest))
    decreases |rest| + 1, 0
  {
    PlainItemStep(s, p, h, b, x, sep, e);
    ItemsStep(s, e, h, Add(b, x), rest, q);
  }

  lemma {:induction false} NoNewlines(s: seq<char>, j: nat)
    requires j <= |s| && forall i :: 0 <= i < j ==> s[i] != '\n'
    ensures NewlinesBefore(s, j) == 0
    decreases j
  {
    if j > 0 {
      NoNewlines(s, j - 1);
    }
  }

  /** The header line 'p cnf <v> <m>' and its newline at the start of s:
      the keyword, the digits of v, a space, the digits of m, a newline. */
  predicate HeaderAt(s: seq<char>, v: nat, m: nat) {
    var a := 6 + DigitCount(v);
    var b := a + 1 + DigitCount(m);
    && b < |s| && Occurs(s, 0, "p cnf ")
    && NumeralBefore(s, a, v) && s[a] == ' ' && NumeralBefore(s, b, m) && s[b] == '\n'
  }

  /** The keyword and the maximum variable of a header text. */
  lemma HeaderVariablePart(s: seq<char>, v: nat, m: nat)
    requires Occurs(s, 0, HeaderText(v, m))
    ensures Occurs(s, 0, "p cnf ") && NumeralBefore(s, 6 + DigitCount(v), v)
    ensures 6 + DigitCount(v) < |s| && s[6 + DigitCount(v)] == ' '
  {
    var A := "p cnf " + Decimal(v);
    OccursSplit(s, 0, A + " " + Decimal(m), "\n");
    OccursSplit(s, 0, A + " ", Decimal(m));
    OccursSplit(s, 0, A, " ");
    OccursAt(s, |A|, " ", 0);
    OccursSplit(s, 0, "p cnf ", Decimal(v));
    DecimalCount(v);
    NumeralOfText(s, 6, v);
  }

  /** The clause count of a header text and the newline after it. */
  lemma HeaderClausePart(s: seq<char>, v: nat, m: nat)
    requires Occurs(s, 0, HeaderText(v, m))
    ensures NumeralBefore(s, 7 + DigitCount(v) + DigitCount(m), m)
    ensures 7 + DigitCount(v) + DigitCount(m) < |s| && s[7 + DigitCount(v) + DigitCount(m)] == '\n'
    ensures |HeaderText(v, m)| == 8 + DigitCount(v) + DigitCount(m)
  {
    var A := "p cnf " + Decimal(v);
    var B := A + " " + Decimal(m);
    DecimalCount(v);
    DecimalCount(m);
    assert |A| + 1 == 7 + DigitCount(v);
    OccursSplit(s, 0, B, "\n");
    OccursAt(s, |B|, "\n", 0);
    OccursSplit(s, 0, A + " ", Decimal(m));
    NumeralOfText(s, 7 + DigitCount(v), m);
  }

  /** A header text at the start of s is where HeaderAt places its parts. */
  lemma HeaderParts(s: seq<char>, v: nat, m: nat)
    requires Occurs(s, 0, HeaderText(v, m))
    ensures HeaderAt(s, v, m) && |HeaderText(v, m)| == 8 + DigitCount(v) + DigitCount(m)
  {
    HeaderVariablePart(s, v, m);
    HeaderClausePart(s, v, m);
  }

  /** Everything up to the header's newline is on line 1. */
  lemma HeaderOnLineOne(s: seq<char>, v: nat, m: nat, j: nat)
    requires HeaderAt(s, v, m) && j <= 7 + DigitCount(v) + DigitCount(m)
    ensures j <= |s| && At(s, j).line == 1
  {
    var a := 6 + DigitCount(v);
    var b := a + 1 + DigitCount(m);
    forall i | 0 <= i < j
      ensures s[i] != '\n'
    {
      if i < 6 {
        OccursAt(s, 0, "p cnf ", i);
      } else if i < a {
        NumeralDigits(s, a, v, i);
      } else if a < i {
        NumeralDigits(s, b, m, i);
      }
    }
    NoNewlines(s, j);
  }

  /** A text that starts with "p cnf " passes the keyword checks. */
  lemma KeywordOfText(s: seq<char>)
    requires Occurs(s, 0, "p cnf ")
    ensures HeaderKeyword(s) == Ok(At(s, 6))
  {
    var k := "p cnf ";
    forall i | 0 <= i < 6
      ensures s[i] == k[i]
    {
      OccursAt(s, 0, k, i);
    }
    assert Next(s, At(s, 0)) == Ok(Step(Char('p'), At(s, 1)));
    assert LeadingComments(s, At(s, 0)) == Ok(Step(Char('p'), At(s, 1)));
    assert Next(s, At(s, 1)) == Ok(Step(Char(' '), At(s, 2)));
    assert Next(s, At(s, 2)) == Ok(Step(Char('c'), At(s, 3)));
    assert Next(s, At(s, 3)) == Ok(Step(Char('n'), At(s, 4)));
    assert Next(s, At(s, 4)) == Ok(Step(Char('f'), At(s, 5)));
    assert Next(s, At(s, 5)) == Ok(Step(Char(' '), At(s, 6)));
  }

  /** The maximum variable of a header; c is where the clause count starts. */
  lemma VariablesOfText(s: seq<char>, v: nat, m: nat, c: nat)
    requires HeaderAt(s, v, m) && c == 7 + DigitCount(v)
    ensures var r := HeaderVariables(s, At(s, 6));
            && (v <= INT_MAX ==> r == Ok(Number(v, Step(Char(' '), At(s, c)))))
            && (INT_MAX < v ==> r.Err? && r.error.line == 1 && IsOverflow(r.error.kind, MaxVariable))
  {
    HeaderOnLineOne(s, v, m, 7);
    VariablesOfDecimal(s, 6, v, c - 1, c);
  }

  /** A rendered maximum variable followed by a space. */
  lemma VariablesOfDecimal(s: seq<char>, p: nat, v: nat, e: nat, f: nat)
    requires e == p + DigitCount(v) && NumeralBefore(s, e, v) && e < |s| && s[e] == ' ' && f == e + 1
    ensures var r := HeaderVariables(s, At(s, p));
            && (v <= INT_MAX ==> r == Ok(Number(v, Step(Char(' '), At(s, f)))))
            && (INT_MAX < v ==> r.Err? && r.error.line == At(s, p + 1).line && IsOverflow(r.error.kind, MaxVariable))
  {
    TextOfNumeral(s, p, v);
    DecimalDigits(v);
    OccursAt(s, p, Decimal(v), 0);
    var first := Step(Char(DigitChar(Leading(v))), At(s, p + 1));
    assert SkipBlanks(s, At(s, p)) == Ok(first);
    ScanOfDecimal(s, p, v, INT_MAX, MaxVariable, e, ' ');
  }

  /** The number of clauses of a header, which starts at c; d is just
      after the header's newline. */
  lemma ClausesOfText(s: seq<char>, v: nat, m: nat, c: nat, d: nat)
    requires HeaderAt(s, v, m) && c == 7 + DigitCount(v) && d == c + 1 + DigitCount(m)
    ensures c <= |s|
    ensures var r := HeaderClauses(s, At(s, c), v);
            && (m <= SIZE_MAX ==> r == Ok(Number(m, Step(Char('\n'), At(s, d)))))
            && (SIZE_MAX < m ==> r.Err? && r.error.line == 1 && IsOverflow(r.error.kind, ClauseCount))
  {
    HeaderOnLineOne(s, v, m, c + 1);
    ClausesOfDecimal(s, c, m, v, d - 1, d);
  }

  /** A rendered clause count followed by the header's newline. */
  lemma ClausesOfDecimal(s: seq<char>, p: nat, m: nat, v: nat, e: nat, f: nat)
    requires e == p + DigitCount(m) && NumeralBefore(s, e, m) && e < |s| && s[e] == '\n' && f == e + 1
    ensures m <= SIZE_MAX ==> HeaderClauses(s, At(s, p), v) == Ok(Number(m, Step(Char('\n'), At(s, f))))
    ensures SIZE_MAX < m ==>
              && HeaderClauses(s, At(s, p), v).Err?
              && HeaderClauses(s, At(s, p), v).error.line == At(s, p + 1).line
              && IsOverflow(HeaderClauses(s, At(s, p), v).error.kind, ClauseCount)
  {
    TextOfNumeral(s, p, m);
    DecimalDigits(m);
    OccursAt(s, p, Decimal(m), 0);
    var first := Step(Char(DigitChar(Leading(m))), At(s, p + 1));
    assert SkipBlanks(s, At(s, p)) == Ok(first);
    ScanOfDecimal(s, p, m, SIZE_MAX, ClauseCount, e, '\n');
    ClausesAfterDigit(s, At(s, p), v, first);
  }

  /** How the clause count of the header ends, once its first digit has
      been read: the digit loop's error, or its value when the newline
      follows right away. */
  lemma ClausesAfterDigit(s: seq<char>, c: Cursor, variables: nat, first: Step)
    requires Valid(s, c) && SkipBlanks(s, c) == Ok(first) && IsDigitToken(first.token)
    ensures var n := ScanDigits(s, first.cur, DigitValue(first.token.c), SIZE_MAX, ClauseCount);
            var r := HeaderClauses(s, c, variables);
            && (n.Err? ==> r == Err(n.error))
            && (n.Ok? && n.value.next.token == Char('\n') ==> r == Ok(n.value))
  {
  }

  /** The header 'p cnf <V> <M>' written with rendered numbers is accepted
      exactly when V fits an 'int' and M fits a 'size_t'; otherwise the
      overflow guard of the first number that does not fit fires, on line 1. */
  lemma HeaderOfText(s: seq<char>, v: nat, m: nat, c: nat, d: nat)
    requires HeaderAt(s, v, m) && c == 7 + DigitCount(v) && d == c + 1 + DigitCount(m)
    ensures v <= INT_MAX && m <= SIZE_MAX ==> ParseHeader(s) == Ok((Header(v, m), At(s, d)))
    ensures INT_MAX < v ==>
              && ParseHeader(s).Err? && ParseHeader(s).error.line == 1
              && IsOverflow(ParseHeader(s).error.kind, MaxVariable)
    ensures v <= INT_MAX && SIZE_MAX < m ==>
              && ParseHeader(s).Err? && ParseHeader(s).error.line == 1
              && IsOverflow(ParseHeader(s).error.kind, ClauseCount)
  {
    KeywordOfText(s);
    VariablesOfText(s, v, m, c);
    ClausesOfText(s, v, m, c, d);
  }

  /** A literal that would start a clause beyond the specified number is
      refused where it starts. */
  lemma MoreClausesAtItem(s: seq<char>, p: nat, h: Header, b: Body, x: int, sep: char)
    requires BodyInv(h, b) && b.parsed == h.clauses && LiteralAt(s, p, x, sep)
    ensures p < |s| && ParseBody(s, At(s, p), h, b) == Err(ParseError(At(s, p).line, MoreClausesThanSpecified))
  {
    DigitsOfLiteral(s, p, x, sep, if x < 0 then p + 1 else p);
    MoreClausesAtLiteral(s, At(s, p), h, b);
  }

  /** A layout the body loop accepts never has a literal after the last
      specified clause. */
  lemma {:induction false} ItemsOpen(s: seq<char>, p: nat, h: Header, b: Body, items: seq<Item>)
    requires BodyInv(h, b) && h.variables <= INT_MAX
    requires p <= |s| && LaidOut(s, p, items)
    requires Spaced(items) && InRange(items, h.variables)
    requires ParseBody(s, At(s, p), h, b).Ok?
    ensures Open(b.parsed, h.clauses, items)
    decreases |items|, 1
  {
    if |items| > 0 {
      ItemsOpenHead(s, p, h, b, items);
      ItemsOpenCons(s, p, h, b, items);
    }
  }

  /** The first item of an accepted layout starts while clauses are
      still expected. */
  lemma ItemsOpenHead(s: seq<char>, p: nat, h: Header, b: Body, items: seq<Item>)
    requires BodyInv(h, b) && |items| > 0 && LaidOut(s, p, items)
    requires p <= |s| && ParseBody(s, At(s, p), h, b).Ok?
    ensures b.parsed < h.clauses
  {
    if b.parsed == h.clauses {
      MoreClausesAtItem(s, p, h, b, items[0].lit, items[0].sep);
    }
  }

  /** The inductive step of ItemsOpen: the first item, then the rest. */
  lemma {:induction false} ItemsOpenCons(s: seq<char>, p: nat, h: Header, b: Body, items: seq<Item>)
    requires BodyInv(h, b) && h.variables <= INT_MAX
    requires p <= |s| && LaidOut(s, p, items) && |items| > 0
    requires Spaced(items) && InRange(items, h.variables)
    requires ParseBody(s, At(s, p), h, b).Ok? && b.parsed < h.clauses
    ensures Open(b.parsed, h.clauses, items)
    decreases |items|, 0
  {
    var x, e := items[0].lit, p + Span(items[0].lit) + 1;
    PlainItemStep(s, p, h, b, x, items[0].sep, e);
    ItemsOpen(s, e, h, Add(b, x), items[1..]);
    assert Add(b, x).parsed == if x == 0 then b.parsed + 1 else b.parsed;
  }

  /** A non-empty run of literals ending in a zero holds a zero. */
  lemma LastZero(t: seq<int>)
    requires |t| > 0 && LastLit(t) == 0
    ensures 0 < Zeros(t)
  {
  }

  /** Literals whose zeros complete exactly the remaining clauses, the last
      literal a zero, never start beyond the last clause. */
  lemma {:induction false} OpenOfZeros(parsed: nat, clauses: nat, items: seq<Item>)
    requires parsed + Zeros(Lits(items)) == clauses && LastLit(Lits(items)) == 0
    ensures Open(parsed, clauses, items)
    decreases |items|
  {
    if |items| > 0 {
      var x := items[0].lit;
      var rest := Lits(items[1..]);
      assert Lits(items) == [x] + rest;
      ZerosCons(x, rest);
      if x != 0 {
        LastZero(Lits(items));
      }
      OpenOfZeros(if x == 0 then parsed + 1 else parsed, clauses, items[1..]);
    }
  }

  /** At end-of-file the body loop hands over to the final checks. */
  lemma BodyAtEnd(s: seq<char>, h: Header, b: Body)
    requires BodyInv(h, b)
    ensures ParseBody(s, At(s, |s|), h, b) == Finish(s, At(s, |s|), h, b)
  {
    assert Next(s, At(s, |s|)) == Ok(Step(Eof, At(s, |s|)));
  }

  /** The body state after all items, starting from the empty body. */
  lemma AddAllOfEmpty(items: seq<Item>)
    ensures AddAll(Body(0, 0, []), items) == Body(Zeros(Lits(items)), LastLit(Lits(items)), Lits(items))
  {
    var L := Lits(items);
    assert [] + L == L;
    if |items| > 0 {
      assert L[|items| - 1] == items[|items| - 1].lit;
      assert LastLit(L) == items[|items| - 1].lit;
    }
  }

  /** A body made of laid-out items up to end-of-file is accepted exactly
      when the zeros complete the specified clauses and the last literal is
      a zero; then the result holds exactly the items' literals. */
  lemma BodyOfLayout(s: seq<char>, d: nat, h: Header, items: seq<Item>)
    requires h.variables <= INT_MAX && d <= |s| && LaidOut(s, d, items) && d + Width(items) == |s|
    requires Spaced(items) && InRange(items, h.variables)
    ensures ParseBody(s, At(s, d), h, Body(0, 0, [])).Ok? <==> Zeros(Lits(items)) == h.clauses && LastLit(Lits(items)) == 0
    ensures ParseBody(s, At(s, d), h, Body(0, 0, [])).Ok? ==>
              ParseBody(s, At(s, d), h, Body(0, 0, [])).value == Cnf(h.variables, h.clauses, Lits(items), |s|)
  {
    var b := Body(0, 0, []);
    if ParseBody(s, At(s, d), h, b).Ok? {
      ItemsOpen(s, d, h, b, items);
    }
    if Zeros(Lits(items)) == h.clauses && LastLit(Lits(items)) == 0 {
      OpenOfZeros(0, h.clauses, items);
    }
    if Open(0, h.clauses, items) {
      ItemsStep(s, d, h, b, items, |s|);
      AddAllOfEmpty(items);
      BodyAtEnd(s, h, AddAll(b, items));
    }
  }

  /** Literals within the maximum variable make items within it. */
  lemma {:induction false} InRangeOfLits(items: seq<Item>, variables: nat)
    requires forall i :: 0 <= i < |items| ==> Abs(Lits(items)[i]) <= variables
    ensures InRange(items, variables)
    decreases |items|
  {
    if |items| > 0 {
      assert Abs(Lits(items)[0]) <= variables;
      forall i | 0 <= i < |items| - 1
        ensures Abs(Lits(items[1..])[i]) <= variables
      {
        assert Lits(items)[i + 1] == items[i + 1].lit;
      }
      InRangeOfLits(items[1..], variables);
    }
  }

  /** A text that starts with a header text. */
  lemma HeaderInFront(v: nat, m: nat, t: seq<char>)
    ensures Occurs(HeaderText(v, m) + t, 0, HeaderText(v, m))
  {
    OccursAll(HeaderText(v, m) + t, 0, HeaderText(v, m));
  }

  /** The canonical layout sits right after the header text. */
  lemma LaidOutAfterHeader(v: nat, m: nat, lits: seq<int>, d: nat)
    requires d == |HeaderText(v, m)|
    ensures LaidOut(Emit(v, m, lits), d, Canonical(lits))
    ensures d + Width(Canonical(lits)) == |Emit(v, m, lits)|
  {
    var items := Canonical(lits);
    LaidOutOfLayout(items, []);
    assert Layout(items) + [] == Layout(items);
    LaidOutShift(HeaderText(v, m), Layout(items), 0, items, d);
  }

  /** The round trip: a file written in the canonical layout, with a header
      whose numbers fit and literals within the maximum variable, is
      accepted exactly when its zeros complete the specified clauses and
      its last literal is a zero, and then parses back to exactly its
      header and literals, having read every byte. */
  lemma EmitParses(v: nat, m: nat, lits: seq<int>)
    requires v <= INT_MAX && m <= SIZE_MAX
    requires forall i :: 0 <= i < |lits| ==> Abs(lits[i]) <= v
    ensures Parse(Emit(v, m, lits)).Ok? <==> Zeros(lits) == m && LastLit(lits) == 0
    ensures Parse(Emit(v, m, lits)).Ok? ==> Parse(Emit(v, m, lits)).value == Cnf(v, m, lits, |Emit(v, m, lits)|)
  {
    var s := Emit(v, m, lits);
    var items := Canonical(lits);
    var c := 7 + DigitCount(v);
    var d := c + 1 + DigitCount(m);
    HeaderInFront(v, m, Layout(items));
    HeaderParts(s, v, m);
    HeaderOfText(s, v, m, c, d);
    LaidOutAfterHeader(v, m, lits, d);
    InRangeOfLits(items, v);
    BodyOfLayout(s, d, Header(v, m), items);
  }
}
