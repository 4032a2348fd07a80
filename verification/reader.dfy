/** The character reader 'next' of the DIMACS parser: it delivers one
    character at a time, squeezes "\r\n" into "\n", and maintains the line
    number and the number of bytes read. */
module Reader {
  import opened Results
  import opened DimacsErrors

  /** Position in the input, the line number 'lineno' and the byte counter 'bytes'. */
  datatype Cursor = Cursor(pos: nat, line: int, bytes: nat)

  /** What 'next' returns: a character or EOF. */
  datatype Token = Eof | Char(c: char)

  datatype Step = Step(token: Token, cur: Cursor)

  /** Number of newline characters among the first p characters of s. */
  function NewlinesBefore(s: seq<char>, p: nat): nat
    requires p <= |s|
  {
    if p == 0 then 0 else NewlinesBefore(s, p - 1) + (if s[p - 1] == '\n' then 1 else 0)
  }

  /** line is a line number of the input s. */
  predicate LineIn(s: seq<char>, line: int) {
    1 <= line <= 1 + NewlinesBefore(s, |s|)
  }

  /** The counters agree with the consumed prefix s[..pos]: every consumed
      byte is counted and the line number is one plus the newlines read. */
  predicate Valid(s: seq<char>, c: Cursor) {
    && c.pos <= |s|
    && c.bytes == c.pos
    && c.line == 1 + NewlinesBefore(s, c.pos)
  }

  /** The one valid cursor at position p. */
  function At(s: seq<char>, p: nat): (c: Cursor)
    requires p <= |s|
    ensures Valid(s, c) && c.pos == p
  {
    Cursor(p, 1 + NewlinesBefore(s, p), p)
  }

  lemma {:induction false} NewlinesPrefix(s: seq<char>, i: nat, j: nat)
    requires i <= j <= |s|
    ensures NewlinesBefore(s, i) <= NewlinesBefore(s, j)
    decreases j - i
  {
    if i < j {
      NewlinesPrefix(s, i, j - 1);
    }
  }

  /** A valid cursor's line number is a line of the input. */
  lemma ValidLine(s: seq<char>, c: Cursor)
    requires Valid(s, c)
    ensures LineIn(s, c.line)
  {
    NewlinesPrefix(s, c.pos, |s|);
  }

  /** 'next': read one character; "\r\n" is delivered as a single '\n', a
      '\r' followed by anything else (or by EOF) is a parse error. */
  function Next(s: seq<char>, c: Cursor): (r: Result<Step, ParseError>)
    requires Valid(s, c)
    ensures r.Ok? ==> Valid(s, r.value.cur)
    ensures r.Ok? ==> r.value.cur.bytes - c.bytes == r.value.cur.pos - c.pos
    ensures r.Ok? ==> (r.value.token.Eof? <==> c.pos == |s|)
    ensures r.Ok? && r.value.token.Eof? ==> r.value.cur == c
    ensures r.Ok? && r.value.token.Char? ==>
              && c.pos < r.value.cur.pos <= c.pos + 2
              && r.value.token.c != '\r'
              && s[r.value.cur.pos - 1] == r.value.token.c
    ensures r.Ok? ==> r.value.cur.line == c.line + (if r.value.token == Char('\n') then 1 else 0)
    ensures c.pos < |s| && s[c.pos] != '\r' ==> r == Ok(Step(Char(s[c.pos]), At(s, c.pos + 1)))
    ensures c.pos + 1 < |s| && s[c.pos] == '\r' && s[c.pos + 1] == '\n' ==> r == Ok(Step(Char('\n'), At(s, c.pos + 2)))
    ensures r.Err? <==> c.pos < |s| && s[c.pos] == '\r' && (c.pos + 1 == |s| || s[c.pos + 1] != '\n')
    ensures r.Err? ==> r.error == ParseError(c.line, ExpectedNewlineAfterReturn) && LineIn(s, c.line)
  {
    if c.pos == |s| then
      Ok(Step(Eof, c))
    else if s[c.pos] == '\r' then
      if c.pos + 1 < |s| && s[c.pos + 1] == '\n' then
        Ok(Step(Char('\n'), Cursor(c.pos + 2, c.line + 1, c.bytes + 2)))
      else
        ValidLine(s, c);
        Err(ParseError(c.line, ExpectedNewlineAfterReturn))
    else
      Ok(Step(Char(s[c.pos]), Cursor(c.pos + 1, if s[c.pos] == '\n' then c.line + 1 else c.line, c.bytes + 1)))
  }
}
