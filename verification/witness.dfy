/** The printer of satisfying assignments: ' %d' renderings of the
    values are collected in a line buffer and written out as 'v' lines of
    at most 78 characters. */
module Witness {
  import opened Limits
  import opened Digits

  /** The buffer's contents ('size_buffer' characters of 'buffer') and the
      lines written so far, each without its newline. */
  datatype Printer = Printer(buffer: seq<char>, lines: seq<seq<char>>)

  /** The state before the first value. */
  const Start := Printer([], [])

  /** 'sizeof buffer'. */
  const BufferSize := 80

  /** The most characters the buffer may hold, leaving one for the 'v'
      of a 78-character line. */
  const Room := 77

  /** ' %d': a blank and the decimal rendering of lit. */
  function Token(lit: int): seq<char> {
    [' '] + Render(lit)
  }

  /** 'flush_printed_values': an empty buffer writes nothing; otherwise
      the buffer is written after a 'v' as one line and emptied. */
  function Flush(p: Printer): (r: Printer)
    requires |p.buffer| + 1 < BufferSize
    ensures |r.buffer| == 0
  {
    if |p.buffer| == 0 then p else Printer([], p.lines + [['v'] + p.buffer])
  }

  /** 'print_value': the line is flushed first when the rendering would
      not fit the room left, then the rendering is appended. */
  function PrintValue(p: Printer, lit: int): (r: Printer)
    requires IsInt(lit) && |p.buffer| <= Room
    ensures |r.buffer| <= Room
  {
    var tmp := Token(lit);
    RenderLength(lit);
    var q := if |p.buffer| + |tmp| > Room then Flush(p) else p;
    Printer(q.buffer + tmp, q.lines)
  }

  predicate AllInts(values: seq<int>) {
    forall i :: 0 <= i < |values| ==> IsInt(values[i])
  }

  /** print_value called on each of values in turn. */
  function PrintAll(p: Printer, values: seq<int>): (r: Printer)
    requires AllInts(values) && |p.buffer| <= Room
    ensures |r.buffer| <= Room
    decreases |values|
  {
    if |values| == 0 then p
    else PrintValue(PrintAll(p, values[..|values| - 1]), values[|values| - 1])
  }

  /** The witness of main: the value of every variable, the terminating
      0, and a final flush. */
  function PrintWitness(values: seq<int>): (r: Printer)
    requires AllInts(values)
  {
    assert AllInts(values + [0]);
    Flush(PrintAll(Start, values + [0]))
  }

  /** The renderings of values, one after another. */
  function Tokens(values: seq<int>): seq<char>
    decreases |values|
  {
    if |values| == 0 then [] else Tokens(values[..|values| - 1]) + Token(values[|values| - 1])
  }

  /** The written lines without their 'v' prefixes, one after another. */
  function Content(lines: seq<seq<char>>): seq<char>
    decreases |lines|
  {
    if |lines| == 0 then []
    else Content(lines[..|lines| - 1]) + (var l := lines[|lines| - 1]; if |l| == 0 then [] else l[1..])
  }

  /** Everything printed so far, written or still buffered, without the
      'v' prefixes. */
  function Text(p: Printer): seq<char> {
    Content(p.lines) + p.buffer
  }

  /** A written line: a 'v', then one or more renderings, at most 78
      characters in all. */
  predicate GoodLine(line: seq<char>) {
    2 <= |line| <= Room + 1 && line[0] == 'v' && line[1] == ' '
  }

  /** What holds between calls: the buffer fits the room and starts with
      a rendering's blank, every line written is a good line. */
  predicate Inv(p: Printer) {
    && |p.buffer| <= Room
    && (|p.buffer| > 0 ==> p.buffer[0] == ' ')
    && forall i :: 0 <= i < |p.lines| ==> GoodLine(p.lines[i])
  }

  /** Flushing loses no character. */
  lemma FlushText(p: Printer)
    requires |p.buffer| + 1 < BufferSize
    ensures Text(Flush(p)) == Text(p)
  {
    if |p.buffer| > 0 {
      var lines := p.lines + [['v'] + p.buffer];
      assert lines[..|lines| - 1] == p.lines;
      assert Content(lines) == Content(p.lines) + p.buffer;
    }
  }

  /** Flushing keeps the invariant and writes a line exactly when the
      buffer holds something. */
  lemma FlushKeeps(p: Printer)
    requires Inv(p)
    ensures Inv(Flush(p))
    ensures |Flush(p).lines| == |p.lines| + (if |p.buffer| == 0 then 0 else 1)
  {
  }

  /** print_value adds exactly its rendering to the text printed. */
  lemma PrintValueText(p: Printer, lit: int)
    requires |p.buffer| <= Room && IsInt(lit)
    ensures Text(PrintValue(p, lit)) == Text(p) + Token(lit)
  {
    RenderLength(lit);
    var tmp := Token(lit);
    var q := if |p.buffer| + |tmp| > Room then Flush(p) else p;
    FlushText(p);
    assert Text(q) == Text(p);
    Regroup(Content(q.lines), q.buffer, tmp);
  }

  /** print_value keeps the invariant. */
  lemma PrintValueKeeps(p: Printer, lit: int)
    requires Inv(p) && IsInt(lit)
    ensures Inv(PrintValue(p, lit))
  {
    RenderLength(lit);
    var tmp := Token(lit);
    if |p.buffer| + |tmp| > Room {
      FlushKeeps(p);
    }
  }

  /** A line is written only when the next rendering would not fit: the
      lines are as long as print_value can make them. */
  lemma PrintValueFlushes(p: Printer, lit: int)
    requires Inv(p) && IsInt(lit)
    ensures |PrintValue(p, lit).lines| > |p.lines| <==> |p.buffer| + |Token(lit)| > Room
    ensures |PrintValue(p, lit).lines| > |p.lines| ==> |PrintValue(p, lit).lines| == |p.lines| + 1
  {
    RenderLength(lit);
    if |p.buffer| + |Token(lit)| > Room {
      FlushKeeps(p);
    }
  }

  /** Printing a run of values adds their renderings in order. */
  lemma {:induction false} PrintAllText(p: Printer, values: seq<int>)
    requires |p.buffer| <= Room && AllInts(values)
    ensures Text(PrintAll(p, values)) == Text(p) + Tokens(values)
    decreases |values|
  {
    if |values| == 0 {
      assert Text(p) + [] == Text(p);
    } else {
      var init := values[..|values| - 1];
      var x := values[|values| - 1];
      assert AllInts(init);
      PrintAllText(p, init);
      PrintValueText(PrintAll(p, init), x);
      assert Tokens(values) == Tokens(init) + Token(x);
      Regroup(Text(p), Tokens(init), Token(x));
    }
  }

  /** Printing a run of values keeps the invariant. */
  lemma {:induction false} PrintAllKeeps(p: Printer, values: seq<int>)
    requires Inv(p) && AllInts(values)
    ensures Inv(PrintAll(p, values))
    decreases |values|
  {
    if |values| > 0 {
      var init := values[..|values| - 1];
      assert AllInts(init);
      PrintAllKeeps(p, init);
      PrintValueKeeps(PrintAll(p, init), values[|values| - 1]);
    }
  }

  /** The witness: every line is a 'v' line of at most 78 characters, the
      buffer is left empty, and the lines without their 'v' prefixes
      spell exactly ' %d' of every value and then ' 0'. */
  lemma WitnessLines(values: seq<int>)
    requires AllInts(values)
    ensures PrintWitness(values).buffer == []
    ensures forall i :: 0 <= i < |PrintWitness(values).lines| ==> GoodLine(PrintWitness(values).lines[i])
    ensures Content(PrintWitness(values).lines) == Tokens(values) + " 0"
    ensures |PrintWitness(values).lines| > 0
  {
    var all := values + [0];
    assert AllInts(all);
    var p := PrintAll(Start, all);
    WitnessKeeps(all, p);
    WitnessText(values, all, p);
  }

  /** The final flush after printing all values leaves good lines only. */
  lemma WitnessKeeps(all: seq<int>, p: Printer)
    requires AllInts(all) && p == PrintAll(Start, all)
    ensures Inv(Flush(p))
  {
    PrintAllKeeps(Start, all);
    FlushKeeps(p);
  }

  /** The final flush after printing all values leaves their renderings in
      the lines. */
  lemma WitnessText(values: seq<int>, all: seq<int>, p: Printer)
    requires all == values + [0] && AllInts(all) && p == PrintAll(Start, all)
    ensures Content(Flush(p).lines) == Tokens(values) + " 0"
    ensures |Flush(p).lines| > 0
  {
    var q := Flush(p);
    PrintAllText(Start, all);
    assert Text(Start) == [];
    assert Text(p) == Tokens(all);
    FlushText(p);
    assert q.buffer == [];
    assert Text(q) == Content(q.lines) + [];
    assert Content(q.lines) == Tokens(all);
    TokensOfWitness(values);
    assert |Content(q.lines)| > 0;
  }

  /** The renderings of the values and the terminating 0. */
  lemma TokensOfWitness(values: seq<int>)
    ensures Tokens(values + [0]) == Tokens(values) + " 0"
  {
    var all := values + [0];
    assert all[..|all| - 1] == values;
    assert Render(0) == "0";
  }
}
