/** The console's read loop: one call of getQuery reads physical lines until
    one of them ends the read, then returns the statements found in all the
    text read during that call. The line source is an in-memory sequence of
    lines; each element is one physical line without its line break. */
module Console {
  import opened Text
  import opened Scanner
  import opened Splitter

  /** The completion check: a line ends the read when its last character
      that is not white space is a semicolon. It looks at the raw line only,
      so a comment line ending in a semicolon ends the read, and so does a
      semicolon inside a literal left open at the end of the line, while
      `';'` (the quote after it) does not. */
  predicate EndsRead(line: string) {
    line != [] &&
    if IsBlank(line[|line| - 1]) then EndsRead(line[..|line| - 1])
    else line[|line| - 1] == Terminator
  }

  /** The same check in terms of Trim: the trimmed line ends with a
      semicolon. */
  lemma {:induction false} EndsReadTrimmed(line: string)
    ensures EndsRead(line) <==> (Trim(line) != [] && Trim(line)[|Trim(line)| - 1] == Terminator)
  {
    EndsReadRight(line);
    TrimEnd(line);
  }

  /** The check reads the line through TrimRight. */
  lemma {:induction false} EndsReadRight(line: string)
    ensures EndsRead(line) <==>
      (TrimRight(line) != [] && TrimRight(line)[|TrimRight(line)| - 1] == Terminator)
  {
    if line != [] && IsBlank(line[|line| - 1]) {
      EndsReadRight(line[..|line| - 1]);
    }
  }

  /** The check, stated without trimming: some semicolon in the line is
      followed by nothing but blanks. */
  lemma EndsReadIff(line: string)
    ensures EndsRead(line) <==>
      exists k | 0 <= k < |line| :: line[k] == Terminator && AllBlank(line[k + 1..])
  {
    EndsReadRight(line);
    var t := TrimRight(line);
    TrimRightShape(line);
    if EndsRead(line) {
      var k := |t| - 1;
      assert line[k] == t[k];
      assert line[k + 1..] == line[|t|..];
    }
    if exists k | 0 <= k < |line| :: line[k] == Terminator && AllBlank(line[k + 1..]) {
      var k :| 0 <= k < |line| && line[k] == Terminator && AllBlank(line[k + 1..]);
      assert !IsBlank(line[k]);
      assert k < |t|;
      assert k == |t| - 1;
    }
  }

  /** A line without any semicolon never ends the read. */
  lemma NoSemicolonNoEnd(line: string)
    requires Terminator !in line
    ensures !EndsRead(line)
  {
    EndsReadIff(line);
  }

  /** A line that ends the read without an unquoted semicolon leaves a
      literal open: its last semicolon is inside that literal. */
  lemma LastTerminatorQuoted(line: string)
    requires EndsRead(line) && !HasTerminator(line, false)
    ensures QuoteAfter(line, false)
  {
    EndsReadIff(line);
    var k :| 0 <= k < |line| && line[k] == Terminator && AllBlank(line[k + 1..]);
    var head, tail := line[..k], line[k + 1..];
    assert line == head + ([Terminator] + tail);
    ScanAppend(head, [Terminator] + tail, false);
    assert QuoteAfter(head, false);
    assert QuoteFree(tail);
    QuoteFreeScan(tail, true);
    assert ([Terminator] + tail)[1..] == tail;
  }

  /** A line with no unquoted semicolon that leaves no literal open never ends
      the read, even if it holds semicolons inside a literal: each of those is
      followed by the literal's closing quote. */
  lemma SealedLineNoEnd(line: string)
    requires Sealed(line)
    ensures !EndsRead(line)
  {
    if EndsRead(line) {
      LastTerminatorQuoted(line);
    }
  }

  /** The other side of reading the raw line: a line `q;`, where `q` has no
      unquoted semicolon and leaves a literal open, ends the read all the
      same, and comes back whole, trimmed, as the one statement. */
  lemma OpenLiteralEnds(q: string)
    requires NewLine !in q && !IsCommentLine(q + [Terminator])
    requires !HasTerminator(q, false) && QuoteAfter(q, false)
    ensures EndsRead(q + [Terminator])
    ensures Statements(q + [Terminator]) == [Trim(q + [Terminator])]
  {
    var line := q + [Terminator];
    assert line[|line| - 1] == Terminator;
    assert NewLine !in line;
    assert Join([line], NewLine) == line;
    StripCommentsKeepsCode([line]);
    ScanAppend(q, [Terminator], false);
    SplitWhole(line);
    KeepShape(line);
    assert !IsBlank(line[|line| - 1]);
  }

  /** One line `q;`, where `q` holds no unquoted semicolon and leaves no literal
      open, ends the read and yields exactly `q`, trimmed. */
  lemma OneLineOneStatement(q: string)
    requires NewLine !in q && !IsCommentLine(q + [Terminator])
    requires Sealed(q) && !AllBlank(q)
    ensures EndsRead(q + [Terminator])
    ensures Statements(Join([q + [Terminator]], NewLine)) == [Trim(q)]
  {
    var line := q + [Terminator];
    assert line[|line| - 1] == Terminator;
    assert NewLine !in line;
    TerminatedStatement([line], q);
  }

  /** What feeding one line gives: ask for more input, or the batch. */
  datatype Outcome = More | Batch(statements: seq<string>)

  /** The text read so far in one getQuery call. */
  class Reader {
    var pending: string
    var lineCount: nat
    /** The physical lines behind `pending`, none of which ended the read. */
    ghost var lines: seq<string>

    ghost predicate Valid()
      reads this
    {
      lineCount == |lines| &&
      pending == Join(lines, NewLine) &&
      forall k | 0 <= k < |lines| :: !EndsRead(lines[k])
    }

    constructor ()
      ensures Valid() && lines == []
    {
      pending := "";
      lineCount := 0;
      lines := [];
    }

    /** Appends the line to the pending text, after a line break if a line
        came before; if the line ends the read, returns the statements of the
        whole text and starts afresh. */
    method FeedLine(line: string) returns (outcome: Outcome)
      requires Valid()
      modifies this
      ensures Valid()
      ensures EndsRead(line) ==>
        outcome == Batch(Statements(Join(old(lines) + [line], NewLine))) && lines == []
      ensures !EndsRead(line) ==>
        outcome == More && lines == old(lines) + [line]
    {
      if lineCount == 0 {
        pending := line;
      } else {
        JoinSnoc(lines, line, NewLine);
        pending := pending + [NewLine] + line;
      }
      lineCount := lineCount + 1;
      lines := lines + [line];
      if EndsRead(line) {
        outcome := Batch(Statements(pending));
        pending, lineCount, lines := "", 0, [];
      } else {
        outcome := More;
      }
    }
  }

  /** The index of the first line of `input` that ends the read, or `|input|`
      when none does. */
  function EndIndex(input: seq<string>): (k: nat)
    ensures k <= |input|
    ensures k < |input| ==> EndsRead(input[k])
    ensures forall j | 0 <= j < k :: !EndsRead(input[j])
  {
    if input == [] then 0
    else if EndsRead(input[0]) then 0
    else 1 + EndIndex(input[1..])
  }

  /** What one getQuery(true) call gives for the lines `input`: the batch of
      statements in the lines up to and including the first one that ends the
      read, with the number of lines consumed, or `More` with every line
      consumed when no line ends it. */
  function Read(input: seq<string>): (Outcome, nat) {
    var k := EndIndex(input);
    if k < |input| then (Batch(Statements(Join(input[..k + 1], NewLine))), k + 1)
    else (More, |input|)
  }

  /** The read stops at the first line that ends it, and only there. */
  lemma ReadStopsAt(input: seq<string>, k: nat)
    requires k < |input| && EndsRead(input[k])
    requires forall j | 0 <= j < k :: !EndsRead(input[j])
    ensures Read(input) == (Batch(Statements(Join(input[..k + 1], NewLine))), k + 1)
  {
  }

  /** Lines that do not end the read, then one that does: the read takes
      them all. */
  lemma ReadEndsAtLast(lines: seq<string>, last: string)
    requires forall j | 0 <= j < |lines| :: !EndsRead(lines[j])
    requires EndsRead(last)
    ensures Read(lines + [last]) == (Batch(Statements(Join(lines + [last], NewLine))), |lines| + 1)
  {
    var input := lines + [last];
    forall j | 0 <= j < |lines| ensures !EndsRead(input[j]) {
      assert input[j] == lines[j];
    }
    ReadStopsAt(input, |lines|);
    assert input[..|lines| + 1] == input;
  }

  /** Input in which no line ends the read is consumed whole, with no batch. */
  lemma ReadRunsOut(input: seq<string>)
    requires forall j | 0 <= j < |input| :: !EndsRead(input[j])
    ensures Read(input) == (More, |input|)
  {
  }

  /** getQuery(true): reads lines from `input` until one ends the read and
      returns the batch together with the number of lines consumed, or `More`
      when the input runs out first. */
  method GetQuery(input: seq<string>) returns (outcome: Outcome, used: nat)
    ensures (outcome, used) == Read(input)
    ensures used <= |input|
    ensures outcome.Batch? ==>
      0 < used && EndsRead(input[used - 1]) &&
      (forall k | 0 <= k < used - 1 :: !EndsRead(input[k])) &&
      outcome.statements == Statements(Join(input[..used], NewLine))
    ensures outcome.More? ==>
      used == |input| && forall k | 0 <= k < |input| :: !EndsRead(input[k])
  {
    var reader := new Reader();
    used := 0;
    while used < |input|
      invariant used <= |input|
      invariant reader.Valid() && reader.lines == input[..used]
      invariant forall k | 0 <= k < used :: !EndsRead(input[k])
    {
      var line := input[used];
      assert input[..used + 1] == input[..used] + [line];
      outcome := reader.FeedLine(line);
      used := used + 1;
      if outcome.Batch? {
        ReadStopsAt(input, used - 1);
        return;
      }
    }
    ReadRunsOut(input);
    outcome := More;
  }
}
