/** The statement splitter: from the text the console has read (physical lines
    joined by line breaks) to the list of statements it hands on. Lines that
    begin with a double dash are dropped whole; the rest is cut at every
    semicolon outside a single-quoted literal; each piece is trimmed; empty
    pieces are dropped. */
module Splitter {
  import opened Text
  import opened Scanner

  const NewLine := '\n'

  /** A whole-line comment: the physical line starts with `--`. */
  predicate IsCommentLine(line: string) {
    |line| >= 2 && line[0] == '-' && line[1] == '-'
  }

  /** The lines that are not whole-line comments, in their order. */
  function DropCommentLines(lines: seq<string>): (r: seq<string>)
    ensures |r| <= |lines|
    ensures forall k | 0 <= k < |r| :: !IsCommentLine(r[k])
    ensures (forall k | 0 <= k < |lines| :: !IsCommentLine(lines[k])) ==> r == lines
  {
    if lines == [] then []
    else
      var rest := DropCommentLines(lines[1..]);
      if IsCommentLine(lines[0]) then rest
      else
        assert [lines[0]] + lines[1..] == lines;
        [lines[0]] + rest
  }

  /** The text with its whole-line comments taken out. */
  function StripComments(text: string): string {
    Join(DropCommentLines(SplitOn(text, NewLine)), NewLine)
  }

  /** The non-empty trimmed form of one piece, if it has one. */
  function Keep(piece: string): seq<string> {
    var t := Trim(piece);
    if t == [] then [] else [t]
  }

  /** A piece is kept exactly when it is not blank, and then trimmed. */
  lemma KeepShape(piece: string)
    ensures |Keep(piece)| <= 1
    ensures Keep(piece) == [] <==> AllBlank(piece)
    ensures Keep(piece) != [] ==> Keep(piece) == [Trim(piece)] && Trimmed(Keep(piece)[0])
  {
    TrimShape(piece);
  }

  /** The pieces trimmed, the empty ones dropped, the order kept. */
  function Tidy(pieces: seq<string>): seq<string> {
    if pieces == [] then [] else Keep(pieces[0]) + Tidy(pieces[1..])
  }

  /** No more statements than pieces, and every one of them trimmed and not
      empty. */
  lemma {:induction false} TidyTrimmed(pieces: seq<string>)
    ensures |Tidy(pieces)| <= |pieces|
    ensures forall k | 0 <= k < |Tidy(pieces)| :: Trimmed(Tidy(pieces)[k])
  {
    if pieces != [] {
      KeepShape(pieces[0]);
      TidyTrimmed(pieces[1..]);
      var r := Tidy(pieces);
      var rest := Tidy(pieces[1..]);
      forall k | 0 <= k < |r| ensures Trimmed(r[k]) {
        if k >= |Keep(pieces[0])| { assert r[k] == rest[k - |Keep(pieces[0])|]; }
      }
    }
  }

  /** Cut, trim, drop the empty pieces. */
  function Split(text: string): seq<string> {
    Tidy(Pieces(text, false))
  }

  /** What the console returns for the text it has read. */
  function Statements(text: string): seq<string> {
    Split(StripComments(text))
  }

  /** Every statement returned is non-empty and already trimmed. */
  lemma StatementsTrimmed(text: string)
    ensures forall k | 0 <= k < |Statements(text)| :: Trimmed(Statements(text)[k])
  {
    TidyTrimmed(Pieces(StripComments(text), false));
  }

  lemma {:induction false} TidyAppend(a: seq<string>, b: seq<string>)
    ensures Tidy(a + b) == Tidy(a) + Tidy(b)
  {
    if a == [] {
      assert a + b == b;
    } else {
      assert (a + b)[0] == a[0] && (a + b)[1..] == a[1..] + b;
      TidyAppend(a[1..], b);
    }
  }

  /** Stripping comments twice strips nothing more. */
  lemma StripCommentsIdempotent(text: string)
    ensures StripComments(StripComments(text)) == StripComments(text)
  {
    var kept := DropCommentLines(SplitOn(text, NewLine));
    SplitOnParts(text, NewLine);
    if kept == [] {
      assert StripComments(text) == "";
      assert SplitOn("", NewLine) == [""];
    } else {
      assert forall k | 0 <= k < |kept| :: NewLine !in kept[k] by {
        DropCommentLinesFrom(SplitOn(text, NewLine));
      }
      SplitOnJoin(kept, NewLine);
    }
  }

  /** A single line is dropped exactly when it is a comment line. */
  lemma DropCommentLine(line: string)
    ensures DropCommentLines([line]) == if IsCommentLine(line) then [] else [line]
  {
    assert [line][1..] == [];
  }

  /** Comment dropping works line by line: the kept lines of a concatenation
      are the kept lines of each part, in order. With DropCommentLine this
      determines the result for every input. */
  lemma {:induction false} DropCommentLinesAppend(a: seq<string>, b: seq<string>)
    ensures DropCommentLines(a + b) == DropCommentLines(a) + DropCommentLines(b)
  {
    if a == [] {
      assert a + b == b;
    } else {
      assert (a + b)[0] == a[0] && (a + b)[1..] == a[1..] + b;
      DropCommentLinesAppend(a[1..], b);
    }
  }

  /** Every line that survives comment dropping is one of the original lines. */
  lemma {:induction false} DropCommentLinesFrom(lines: seq<string>)
    ensures forall k | 0 <= k < |DropCommentLines(lines)| :: DropCommentLines(lines)[k] in lines
  {
    if lines != [] {
      DropCommentLinesFrom(lines[1..]);
      var rest := DropCommentLines(lines[1..]);
      forall k | 0 <= k < |rest| ensures rest[k] in lines {
        assert rest[k] in lines[1..];
      }
    }
  }

  /** Text whose lines are all code comes through comment stripping unchanged. */
  lemma StripCommentsKeepsCode(lines: seq<string>)
    requires |lines| >= 1
    requires forall k | 0 <= k < |lines| :: NewLine !in lines[k] && !IsCommentLine(lines[k])
    ensures StripComments(Join(lines, NewLine)) == Join(lines, NewLine)
  {
    SplitOnJoin(lines, NewLine);
  }

  /** A physical line that starts with `--` yields no statement, whatever
      semicolons or statement text follow on it. */
  lemma CommentLineVanishes(line: string)
    requires NewLine !in line && IsCommentLine(line)
    ensures Statements(line) == []
  {
    SplitOnNoSep(line, NewLine);
    assert DropCommentLines([line]) == [];
    assert StripComments(line) == "";
    assert Pieces("", false) == [""];
    assert AllBlank("");
  }

  /** An unquoted terminator after a sealed stretch ends exactly one statement,
      the stretch trimmed (or none, if it is blank); what follows is split on
      its own. */
  lemma SplitCut(a: string, b: string)
    requires Sealed(a)
    ensures Split(a + [Terminator] + b) == Keep(a) + Split(b)
  {
    PiecesCut(a, b, false);
    TidyAppend([a], Pieces(b, false));
  }

  /** Empty text holds no statement. */
  lemma SplitEmpty()
    ensures Split("") == []
  {
    assert Pieces("", false) == [""];
    assert AllBlank("");
  }

  /** A sealed stretch closed by a terminator is at most one statement. */
  lemma SplitLast(a: string)
    requires Sealed(a)
    ensures Split(a + [Terminator]) == Keep(a)
  {
    SplitCut(a, "");
    assert a + [Terminator] + "" == a + [Terminator];
    SplitEmpty();
  }

  /** A trimmed statement with blanks around it is kept as the statement. */
  lemma KeepAround(pre: string, q: string, post: string)
    requires AllBlank(pre) && AllBlank(post) && Trimmed(q)
    ensures Keep(pre + q + post) == [q]
  {
    TrimUnique(pre, q, post);
    assert !AllBlank(pre + q + post) by { assert (pre + q + post)[|pre|] == q[0]; }
  }

  /** Text without an unquoted terminator is one statement at most. */
  lemma SplitWhole(a: string)
    requires !HasTerminator(a, false)
    ensures Split(a) == Keep(a)
  {
    SinglePieceIff(a, false);
    assert Tidy([a]) == Keep(a) + Tidy([]);
  }

  /** Runs of semicolons, with or without blanks between them, add nothing. */
  lemma BlankPieceDropped(gap: string, b: string)
    requires AllBlank(gap)
    ensures Split(gap + [Terminator] + b) == Split(b)
  {
    assert Plain(gap) by {
      forall i | 0 <= i < |gap| ensures gap[i] != Terminator && gap[i] != Quote {
        assert IsBlank(gap[i]);
      }
    }
    PlainSealed(gap);
    SplitCut(gap, b);
    KeepShape(gap);
  }

  /** Text made only of blanks and semicolons, closed by a semicolon, adds
      no statement, whatever blanks come before it. */
  lemma {:induction false} GapDropped(pre: string, gap: string, b: string)
    requires AllBlank(pre)
    requires forall i | 0 <= i < |gap| :: IsBlank(gap[i]) || gap[i] == Terminator
    ensures Split(pre + gap + [Terminator] + b) == Split(b)
    decreases |gap|
  {
    if gap == [] {
      assert pre + gap + [Terminator] + b == pre + [Terminator] + b;
      BlankPieceDropped(pre, b);
    } else if gap[0] == Terminator {
      var rest := gap[1..] + [Terminator] + b;
      assert pre + gap + [Terminator] + b == pre + [Terminator] + rest;
      BlankPieceDropped(pre, rest);
      assert "" + gap[1..] + [Terminator] + b == rest;
      GapDropped("", gap[1..], b);
    } else {
      var longer := pre + [gap[0]];
      assert pre + gap + [Terminator] + b == longer + gap[1..] + [Terminator] + b;
      GapDropped(longer, gap[1..], b);
    }
  }

  /** Equal texts split alike; stated on its own so that proving the texts
      equal stays apart from reasoning about their pieces. */
  lemma SameText(x: string, y: string)
    requires x == y
    ensures Split(x) == Split(y)
  {
  }

  /** Lines of code whose text is one sealed stretch followed by a single
      terminator yield exactly that stretch, trimmed. */
  lemma TerminatedStatement(lines: seq<string>, a: string)
    requires |lines| >= 1
    requires forall k | 0 <= k < |lines| :: NewLine !in lines[k] && !IsCommentLine(lines[k])
    requires Join(lines, NewLine) == a + [Terminator]
    requires Sealed(a) && !AllBlank(a)
    ensures Statements(Join(lines, NewLine)) == [Trim(a)]
  {
    StripCommentsKeepsCode(lines);
    SplitLast(a);
    KeepShape(a);
  }

  lemma {:induction false} JoinPlain(lines: seq<string>)
    requires forall k | 0 <= k < |lines| :: Plain(lines[k])
    ensures Plain(Join(lines, NewLine))
  {
    if |lines| >= 2 {
      JoinPlain(lines[1..]);
      var rest := Join(lines[1..], NewLine);
      var s := lines[0] + [NewLine] + rest;
      forall i | 0 <= i < |s| ensures s[i] != Terminator && s[i] != Quote {
        if i < |lines[0]| {
          assert s[i] == lines[0][i];
        } else if i > |lines[0]| {
          assert s[i] == rest[i - |lines[0]| - 1];
        }
      }
    }
  }

  /** Every line of `lines + [last]` is a line of code if every one of `lines`
      and `last` is. */
  lemma CodeLinesSnoc(lines: seq<string>, last: string)
    requires forall k | 0 <= k < |lines| :: NewLine !in lines[k] && !IsCommentLine(lines[k])
    requires NewLine !in last && !IsCommentLine(last)
    ensures forall k | 0 <= k < |lines + [last]| ::
      NewLine !in (lines + [last])[k] && !IsCommentLine((lines + [last])[k])
  {
    var all := lines + [last];
    forall k | 0 <= k < |all| ensures NewLine !in all[k] && !IsCommentLine(all[k]) {
      if k < |lines| { assert all[k] == lines[k]; } else { assert all[k] == last; }
    }
  }

  /** A line break added to plain, non-blank text keeps it plain and non-blank. */
  lemma PlainBreak(body: string)
    requires Plain(body) && !AllBlank(body)
    ensures Plain(body + [NewLine]) && !AllBlank(body + [NewLine])
  {
    var a := body + [NewLine];
    forall i | 0 <= i < |a| ensures a[i] != Terminator && a[i] != Quote {
      if i < |body| { assert a[i] == body[i]; }
    }
    var j :| 0 <= j < |body| && !IsBlank(body[j]);
    assert a[j] == body[j];
  }

  /** Plain, non-blank text followed by a line break and `;` is one statement. */
  lemma PlainBodyStatement(body: string)
    requires Plain(body) && !AllBlank(body)
    ensures Split(body + [NewLine] + [Terminator]) == [Trim(body)]
  {
    var a := body + [NewLine];
    PlainBreak(body);
    PlainSealed(a);
    SplitLast(a);
    KeepShape(a);
    TrimBlankSuffix(body, [NewLine]);
  }

  /** Lines without semicolons or quotes, closed by a line holding only `;`,
      come back as one statement: their text joined by line breaks, trimmed. */
  lemma ClosedByLoneSemicolon(lines: seq<string>)
    requires |lines| >= 1
    requires forall k | 0 <= k < |lines| ::
      Plain(lines[k]) && NewLine !in lines[k] && !IsCommentLine(lines[k])
    requires !AllBlank(Join(lines, NewLine))
    ensures Statements(Join(lines + [[Terminator]], NewLine)) == [Trim(Join(lines, NewLine))]
  {
    var body := Join(lines, NewLine);
    var all := lines + [[Terminator]];
    assert Plain(body) by { JoinPlain(lines); }
    assert StripComments(Join(all, NewLine)) == Join(all, NewLine) by {
      CodeLinesSnoc(lines, [Terminator]);
      StripCommentsKeepsCode(all);
    }
    assert Join(all, NewLine) == body + [NewLine] + [Terminator] by {
      JoinSnoc(lines, [Terminator], NewLine);
    }
    PlainBodyStatement(body);
  }
}
