/** The interactive parser's test scenarios, stated and proved over the
    model. Every call of getQuery starts a fresh reader and is given the
    physical lines the test types, each without its line break; text typed
    without a line break is part of the line that the next break completes. Each scenario is first
    proved for any text of its shape, then for the test's own text, which is
    written as a concatenation of short pieces. */
module Scenarios {
  import opened Text
  import opened Scanner
  import opened Splitter
  import opened Console

  /** Statement text with no semicolon, quote or line break. */
  predicate Code(s: string) {
    forall i | 0 <= i < |s| :: s[i] != Terminator && s[i] != Quote && s[i] != NewLine
  }

  /** A quoted literal as typed, quotes included, holding no other quote and
      no line break; it may hold semicolons. */
  predicate QuotedLiteral(s: string) {
    |s| >= 2 && s[0] == Quote && s[|s| - 1] == Quote &&
    forall i | 1 <= i < |s| - 1 :: s[i] != Quote && s[i] != NewLine
  }

  lemma CodeAppend(a: string, b: string)
    requires Code(a) && Code(b)
    ensures Code(a + b)
  {
    forall i | 0 <= i < |a + b|
      ensures (a + b)[i] != Terminator && (a + b)[i] != Quote && (a + b)[i] != NewLine
    {
      if i < |a| { assert (a + b)[i] == a[i]; } else { assert (a + b)[i] == b[i - |a|]; }
    }
  }

  lemma CodeSealed(s: string)
    requires Code(s)
    ensures Plain(s) && Sealed(s) && NewLine !in s
  {
    assert Plain(s);
    PlainSealed(s);
  }

  lemma QuotedLiteralSealed(pre: string, q: string, post: string)
    requires Code(pre) && QuotedLiteral(q) && Sealed(post) && NewLine !in post
    ensures Sealed(pre + q + post) && NewLine !in pre + q + post
  {
    var inner := q[1..|q| - 1];
    assert q == [Quote] + inner + [Quote];
    assert QuoteFree(inner);
    CodeSealed(pre);
    QuotedSealed(pre, inner, post);
    assert pre + q + post == pre + [Quote] + inner + [Quote] + post;
  }

  /** The line `a;` where `a` is one trimmed, sealed statement: one getQuery
      call reads that line and returns exactly `a`. */
  lemma SealedLine(a: string)
    requires Sealed(a) && NewLine !in a && Trimmed(a) && !IsCommentLine(a)
    ensures Read([a + ";"]) == (Batch([a]), 1)
  {
    var line := a + [Terminator];
    assert !AllBlank(a) by { assert !IsBlank(a[0]); }
    assert !IsCommentLine(line) by {
      assert line[0] == a[0];
      if |a| >= 2 { assert line[1] == a[1]; }
    }
    OneLineOneStatement(a);
    TrimmedFixed(a);
    ReadStopsAt([line], 0);
    assert [line][..1] == [line];
  }

  /** A one-line statement without literals, typed with its semicolon. */
  lemma PlainLine(a: string)
    requires Code(a) && Trimmed(a) && !IsCommentLine(a)
    ensures Read([a + ";"]) == (Batch([a]), 1)
  {
    CodeSealed(a);
    SealedLine(a);
  }

  /** A one-line statement with one quoted literal. */
  lemma QuotedLine(pre: string, literal: string, post: string)
    requires Code(pre) && QuotedLiteral(literal) && Code(post)
    requires Trimmed(pre + literal + post) && !IsCommentLine(pre + literal + post)
    ensures Read([pre + literal + post + ";"]) == (Batch([pre + literal + post]), 1)
  {
    CodeSealed(post);
    QuotedLiteralSealed(pre, literal, post);
    SealedLine(pre + literal + post);
  }

  /** A one-line statement with two quoted literals. */
  lemma TwiceQuotedLine(pre: string, first: string, mid: string, second: string, post: string)
    requires Code(pre) && QuotedLiteral(first) && Code(mid) && QuotedLiteral(second) && Code(post)
    requires Trimmed(pre + first + mid + second + post)
    requires !IsCommentLine(pre + first + mid + second + post)
    ensures Read([pre + first + mid + second + post + ";"]) ==
      (Batch([pre + first + mid + second + post]), 1)
  {
    CodeSealed(post);
    QuotedLiteralSealed(mid, second, post);
    QuotedLiteralSealed(pre, first, mid + second + post);
    assert pre + first + mid + second + post == pre + first + (mid + second + post);
    SealedLine(pre + first + mid + second + post);
  }

  /** The last statement of the line, after a blank. */
  lemma LastAfterBlank(q: string)
    requires Code(q) && Trimmed(q)
    ensures Split(" " + q + ";") == [q]
  {
    assert Split(" " + q + ";") == Keep(" " + q) by {
      CodeAppend(" ", q);
      CodeSealed(" " + q);
      SplitLast(" " + q);
    }
    assert Keep(" " + q) == [q] by {
      assert " " + q + "" == " " + q;
      KeepAround(" ", q, "");
    }
  }

  /** Where the semicolons of the separation test's line fall. Stated on its
      own: proved next to the splitting facts, these equalities cost the
      solver an order of magnitude more. */
  lemma RunLayout(q2: string, q3: string)
    ensures q2 + " ;;  ; ;   ; " + q3 + ";" ==
      (q2 + " ") + [Terminator] + (";  ; ;   " + [Terminator] + (" " + q3 + ";"))
    ensures "" + ";  ; ;   " + [Terminator] + (" " + q3 + ";") ==
      ";  ; ;   " + [Terminator] + (" " + q3 + ";")
  {
  }

  /** The second statement, its trailing blank trimmed, then the run of
      semicolons, which adds nothing, then the last statement. */
  lemma SecondBeforeRun(q2: string, q3: string)
    requires Code(q2) && Trimmed(q2) && Code(q3) && Trimmed(q3)
    ensures Split(q2 + " ;;  ; ;   ; " + q3 + ";") == [q2, q3]
  {
    var b := " " + q3 + ";";
    var r2 := ";  ; ;   " + [Terminator] + b;
    RunLayout(q2, q3);
    SameText(q2 + " ;;  ; ;   ; " + q3 + ";", (q2 + " ") + [Terminator] + r2);
    assert Split(r2) == Split(b) by {
      SameText("" + ";  ; ;   " + [Terminator] + b, r2);
      GapDropped("", ";  ; ;   ", b);
    }
    assert Split(b) == [q3] by { LastAfterBlank(q3); }
    assert Split((q2 + " ") + [Terminator] + r2) == Keep(q2 + " ") + Split(r2) by {
      CodeAppend(q2, " ");
      CodeSealed(q2 + " ");
      SplitCut(q2 + " ", r2);
    }
    assert Keep(q2 + " ") == [q2] by {
      assert "" + q2 + " " == q2 + " ";
      KeepAround("", q2, " ");
    }
  }

  /** The line of the semicolon-separation test, for any three statements. */
  lemma SeparatedStatements(q1: string, q2: string, q3: string)
    requires Code(q1) && Code(q2) && Code(q3)
    requires Trimmed(q1) && Trimmed(q2) && Trimmed(q3) && !IsCommentLine(q1)
    ensures Statements(q1 + ";" + q2 + " ;;  ; ;   ; " + q3 + ";") == [q1, q2, q3]
  {
    var line := q1 + ";" + q2 + " ;;  ; ;   ; " + q3 + ";";
    var r1 := q2 + " ;;  ; ;   ; " + q3 + ";";
    assert line == q1 + [Terminator] + r1;
    SecondBeforeRun(q2, q3);
    CodeSealed(q1);
    SplitCut(q1, r1);
    TrimmedFixed(q1);
    assert NewLine !in line && !IsCommentLine(line) by {
      CodeSealed(q2);
      CodeSealed(q3);
      assert line[0] == q1[0];
      if |q1| >= 2 { assert line[1] == q1[1]; }
    }
    StripCommentsKeepsCode([line]);
  }

  /** One line holding three statements, the second followed by a run of
      semicolons with blanks between them: the three statements, and nothing
      for the empty pieces. */
  lemma SeparatedRun(q1: string, q2: string, q3: string)
    requires Code(q1) && Code(q2) && Code(q3)
    requires Trimmed(q1) && Trimmed(q2) && Trimmed(q3) && !IsCommentLine(q1)
    ensures Read([q1 + ";" + q2 + " ;;  ; ;   ; " + q3 + ";"]) == (Batch([q1, q2, q3]), 1)
  {
    var line := q1 + ";" + q2 + " ;;  ; ;   ; " + q3 + ";";
    SeparatedStatements(q1, q2, q3);
    assert line[|line| - 1] == Terminator;
    ReadStopsAt([line], 0);
    assert [line][..1] == [line];
  }

  /** One line that starts with a double dash and ends with a semicolon: the
      read ends, and there is no statement at all, whatever the line holds. */
  lemma CommentedOutRun(comment: string, rest: string)
    requires IsCommentLine(comment) && NewLine !in comment && NewLine !in rest
    requires rest != [] && rest[|rest| - 1] == Terminator
    ensures Read([comment + rest]) == (Batch([]), 1)
  {
    var line := comment + rest;
    assert EndsRead(line) by { assert line[|line| - 1] == Terminator; }
    assert Statements(Join([line], NewLine)) == [] by {
      assert NewLine !in line && IsCommentLine(line) by {
        assert line[0] == comment[0] && line[1] == comment[1];
      }
      CommentLineVanishes(line);
      assert Join([line], NewLine) == line;
    }
    ReadStopsAt([line], 0);
    assert [line][..1] == [line];
  }

  /** A statement, then on the same line text that is not blank and holds
      no semicolon or quote, then a semicolon: two pieces, the first the
      statement as typed. */
  lemma SplitStatementThenText(q: string, c: string)
    requires Code(q) && Trimmed(q) && Code(c)
    ensures Split(q + ";" + c + ";") == [q] + Keep(c)
  {
    var line := q + ";" + c + ";";
    assert Split(c + ";") == Keep(c) by {
      CodeSealed(c);
      SplitLast(c);
    }
    assert Split(line) == Keep(q) + Split(c + ";") by {
      CodeSealed(q);
      SplitCut(q, c + ";");
      assert line == q + [Terminator] + (c + ";");
    }
    assert Keep(q) == [q] by {
      assert "" + q + "" == q;
      KeepAround("", q, "");
    }
  }

  /** The same line, whole: comment stripping leaves it alone, so there are
      two statements, the first as typed. */
  lemma StatementThenText(q: string, c: string)
    requires Code(q) && Trimmed(q) && !IsCommentLine(q) && Code(c) && !AllBlank(c)
    ensures |Statements(q + ";" + c + ";")| == 2
    ensures Statements(q + ";" + c + ";")[0] == q
  {
    var line := q + ";" + c + ";";
    SplitStatementThenText(q, c);
    KeepShape(c);
    assert StripComments(line) == line by {
      CodeSealed(q);
      CodeSealed(c);
      assert line[0] == q[0];
      if |q| >= 2 { assert line[1] == q[1]; }
      StripCommentsKeepsCode([line]);
    }
  }

  /** A statement, then on the same line a double dash that does not start the
      line: the read ends with two statements, the first as typed. */
  lemma CommentAfterRun(q: string, c: string)
    requires Code(q) && Trimmed(q) && !IsCommentLine(q) && Code(c) && !AllBlank(c)
    ensures Read([q + ";" + c + ";"]).1 == 1 && Read([q + ";" + c + ";"]).0.Batch?
    ensures |Read([q + ";" + c + ";"]).0.statements| == 2
    ensures Read([q + ";" + c + ";"]).0.statements[0] == q
  {
    var line := q + ";" + c + ";";
    StatementThenText(q, c);
    assert line[|line| - 1] == Terminator;
    ReadStopsAt([line], 0);
    assert [line][..1] == [line];
    assert Join([line], NewLine) == line;
  }

  /** The text of a statement broken over four lines, with a literal at the
      end of the third, is one sealed stretch. */
  lemma FourLineSealed(first: string, second: string, third: string, literal: string, last: string)
    requires Code(first) && Code(second) && Code(third) && QuotedLiteral(literal) && Code(last)
    ensures Sealed(first + "\n" + second + "\n" + third + literal + "\n" + last)
  {
    var p := first + "\n" + second + "\n" + third;
    assert Plain(p) by {
      forall i | 0 <= i < |p| ensures p[i] != Terminator && p[i] != Quote {
        if i < |first| { assert p[i] == first[i]; }
        else if i == |first| { }
        else if i < |first| + 1 + |second| { assert p[i] == second[i - |first| - 1]; }
        else if i == |first| + 1 + |second| { }
        else { assert p[i] == third[i - |first| - |second| - 2]; }
      }
    }
    var tail := "\n" + last;
    assert Plain(tail) by {
      forall i | 0 <= i < |tail| ensures tail[i] != Terminator && tail[i] != Quote {
        if i > 0 { assert tail[i] == last[i - 1]; }
      }
    }
    var inner := literal[1..|literal| - 1];
    assert literal == [Quote] + inner + [Quote];
    assert QuoteFree(inner);
    PlainSealed(tail);
    QuotedSealed(p, inner, tail);
    assert first + "\n" + second + "\n" + third + literal + "\n" + last ==
      p + [Quote] + inner + [Quote] + tail;
  }

  /** What the four lines of that statement give when read together. */
  lemma FourLineStatements(first: string, second: string, third: string, literal: string,
                           last: string)
    requires Code(first) && Code(second) && Code(third) && QuotedLiteral(literal) && Code(last)
    requires first != [] && !IsBlank(first[0]) && last != [] && !IsBlank(last[|last| - 1])
    requires !IsCommentLine(first) && !IsCommentLine(second)
    requires !IsCommentLine(third + literal) && !IsCommentLine(last)
    ensures Statements(Join([first, second, third + literal, last + ";"], NewLine)) ==
      [first + "\n" + second + "\n" + third + literal + "\n" + last]
  {
    var input := [first, second, third + literal, last + ";"];
    var a := first + "\n" + second + "\n" + third + literal + "\n" + last;
    assert Join(input, NewLine) == a + [Terminator] by {
      var j3 := Join(input[2..], NewLine);
      assert input[2..] == [third + literal, last + ";"];
      assert input[2..][1..] == [last + ";"];
      assert Join([last + ";"], NewLine) == last + ";";
      assert j3 == (third + literal) + [NewLine] + (last + ";");
      var j2 := Join(input[1..], NewLine);
      assert input[1..][1..] == input[2..];
      assert j2 == second + [NewLine] + j3;
      assert Join(input, NewLine) == first + [NewLine] + j2;
    }
    FourLineSealed(first, second, third, literal, last);
    assert Trimmed(a) by {
      assert a[0] == first[0];
      assert a[|a| - 1] == last[|last| - 1];
    }
    forall k | 0 <= k < |input| ensures NewLine !in input[k] && !IsCommentLine(input[k]) {
      if k == 0 { CodeSealed(first); }
      if k == 1 { CodeSealed(second); }
      if k == 2 {
        CodeSealed(third);
        QuotedLiteralSealed(third, literal, "");
        assert third + literal + "" == third + literal;
      }
      if k == 3 {
        CodeSealed(last);
        assert input[3][0] == last[0];
        if |last| >= 2 { assert input[3][1] == last[1]; }
      }
    }
    assert !AllBlank(a) by { assert !IsBlank(a[0]); }
    TerminatedStatement(input, a);
    TrimmedFixed(a);
  }

  /** A statement over four lines, a literal at the end of the third and the
      semicolon on the fourth: the read ends only at the fourth line, and the
      statement keeps its line breaks. */
  lemma FourLineRun(first: string, second: string, third: string, literal: string, last: string)
    requires Code(first) && Code(second) && Code(third) && QuotedLiteral(literal) && Code(last)
    requires first != [] && !IsBlank(first[0]) && last != [] && !IsBlank(last[|last| - 1])
    requires !IsCommentLine(first) && !IsCommentLine(second)
    requires !IsCommentLine(third + literal) && !IsCommentLine(last)
    ensures !EndsRead(first) && !EndsRead(second) && !EndsRead(third + literal)
    ensures Read([first, second, third + literal, last + ";"]) ==
      (Batch([first + "\n" + second + "\n" + third + literal + "\n" + last]), 4)
  {
    FourLinesOpen(first, second, third, literal, last);
    FourthLineEnds(first, second, third + literal, last + ";");
    FourLineStatements(first, second, third, literal, last);
  }

  /** Of those four lines only the last ends the read: the third ends in a
      quote, not in its quoted semicolon. */
  lemma FourLinesOpen(first: string, second: string, third: string, literal: string,
                      last: string)
    requires Code(first) && Code(second) && QuotedLiteral(literal)
    ensures !EndsRead(first) && !EndsRead(second) && !EndsRead(third + literal)
    ensures EndsRead(last + ";")
  {
    var third' := third + literal;
    assert !EndsRead(first) by { CodeSealed(first); NoSemicolonNoEnd(first); }
    assert !EndsRead(second) by { CodeSealed(second); NoSemicolonNoEnd(second); }
    assert !EndsRead(third') by { assert third'[|third'| - 1] == Quote; }
    assert EndsRead(last + ";") by { assert (last + ";")[|last|] == Terminator; }
  }

  /** Three lines that do not end the read, then one that does. */
  lemma FourthLineEnds(a: string, b: string, c: string, d: string)
    requires !EndsRead(a) && !EndsRead(b) && !EndsRead(c) && EndsRead(d)
    ensures Read([a, b, c, d]) == (Batch(Statements(Join([a, b, c, d], NewLine))), 4)
  {
    assert [a, b, c, d] == [a, b, c] + [d];
    ReadEndsAtLast([a, b, c], d);
  }

  /** Lines of plain text closed by a line holding only a semicolon: one
      statement, the lines joined by line breaks, trimmed. */
  lemma LoneSemicolonRun(lines: seq<string>)
    requires |lines| >= 1
    requires forall k | 0 <= k < |lines| :: Code(lines[k]) && !IsCommentLine(lines[k])
    requires lines[0] != [] && !IsBlank(lines[0][0])
    ensures Read(lines + [";"]) == (Batch([Trim(Join(lines, NewLine))]), |lines| + 1)
  {
    var input := lines + [[Terminator]];
    var body := Join(lines, NewLine);
    assert lines + [";"] == input;
    assert Statements(Join(input, NewLine)) == [Trim(body)] by {
      assert body[0] == lines[0][0];
      forall k | 0 <= k < |lines| ensures Plain(lines[k]) && NewLine !in lines[k] {
        CodeSealed(lines[k]);
      }
      ClosedByLoneSemicolon(lines);
    }
    assert Read(input) == (Batch(Statements(Join(input, NewLine))), |lines| + 1) by {
      forall k | 0 <= k < |lines| ensures !EndsRead(lines[k]) {
        CodeSealed(lines[k]);
        NoSemicolonNoEnd(lines[k]);
      }
      ReadEndsAtLast(lines, [Terminator]);
    }
  }

  /** testSimpleQueries, lines 124-128. */
  lemma SimpleSelect()
    ensures Read(["select * from goats" + ";"]) ==
      (Batch(["select * from goats"]), 1)
  {
    var w1 := "select * from goats";
    PlainLine(w1);
  }

  /** testSimpleQueries, lines 132-136. */
  lemma SimpleInsert()
    ensures Read(["insert into goats values (" + "'chicken'" + ", " + "'cheese'" + ")" + ";"]) ==
      (Batch(["insert into goats values (" + "'chicken'" + ", " + "'cheese'" + ")"]), 1)
  {
    var w1 := "insert into goats values (";
    TwiceQuotedLine(w1, "'chicken'", ", ", "'cheese'", ")");
  }

  /** testSimpleQueries, lines 140-144. */
  lemma SimpleUpdate()
    ensures Read(["update goats set livestock = " + "'chicken'" + " where dairy = " +
                    "'cheese'" + ";"]) ==
      (Batch(["update goats set livestock = " + "'chicken'" + " where dairy = " + "'cheese'"]), 1)
  {
    var w1 := "update goats set livestock = ";
    var s := w1 + "'chicken'" + " where dairy = " + "'cheese'";
    assert s + "" == s;
    TwiceQuotedLine(w1, "'chicken'", " where dairy = ", "'cheese'", "");
  }

  /** testSimpleQueries, lines 148-152. */
  lemma SimpleDelete()
    ensures Read(["delete from goats " + "where dairy = " + "'cheese'" + ";"]) ==
      (Batch(["delete from goats " + "where dairy = " + "'cheese'"]), 1)
  {
    var w1 := "delete from goats ";
    var w2 := "where dairy = ";
    CodeAppend(w1, w2);
    var s := w1 + w2 + "'cheese'";
    assert s + "" == s;
    QuotedLine(w1 + w2, "'cheese'", "");
  }

  /** testSemicolonSeparation, lines 161-176: the three pieces of text arrive
      without a line break until the last, so they form one line, and the
      empty pieces between the semicolons give no statement. */
  lemma SemicolonSeparation()
    ensures Read(["select * from goats" + ";" + "delete from boats" + " ;;  ; ;   ; " +
                  ("insert into stoats " + "values (0, 1)") + ";"]) ==
      (Batch(["select * from goats", "delete from boats", "insert into stoats " + "values (0, 1)"]),
       1)
  {
    var w1, w2 := "insert into stoats ", "values (0, 1)";
    CodeAppend(w1, w2);
    SeparatedRun("select * from goats", "delete from boats", w1 + w2);
  }

  /** testQuotedSemicolons, lines 184-194: the semicolon inside the literal
      neither ends the read nor cuts the statement. */
  lemma QuotedSemicolons()
    ensures Read(["insert into goats values (" + "'whywouldyoudothis?;'" + ", " +
                    "'Ihateyou!'" + ")" + ";"]) ==
      (Batch(["insert into goats values (" + "'whywouldyoudothis?;'" + ", " + "'Ihateyou!'" +
                ")"]), 1)
  {
    var w1 := "insert into goats values (";
    TwiceQuotedLine(w1, "'whywouldyoudothis?;'", ", ", "'Ihateyou!'", ")");
  }

  /** testComments, lines 209-215: the text typed without a line break and
      the text after it form one line starting with `--`, so no statement. */
  lemma CommentedOut()
    ensures Read(["--insert into goats " + ("values (0, 1); " + "select * from goats;")]) ==
      (Batch([]), 1)
  {
    CommentedOutRun("--insert into goats ", "values (0, 1); " + "select * from goats;");
  }

  /** testComments, lines 218-225: a double dash after the first statement
      does not start the line, so the read gives two statements. */
  lemma CommentAfterStatement()
    ensures Read(["insert into goats " + "values (0, 1)" + ";" + " --select * from goats" + ";"]).1
      == 1
    ensures Read(["insert into goats " + "values (0, 1)" + ";" + " --select * from goats" + ";"]).0
      .Batch?
    ensures |Read(["insert into goats " + "values (0, 1)" + ";" + " --select * from goats" + ";"])
      .0.statements| == 2
    ensures Read(["insert into goats " + "values (0, 1)" + ";" + " --select * from goats" + ";"])
      .0.statements[0] == "insert into goats " + "values (0, 1)"
  {
    var w1, w2 := "insert into goats ", "values (0, 1)";
    CodeAppend(w1, w2);
    var c := " --select * from goats";
    assert !IsBlank(c[1]);
    CommentAfterRun(w1 + w2, c);
  }

  /** testUnionStatement, lines 234-238. */
  lemma UnionStatement()
    ensures Read(["select * from goats union " + "select * from chickens" + ";"]) ==
      (Batch(["select * from goats union " + "select * from chickens"]), 1)
  {
    var w1 := "select * from goats union ";
    var w2 := "select * from chickens";
    CodeAppend(w1, w2);
    PlainLine(w1 + w2);
  }

  /** testCreateTable, lines 247-251: a quoted semicolon as a column default. */
  lemma CreateTable()
    ensures Read(["create table foo (col1 integer," + " col2 varchar(50) default " + "';'" +
                    ")" + ";"]) ==
      (Batch(["create table foo (col1 integer," + " col2 varchar(50) default " + "';'" + ")"]), 1)
  {
    var w1 := "create table foo (col1 integer,";
    var w2 := " col2 varchar(50) default ";
    CodeAppend(w1, w2);
    QuotedLine(w1 + w2, "';'", ")");
  }

  /** testMultiLineCreate, lines 258-272: the first three lines, the third
      ending in a quoted semicolon, do not end the read; the fourth does, and
      the statement keeps its line breaks. */
  lemma MultiLineCreate()
    ensures !EndsRead("create table foo (") && !EndsRead("col1 integer,")
    ensures !EndsRead("col2 varchar(50) default " + "';'")
    ensures Read(["create table foo (", "col1 integer,", "col2 varchar(50) default " + "';'",
                  ")" + ";"]) ==
      (Batch(["create table foo (" + "\n" + "col1 integer," + "\n" +
              "col2 varchar(50) default " + "';'" + "\n" + ")"]), 4)
  {
    FourLineRun("create table foo (", "col1 integer,", "col2 varchar(50) default ", "';'", ")");
  }

  /** testAlterTable, lines 279-284. */
  lemma AlterTable()
    ensures Read(["alter table foo add column " + "newcol varchar(50)" + ";"]) ==
      (Batch(["alter table foo add column " + "newcol varchar(50)"]), 1)
  {
    var w1 := "alter table foo add column ";
    var w2 := "newcol varchar(50)";
    CodeAppend(w1, w2);
    PlainLine(w1 + w2);
  }

  /** testDropTable, lines 291-296. */
  lemma DropTable()
    ensures Read(["drop table foo if exists" + ";"]) ==
      (Batch(["drop table foo if exists"]), 1)
  {
    var w1 := "drop table foo if exists";
    PlainLine(w1);
  }

  /** testCreateView, lines 303-308. */
  lemma CreateView()
    ensures Read(["create view foo (col1, col2) " + "as select col1, count(*) " +
                    "from foo group by col1" + ";"]) ==
      (Batch(["create view foo (col1, col2) " + "as select col1, count(*) " +
                "from foo group by col1"]), 1)
  {
    var w1 := "create view foo (col1, col2) ";
    var w2 := "as select col1, count(*) ";
    var w3 := "from foo group by col1";
    CodeAppend(w1, w2);
    CodeAppend(w1 + w2, w3);
    PlainLine(w1 + w2 + w3);
  }

  /** The thirteen lines of the second view in testCreateView. */
  const ViewLines: seq<string> := ["create view foo", "(", "C1", ",C2", ", TOTAL", ")", "as",
                                   "select C1", ", C2", ", COUNT(*)", "from bar", "group by C1",
                                   ", C2"]

  /** testCreateView, lines 312-328: thirteen lines, then one holding only
      the semicolon; the read ends at the last line with one statement, the
      lines joined by their line breaks. */
  lemma CreateViewLines()
    ensures Read(ViewLines + [";"]).1 == 14
    ensures Read(ViewLines + [";"]).0 == Batch([Trim(Join(ViewLines, NewLine))])
  {
    ViewLinesAreCode();
    LoneSemicolonRun(ViewLines);
  }

  /** Every one of those lines is statement text that is not a comment, and
      the first starts with a non-blank. */
  lemma ViewLinesAreCode()
    ensures forall k | 0 <= k < |ViewLines| :: Code(ViewLines[k]) && !IsCommentLine(ViewLines[k])
    ensures ViewLines[0] != [] && !IsBlank(ViewLines[0][0])
  {
  }

  /** testCreateProcedure, lines 336-341. */
  lemma ProcedureSelect()
    ensures Read(["create procedure foo as " + "select col1, count(*) " +
                    "from foo group by col1" + ";"]) ==
      (Batch(["create procedure foo as " + "select col1, count(*) " + "from foo group by col1"]), 1)
  {
    var w1 := "create procedure foo as ";
    var w2 := "select col1, count(*) ";
    var w3 := "from foo group by col1";
    CodeAppend(w1, w2);
    CodeAppend(w1 + w2, w3);
    PlainLine(w1 + w2 + w3);
  }

  /** testCreateProcedure, lines 344-349. */
  lemma ProcedureSubquery()
    ensures Read(["create procedure foo as " + "select foo, bar from " + "(select goat, " +
                    "chicken from hats) " + "bats where bats.wings > 1" + ";"]) ==
      (Batch(["create procedure foo as " + "select foo, bar from " + "(select goat, " +
                "chicken from hats) " + "bats where bats.wings > 1"]), 1)
  {
    var w1 := "create procedure foo as ";
    var w2 := "select foo, bar from ";
    var w3 := "(select goat, ";
    var w4 := "chicken from hats) ";
    var w5 := "bats where bats.wings > 1";
    CodeAppend(w1, w2);
    CodeAppend(w1 + w2, w3);
    CodeAppend(w1 + w2 + w3, w4);
    CodeAppend(w1 + w2 + w3 + w4, w5);
    PlainLine(w1 + w2 + w3 + w4 + w5);
  }

  /** testCreateProcedure, lines 352-357. */
  lemma ProcedureInsert()
    ensures Read(["create procedure foo as " + "insert into foo values (0, 1)" + ";"]) ==
      (Batch(["create procedure foo as " + "insert into foo values (0, 1)"]), 1)
  {
    var w1 := "create procedure foo as ";
    var w2 := "insert into foo values (0, 1)";
    CodeAppend(w1, w2);
    PlainLine(w1 + w2);
  }

  /** testCreateProcedure, lines 360-365. */
  lemma ProcedureUpdate()
    ensures Read(["create procedure foo as " + "update goats set livestock = " + "'chicken'" +
                    " where dairy = " + "'cheese'" + ";"]) ==
      (Batch(["create procedure foo as " + "update goats set livestock = " + "'chicken'" +
                " where dairy = " + "'cheese'"]), 1)
  {
    var w1 := "create procedure foo as ";
    var w2 := "update goats set livestock = ";
    CodeAppend(w1, w2);
    var s := w1 + w2 + "'chicken'" + " where dairy = " + "'cheese'";
    assert s + "" == s;
    TwiceQuotedLine(w1 + w2, "'chicken'", " where dairy = ", "'cheese'", "");
  }

  /** testCreateProcedure, lines 368-373. */
  lemma ProcedureDelete()
    ensures Read(["create procedure foo as " + "delete from goats " + "where livestock = " +
                    "'chicken'" + ";"]) ==
      (Batch(["create procedure foo as " + "delete from goats " + "where livestock = " +
                "'chicken'"]), 1)
  {
    var w1 := "create procedure foo as ";
    var w2 := "delete from goats ";
    var w3 := "where livestock = ";
    CodeAppend(w1, w2);
    CodeAppend(w1 + w2, w3);
    var s := w1 + w2 + w3 + "'chicken'";
    assert s + "" == s;
    QuotedLine(w1 + w2 + w3, "'chicken'", "");
  }

  /** testCreateProcedure, lines 377-382: the statement with a role list. */
  lemma ProcedureWithRole()
    ensures Read(["create procedure foo " + "allow default,adhoc as " +
                    "select foo, bar from " + "(select goat, " + "chicken from hats) " +
                    "bats where bats.wings > 1" + ";"]) ==
      (Batch(["create procedure foo " + "allow default,adhoc as " + "select foo, bar from " +
                "(select goat, " + "chicken from hats) " + "bats where bats.wings > 1"]), 1)
  {
    var w1 := "create procedure foo ";
    var w2 := "allow default,adhoc as ";
    var w3 := "select foo, bar from ";
    var w4 := "(select goat, ";
    var w5 := "chicken from hats) ";
    var w6 := "bats where bats.wings > 1";
    CodeAppend(w1, w2);
    CodeAppend(w1 + w2, w3);
    CodeAppend(w1 + w2 + w3, w4);
    CodeAppend(w1 + w2 + w3 + w4, w5);
    CodeAppend(w1 + w2 + w3 + w4 + w5, w6);
    PlainLine(w1 + w2 + w3 + w4 + w5 + w6);
  }

  /** testSubQuery, lines 389-394. */
  lemma SubQuery()
    ensures Read(["select foo, bar from " + "(select goat, " + "chicken from hats) " +
                    "bats where bats.wings > 1" + ";"]) ==
      (Batch(["select foo, bar from " + "(select goat, " + "chicken from hats) " +
                "bats where bats.wings > 1"]), 1)
  {
    var w1 := "select foo, bar from ";
    var w2 := "(select goat, ";
    var w3 := "chicken from hats) ";
    var w4 := "bats where bats.wings > 1";
    CodeAppend(w1, w2);
    CodeAppend(w1 + w2, w3);
    CodeAppend(w1 + w2 + w3, w4);
    PlainLine(w1 + w2 + w3 + w4);
  }

  /** testExec, lines 401-406: a quoted semicolon among the arguments. */
  lemma Exec()
    ensures Read(["exec selectGoats " + "';'" + " " + "'dude'" + " 2" + ";"]) ==
      (Batch(["exec selectGoats " + "';'" + " " + "'dude'" + " 2"]), 1)
  {
    var w1 := "exec selectGoats ";
    TwiceQuotedLine(w1, "';'", " ", "'dude'", " 2");
  }
}
