# Statement boundaries of the VoltDB SQL console

VoltDB's interactive console (`sqlcmd`) reads SQL typed by a user one physical
line at a time. One call of `SQLCommand.getQuery(true)` keeps reading lines
until a line ends the read. It then returns the list of statements found in
everything it read during that call. The user may put several statements on
one line or spread one statement over several lines. Semicolons may appear
inside single-quoted literals, and lines may be commented out with `--`.

The implementation of `getQuery` is not part of this model. What it must do is
stated by the interactive parser tests in
`tests/frontend/org/voltdb/utils/TestSqlCommandParserInteractive.java`. This
project builds a model that matches those tests and proves every test scenario
against it. The model has five modules:

- `Text`: white space as Java's `String.trim()` sees it (every character up to
  U+0020), trimming, and splitting and joining text on a separator. `Trim` is
  characterised independently of how it is computed (`TrimUnique`) and is
  idempotent.
- `Scanner`: the quote-aware scan. It cuts text into pieces at every semicolon
  outside a single-quoted literal. The pieces join back to the text
  (`JoinPieces`), and a sealed stretch followed by a semicolon is cut off
  exactly (`PiecesCut`).
- `Splitter`: from the text read to the statements returned. It drops the
  lines that begin with `--`, cuts the rest with the scanner, trims each
  piece, and drops the pieces that come out empty.
- `Console`: the completion check `EndsRead` (the last non-blank character of
  the raw line is `;`). It also holds the `Reader` class, whose `pending`
  field grows by one line per `FeedLine` and is emptied when that line ends
  the read, and the read loop `GetQuery` over
  an in-memory sequence of lines.
- `Scenarios`: every `getQuery` call of the tests. Each scenario is proved
  first for any text of its shape, then for the test's own text.

The tests are the only authority here. Three decisions rest on their lines
alone:

- Adjacent semicolons give no empty statement: line 173 expects exactly three
  entries for a line with a run of semicolons and blanks.
- A `--` later in a line does not discard the rest of the line. If it did,
  the line submitted at line 221 would give one statement, and line 224
  expects two. So only a line that begins with `--` is a comment.
- The comment at line 192 says a line break becomes a space. The assertion at
  line 271 keeps the line breaks, and the model follows the assertion.

The read loop `GetQuery` is proved equal to `Read`, a function of the input
lines. Every scenario is stated about `Read` applied to the lines the test
types, so each one fixes both the lines a call consumes and the statements
it returns.

## Model

| member | source | states |
|---|---|---|
| Text.TrimLeftShape | tests/frontend/org/voltdb/utils/TestSqlCommandParserInteractive.java:165-175 | left trimming keeps a suffix that does not start with a blank, and drops only blanks |
| Text.TrimRightShape | tests/frontend/org/voltdb/utils/TestSqlCommandParserInteractive.java:165-175 | right trimming keeps a prefix that does not end with a blank, and drops only blanks |
| Text.TrimShape | tests/frontend/org/voltdb/utils/TestSqlCommandParserInteractive.java:165-175 | the trimmed text neither starts nor ends with a blank, and it is empty exactly when the text is all blank |
| Text.TrimLeftBlank | tests/frontend/org/voltdb/utils/TestSqlCommandParserInteractive.java:165-175 | blanks before text that starts with a non-blank are exactly what left trimming removes |
| Text.TrimRightBlank | tests/frontend/org/voltdb/utils/TestSqlCommandParserInteractive.java:165-175 | blanks after text that ends with a non-blank are exactly what right trimming removes |
| Text.TrimUnique | tests/frontend/org/voltdb/utils/TestSqlCommandParserInteractive.java:165-175 | trimming blanks around a middle that neither starts nor ends with a blank gives that middle |
| Text.TrimRightAround | tests/frontend/org/voltdb/utils/TestSqlCommandParserInteractive.java:165-175 | right trimming of blanks, text, blanks keeps the leading blanks and the text |
| Text.TrimParts | tests/frontend/org/voltdb/utils/TestSqlCommandParserInteractive.java:165-175 | every text is its trimmed form with blanks before and after it |
| Text.TrimBlankSuffix | tests/frontend/org/voltdb/utils/TestSqlCommandParserInteractive.java:312-328 | blanks added at the end, such as a line break, do not change the trimmed text |
| Text.TrimEnd | tests/frontend/org/voltdb/utils/TestSqlCommandParserInteractive.java:258-268 | trimming both ends or only the right end leaves nothing in the same cases and the same last character |
| Text.TrimmedFixed | tests/frontend/org/voltdb/utils/TestSqlCommandParserInteractive.java:124-128 | text that neither starts nor ends with a blank is its own trimmed form |
| Text.TrimIdempotent | tests/frontend/org/voltdb/utils/TestSqlCommandParserInteractive.java:173-176 | trimming twice gives the same as trimming once |
| Text.SplitOnParts | tests/frontend/org/voltdb/utils/TestSqlCommandParserInteractive.java:258-272 | no part of a split holds the separator |
| Text.JoinSplitOn | tests/frontend/org/voltdb/utils/TestSqlCommandParserInteractive.java:258-272 | joining the parts of a split with the separator gives back the text |
| Text.SplitOnJoin | tests/frontend/org/voltdb/utils/TestSqlCommandParserInteractive.java:258-272 | splitting joined parts that hold no separator gives back the parts |
| Text.SplitOnPrefix | tests/frontend/org/voltdb/utils/TestSqlCommandParserInteractive.java:258-272 | a separator-free first part, the separator, then the rest splits as the first part followed by the split of the rest |
| Text.JoinSnoc | tests/frontend/org/voltdb/utils/TestSqlCommandParserInteractive.java:258-267 | adding a line to the joined text puts one line break before it |
| Scanner.JoinPieces | tests/frontend/org/voltdb/utils/TestSqlCommandParserInteractive.java:184-194 | joining the pieces with semicolons gives back the text, quoted semicolons included |
| Scanner.PiecesAreUnbroken | tests/frontend/org/voltdb/utils/TestSqlCommandParserInteractive.java:161-176 | no piece holds an unquoted semicolon, and every piece but the last closes the literals it opens |
| Scanner.SinglePieceIff | tests/frontend/org/voltdb/utils/TestSqlCommandParserInteractive.java:184-194 | text is one piece exactly when it has no unquoted semicolon |
| Scanner.PiecesCut | tests/frontend/org/voltdb/utils/TestSqlCommandParserInteractive.java:161-176 | an unquoted semicolon after a sealed stretch ends that stretch, and the rest is cut on its own from outside any literal |
| Scanner.ScanAppend | tests/frontend/org/voltdb/utils/TestSqlCommandParserInteractive.java:184-194 | scanning a concatenation scans the second part from the quote state the first part leaves |
| Scanner.QuoteFreeScan | tests/frontend/org/voltdb/utils/TestSqlCommandParserInteractive.java:184-194 | text without quotes keeps the quote state, and inside a literal its semicolons end nothing |
| Scanner.PlainSealed | tests/frontend/org/voltdb/utils/TestSqlCommandParserInteractive.java:124-153 | text without semicolons or quotes ends no statement and leaves no literal open |
| Scanner.SealedAppend | tests/frontend/org/voltdb/utils/TestSqlCommandParserInteractive.java:132-136 | two sealed stretches together are sealed |
| Scanner.QuotedSealed | tests/frontend/org/voltdb/utils/TestSqlCommandParserInteractive.java:247-251 | plain text, a literal that may hold semicolons, then sealed text, is sealed |
| Splitter.DropCommentLines | tests/frontend/org/voltdb/utils/TestSqlCommandParserInteractive.java:209-215 | no kept line is a comment line, and lines without comments are all kept |
| Splitter.DropCommentLine | tests/frontend/org/voltdb/utils/TestSqlCommandParserInteractive.java:209-215 | a single line is dropped exactly when it begins with a double dash |
| Splitter.DropCommentLinesAppend | tests/frontend/org/voltdb/utils/TestSqlCommandParserInteractive.java:209-225 | the kept lines of a concatenation are the kept lines of each part, in order; with DropCommentLine this fixes the result for every input |
| Splitter.DropCommentLinesFrom | tests/frontend/org/voltdb/utils/TestSqlCommandParserInteractive.java:209-215 | every kept line is one of the input lines |
| Splitter.KeepShape | tests/frontend/org/voltdb/utils/TestSqlCommandParserInteractive.java:165-176 | a piece gives no statement exactly when it is blank, and otherwise gives itself trimmed |
| Splitter.TidyTrimmed | tests/frontend/org/voltdb/utils/TestSqlCommandParserInteractive.java:173-176 | there are no more statements than pieces, and each is non-empty and trimmed |
| Splitter.StatementsTrimmed | tests/frontend/org/voltdb/utils/TestSqlCommandParserInteractive.java:124-153 | every returned statement is non-empty and trimmed |
| Splitter.TidyAppend | tests/frontend/org/voltdb/utils/TestSqlCommandParserInteractive.java:173-176 | tidying keeps the order of the pieces |
| Splitter.StripCommentsIdempotent | tests/frontend/org/voltdb/utils/TestSqlCommandParserInteractive.java:209-215 | stripping comment lines twice strips nothing more |
| Splitter.StripCommentsKeepsCode | tests/frontend/org/voltdb/utils/TestSqlCommandParserInteractive.java:218-225 | lines that are not comments pass through comment stripping unchanged |
| Splitter.CommentLineVanishes | tests/frontend/org/voltdb/utils/TestSqlCommandParserInteractive.java:209-215 | a line beginning with a double dash gives no statement, whatever semicolons follow on it |
| Splitter.SplitCut | tests/frontend/org/voltdb/utils/TestSqlCommandParserInteractive.java:161-176 | a semicolon after a sealed stretch gives that stretch trimmed, or nothing if it is blank, then the statements of the rest |
| Splitter.SplitEmpty | tests/frontend/org/voltdb/utils/TestSqlCommandParserInteractive.java:209-215 | empty text holds no statement |
| Splitter.SplitLast | tests/frontend/org/voltdb/utils/TestSqlCommandParserInteractive.java:124-128 | a sealed stretch closed by a semicolon is at most one statement, itself trimmed |
| Splitter.KeepAround | tests/frontend/org/voltdb/utils/TestSqlCommandParserInteractive.java:165-175 | a trimmed statement with blanks around it is kept as exactly that statement |
| Splitter.SplitWhole | tests/frontend/org/voltdb/utils/TestSqlCommandParserInteractive.java:184-194 | text without an unquoted semicolon is at most one statement |
| Splitter.BlankPieceDropped | tests/frontend/org/voltdb/utils/TestSqlCommandParserInteractive.java:165-176 | a blank piece before a semicolon adds no statement |
| Splitter.GapDropped | tests/frontend/org/voltdb/utils/TestSqlCommandParserInteractive.java:165-176 | any run of blanks and semicolons closed by a semicolon adds no statement |
| Splitter.TerminatedStatement | tests/frontend/org/voltdb/utils/TestSqlCommandParserInteractive.java:124-153 | code lines whose text is one sealed stretch and a final semicolon give exactly that stretch, trimmed |
| Splitter.JoinPlain | tests/frontend/org/voltdb/utils/TestSqlCommandParserInteractive.java:312-328 | joining plain lines with line breaks keeps the text plain |
| Splitter.PlainBodyStatement | tests/frontend/org/voltdb/utils/TestSqlCommandParserInteractive.java:312-328 | plain text, a line break and a semicolon give the text trimmed as the one statement |
| Splitter.ClosedByLoneSemicolon | tests/frontend/org/voltdb/utils/TestSqlCommandParserInteractive.java:312-328 | lines closed by a line holding only a semicolon give one statement: the lines joined by line breaks, trimmed |
| Console.EndsReadTrimmed | tests/frontend/org/voltdb/utils/TestSqlCommandParserInteractive.java:258-268 | a line ends the read exactly when the trimmed line ends with a semicolon |
| Console.EndsReadRight | tests/frontend/org/voltdb/utils/TestSqlCommandParserInteractive.java:258-268 | a line ends the read exactly when its right-trimmed form ends with a semicolon |
| Console.EndsReadIff | tests/frontend/org/voltdb/utils/TestSqlCommandParserInteractive.java:258-268 | a line ends the read exactly when some semicolon in it is followed only by blanks |
| Console.NoSemicolonNoEnd | tests/frontend/org/voltdb/utils/TestSqlCommandParserInteractive.java:258-263 | a line without a semicolon never ends the read |
| Console.LastTerminatorQuoted | tests/frontend/org/voltdb/utils/TestSqlCommandParserInteractive.java:258-266 | a line that ends the read without an unquoted semicolon leaves a literal open |
| Console.SealedLineNoEnd | tests/frontend/org/voltdb/utils/TestSqlCommandParserInteractive.java:258-266 | a line with no unquoted semicolon that leaves no literal open does not end the read, even when it holds a quoted semicolon |
| Console.OpenLiteralEnds | tests/frontend/org/voltdb/utils/TestSqlCommandParserInteractive.java:258-268 | a line `q;`, where `q` has no unquoted semicolon and leaves a literal open, ends the read and comes back whole, trimmed, as the one statement |
| Console.OneLineOneStatement | tests/frontend/org/voltdb/utils/TestSqlCommandParserInteractive.java:124-153 | one line of a sealed statement and a semicolon ends the read and gives exactly that statement, trimmed |
| Console.Reader.constructor | tests/frontend/org/voltdb/utils/TestSqlCommandParserInteractive.java:123 | a new read starts with no pending lines |
| Console.Reader.FeedLine | tests/frontend/org/voltdb/utils/TestSqlCommandParserInteractive.java:258-272 | a line that ends the read gives the statements of all pending lines plus this one, joined by line breaks, and clears them; any other line is added to the pending lines |
| Console.EndIndex | tests/frontend/org/voltdb/utils/TestSqlCommandParserInteractive.java:258-268 | the index found is that of the first line that ends the read, or the number of lines when none does |
| Console.ReadStopsAt | tests/frontend/org/voltdb/utils/TestSqlCommandParserInteractive.java:258-272 | the read stops at the first line that ends it, with the statements of the lines up to it |
| Console.ReadEndsAtLast | tests/frontend/org/voltdb/utils/TestSqlCommandParserInteractive.java:312-328 | lines that do not end the read, then one that does, are all consumed and their statements returned |
| Console.ReadRunsOut | tests/frontend/org/voltdb/utils/TestSqlCommandParserInteractive.java:258-266 | input in which no line ends the read is consumed whole, with no batch |
| Console.GetQuery | tests/frontend/org/voltdb/utils/TestSqlCommandParserInteractive.java:258-272 | the loop over the reader gives exactly Read of the input: it stops at the first line that ends the read and gives the statements of the lines read so far; if no line ends it, every line is consumed |
| Scenarios.SealedLine | tests/frontend/org/voltdb/utils/TestSqlCommandParserInteractive.java:124-153 | a read of the one line `a;`, for any trimmed, sealed statement `a`, consumes it and gives exactly `a` |
| Scenarios.PlainLine | tests/frontend/org/voltdb/utils/TestSqlCommandParserInteractive.java:124-128 | a read of one line of any statement without literals, and a semicolon, gives exactly that statement |
| Scenarios.QuotedLine | tests/frontend/org/voltdb/utils/TestSqlCommandParserInteractive.java:247-251 | a read of one line of a statement holding one literal, semicolons in it allowed, gives exactly that statement |
| Scenarios.TwiceQuotedLine | tests/frontend/org/voltdb/utils/TestSqlCommandParserInteractive.java:184-194 | a read of one line of a statement holding two literals gives exactly that statement |
| Scenarios.LastAfterBlank | tests/frontend/org/voltdb/utils/TestSqlCommandParserInteractive.java:170-176 | a blank, a statement and a semicolon give that statement |
| Scenarios.SecondBeforeRun | tests/frontend/org/voltdb/utils/TestSqlCommandParserInteractive.java:165-176 | a statement, the run of semicolons and blanks, then a statement, give the two statements |
| Scenarios.SeparatedStatements | tests/frontend/org/voltdb/utils/TestSqlCommandParserInteractive.java:161-176 | the semicolon-separation line gives its three statements, in order, for any three statements |
| Scenarios.SeparatedRun | tests/frontend/org/voltdb/utils/TestSqlCommandParserInteractive.java:161-176 | a read of that line consumes it and gives the three statements in order |
| Scenarios.CommentedOutRun | tests/frontend/org/voltdb/utils/TestSqlCommandParserInteractive.java:209-215 | a read of a line beginning with a double dash and ending with a semicolon consumes it and gives no statement |
| Scenarios.SplitStatementThenText | tests/frontend/org/voltdb/utils/TestSqlCommandParserInteractive.java:218-225 | a statement, a semicolon, more text and a semicolon give the statement as typed, then what the text gives |
| Scenarios.StatementThenText | tests/frontend/org/voltdb/utils/TestSqlCommandParserInteractive.java:218-225 | such a line, with non-blank text after the first semicolon, gives two statements, the first as typed |
| Scenarios.CommentAfterRun | tests/frontend/org/voltdb/utils/TestSqlCommandParserInteractive.java:218-225 | a read of that line consumes it and gives two statements, the first as typed |
| Scenarios.FourLineSealed | tests/frontend/org/voltdb/utils/TestSqlCommandParserInteractive.java:258-267 | four lines with a literal at the end of the third form one sealed stretch |
| Scenarios.FourLinesOpen | tests/frontend/org/voltdb/utils/TestSqlCommandParserInteractive.java:258-267 | of the four lines only the last ends the read; the third, ending in a quote after its quoted semicolon, does not |
| Scenarios.FourLineStatements | tests/frontend/org/voltdb/utils/TestSqlCommandParserInteractive.java:258-272 | those four lines joined give one statement that keeps its line breaks |
| Scenarios.FourLineRun | tests/frontend/org/voltdb/utils/TestSqlCommandParserInteractive.java:258-272 | the first three lines do not end the read, the third with its quoted semicolon included; the read takes all four and gives that one statement |
| Scenarios.LoneSemicolonRun | tests/frontend/org/voltdb/utils/TestSqlCommandParserInteractive.java:312-328 | lines without semicolons, then a line holding only a semicolon: the read takes them all and gives one statement, the lines joined and trimmed |
| Scenarios.SimpleSelect | tests/frontend/org/voltdb/utils/TestSqlCommandParserInteractive.java:124-128 | the select consumes the typed line and comes back as typed, as the only statement |
| Scenarios.SimpleInsert | tests/frontend/org/voltdb/utils/TestSqlCommandParserInteractive.java:132-136 | the insert with two literals consumes the typed line and comes back as typed, as the only statement |
| Scenarios.SimpleUpdate | tests/frontend/org/voltdb/utils/TestSqlCommandParserInteractive.java:139-144 | the update consumes the typed line and comes back as typed, as the only statement |
| Scenarios.SimpleDelete | tests/frontend/org/voltdb/utils/TestSqlCommandParserInteractive.java:147-152 | the delete consumes the typed line and comes back as typed, as the only statement |
| Scenarios.SemicolonSeparation | tests/frontend/org/voltdb/utils/TestSqlCommandParserInteractive.java:161-176 | the one line consumed gives exactly the three statements, in order, the second without its trailing blank |
| Scenarios.QuotedSemicolons | tests/frontend/org/voltdb/utils/TestSqlCommandParserInteractive.java:184-194 | the line consumed gives the insert with a quoted semicolon whole, as the only statement |
| Scenarios.CommentedOut | tests/frontend/org/voltdb/utils/TestSqlCommandParserInteractive.java:209-215 | the commented-out line is consumed and gives no statement |
| Scenarios.CommentAfterStatement | tests/frontend/org/voltdb/utils/TestSqlCommandParserInteractive.java:217-225 | the line consumed gives two statements, the first the insert as typed |
| Scenarios.UnionStatement | tests/frontend/org/voltdb/utils/TestSqlCommandParserInteractive.java:233-238 | the union consumes the typed line and comes back as typed, as the only statement |
| Scenarios.CreateTable | tests/frontend/org/voltdb/utils/TestSqlCommandParserInteractive.java:246-251 | the create table with a default of a quoted semicolon consumes the typed line and comes back as typed, as the only statement |
| Scenarios.MultiLineCreate | tests/frontend/org/voltdb/utils/TestSqlCommandParserInteractive.java:257-272 | the first three lines, the third ending in a quoted semicolon, do not end the read; the read takes four lines and gives the asserted statement with its line breaks |
| Scenarios.AlterTable | tests/frontend/org/voltdb/utils/TestSqlCommandParserInteractive.java:278-284 | the alter table consumes the typed line and comes back as typed, as the only statement |
| Scenarios.DropTable | tests/frontend/org/voltdb/utils/TestSqlCommandParserInteractive.java:290-296 | the drop table consumes the typed line and comes back as typed, as the only statement |
| Scenarios.CreateView | tests/frontend/org/voltdb/utils/TestSqlCommandParserInteractive.java:302-308 | the one-line create view consumes the typed line and comes back as typed, as the only statement |
| Scenarios.CreateViewLines | tests/frontend/org/voltdb/utils/TestSqlCommandParserInteractive.java:311-328 | the read takes fourteen lines and gives one statement: the thirteen lines joined by line breaks, trimmed |
| Scenarios.ProcedureSelect | tests/frontend/org/voltdb/utils/TestSqlCommandParserInteractive.java:336-341 | the create procedure with a select consumes the typed line and comes back as typed, as the only statement |
| Scenarios.ProcedureSubquery | tests/frontend/org/voltdb/utils/TestSqlCommandParserInteractive.java:344-349 | the create procedure with a subquery consumes the typed line and comes back as typed, as the only statement |
| Scenarios.ProcedureInsert | tests/frontend/org/voltdb/utils/TestSqlCommandParserInteractive.java:352-357 | the create procedure with an insert consumes the typed line and comes back as typed, as the only statement |
| Scenarios.ProcedureUpdate | tests/frontend/org/voltdb/utils/TestSqlCommandParserInteractive.java:360-365 | the create procedure with an update and two literals consumes the typed line and comes back as typed, as the only statement |
| Scenarios.ProcedureDelete | tests/frontend/org/voltdb/utils/TestSqlCommandParserInteractive.java:368-373 | the create procedure with a delete consumes the typed line and comes back as typed, as the only statement |
| Scenarios.ProcedureWithRole | tests/frontend/org/voltdb/utils/TestSqlCommandParserInteractive.java:377-382 | the create procedure with a role list consumes the typed line and comes back as typed, as the only statement |
| Scenarios.SubQuery | tests/frontend/org/voltdb/utils/TestSqlCommandParserInteractive.java:389-394 | the select over a subquery consumes the typed line and comes back as typed, as the only statement |
| Scenarios.Exec | tests/frontend/org/voltdb/utils/TestSqlCommandParserInteractive.java:401-406 | the exec with a quoted semicolon among its arguments consumes the typed line and comes back as typed, as the only statement |

## Left out

- The test harness (lines 42-117): the single-thread executor, the piped streams, the busy-wait on the result and the sleeps. This is concurrency and I/O. The line source is modelled as an in-memory sequence of lines.
- `SQLConsoleReader` and `SQLCommand.mockLineReaderForTest` are not part of this model. The line reader hands over only whole lines, so text typed without a line break joins the line that the next break completes. The checks that the result is not yet done after such text (lines 164, 169, 211 and 220) are the line reader's doing and are not stated.
- Scenarios.CommentedOut, Scenarios.SemicolonSeparation, Scenarios.QuotedSemicolons and Scenarios.CommentAfterStatement each see as one line the text that the test submits in two or three parts.
- End of input with pending text: the tests never close the stream in the middle of a statement. GetQuery then returns `More` and makes no further claim.
- Doubled quotes inside a literal: no test has one. Each quote flips the quote state, so a doubled quote leaves the literal open, as an escape would, but no property is stated about it.
- Only a line that begins with `--` is a comment. What a `--` later in the line does is not asserted beyond the count at line 224. The model keeps that text as a statement. Comment lines are dropped before the quote scan, so a line beginning with `--` is dropped even inside a literal opened on an earlier line, and that literal can lose its closing quote. The tests say nothing about this case.
- Console.EndsReadIff: the completion check reads the raw line only, so it does not express "a line with no unquoted semicolon does not end the read" in full. A line whose last non-blank character is a semicolon inside a literal left open ends the read (Console.OpenLiteralEnds). Only lines that leave no literal open are covered (Console.SealedLineNoEnd).
- Scenarios.CommentAfterStatement: states the number of statements and the first one only. The test asserts nothing about the second.
- Reader.FeedLine returns every piece of the text, including text after the last unquoted semicolon. That text can be non-blank in two cases: the final semicolon lies inside an open literal, or the completing line is a comment line, so unterminated code from earlier lines comes back as a statement. The tests show neither case.
