/** The boundary scanner: a left-to-right pass over the buffered text that
    tracks whether it is inside a single-quoted literal and cuts the text at
    every semicolon outside one. A quote character flips the state; a
    doubled quote inside a literal flips it twice, so it leaves the literal
    open as an escaped quote would. */
module Scanner {
  import opened Text

  const Terminator := ';'
  const Quote := '\''

  /** The quote state after reading one character. */
  function Next(inQuote: bool, c: char): bool {
    if c == Quote then !inQuote else inQuote
  }

  /** A semicolon ends a statement only outside a literal. */
  predicate IsTerminator(inQuote: bool, c: char) {
    c == Terminator && !inQuote
  }

  /** The quote state after reading all of `s`, starting in `inQuote`. */
  function QuoteAfter(s: string, inQuote: bool): bool {
    if s == [] then inQuote else QuoteAfter(s[1..], Next(inQuote, s[0]))
  }

  /** `s`, read from state `inQuote`, holds a semicolon outside any literal. */
  predicate HasTerminator(s: string, inQuote: bool) {
    s != [] && (IsTerminator(inQuote, s[0]) || HasTerminator(s[1..], Next(inQuote, s[0])))
  }

  /** Text that, read from outside a literal, ends no statement and leaves no
      literal open: a stretch of one statement's text. */
  predicate Sealed(s: string) {
    !HasTerminator(s, false) && !QuoteAfter(s, false)
  }

  /** Text with no semicolon and no quote character at all. */
  predicate Plain(s: string) {
    forall i | 0 <= i < |s| :: s[i] != Terminator && s[i] != Quote
  }

  /** Text with no quote character. */
  predicate QuoteFree(s: string) {
    forall i | 0 <= i < |s| :: s[i] != Quote
  }

  /** The pieces of `s` between its terminators, in order; the terminators
      themselves are dropped and everything else is kept as it is. */
  function Pieces(s: string, inQuote: bool): (r: seq<string>)
    ensures |r| >= 1
  {
    if s == [] then [""]
    else if IsTerminator(inQuote, s[0]) then [""] + Pieces(s[1..], inQuote)
    else
      var rest := Pieces(s[1..], Next(inQuote, s[0]));
      [[s[0]] + rest[0]] + rest[1..]
  }

  /** The state a piece is read from: the caller's for the first one, outside
      any literal for every later one (a terminator is only seen outside). */
  function PieceStart(k: nat, inQuote: bool): bool {
    if k == 0 then inQuote else false
  }

  /** Nothing is lost: joining the pieces with semicolons gives the text back,
      quoted semicolons included. */
  lemma {:induction false} JoinPieces(s: string, inQuote: bool)
    ensures Join(Pieces(s, inQuote), Terminator) == s
  {
    if s != [] {
      if IsTerminator(inQuote, s[0]) {
        var rest := Pieces(s[1..], inQuote);
        JoinPieces(s[1..], inQuote);
        assert Pieces(s, inQuote)[1..] == rest;
        if |rest| == 1 {
          assert Join(rest, Terminator) == rest[0];
        }
      } else {
        var rest := Pieces(s[1..], Next(inQuote, s[0]));
        JoinPieces(s[1..], Next(inQuote, s[0]));
        var r := Pieces(s, inQuote);
        assert r[1..] == rest[1..];
        if |rest| == 1 {
          assert s == [s[0]] + rest[0];
        } else {
          assert Join(rest, Terminator) == rest[0] + [Terminator] + Join(rest[1..], Terminator);
        }
      }
    }
  }

  /** No piece holds a terminator of its own, reading each from its start state,
      and every piece but the last closes the literals it opens. */
  lemma {:induction false} PiecesAreUnbroken(s: string, inQuote: bool)
    ensures forall k | 0 <= k < |Pieces(s, inQuote)| ::
      !HasTerminator(Pieces(s, inQuote)[k], PieceStart(k, inQuote))
    ensures forall k | 0 <= k < |Pieces(s, inQuote)| - 1 ::
      !QuoteAfter(Pieces(s, inQuote)[k], PieceStart(k, inQuote))
  {
    var r := Pieces(s, inQuote);
    if s != [] {
      if IsTerminator(inQuote, s[0]) {
        var rest := Pieces(s[1..], inQuote);
        PiecesAreUnbroken(s[1..], inQuote);
        assert r == [""] + rest;
        forall k | 1 <= k < |r| ensures !HasTerminator(r[k], false) {
          assert r[k] == rest[k - 1];
        }
      } else {
        var q := Next(inQuote, s[0]);
        var rest := Pieces(s[1..], q);
        PiecesAreUnbroken(s[1..], q);
        assert r[0] == [s[0]] + rest[0] && r[0][1..] == rest[0];
        forall k | 1 <= k < |r| ensures r[k] == rest[k] {
        }
      }
    }
  }

  /** A text without a terminator is one piece, and only such a text is. */
  lemma {:induction false} SinglePieceIff(s: string, inQuote: bool)
    ensures Pieces(s, inQuote) == [s] <==> !HasTerminator(s, inQuote)
  {
    if s != [] {
      SinglePieceIff(s[1..], Next(inQuote, s[0]));
      if IsTerminator(inQuote, s[0]) {
        assert |Pieces(s, inQuote)| >= 2;
      } else {
        var rest := Pieces(s[1..], Next(inQuote, s[0]));
        assert [s[0]] + s[1..] == s;
        assert ([s[0]] + rest[0])[1..] == rest[0];
        if Pieces(s, inQuote) == [s] {
          assert Pieces(s, inQuote)[0] == [s[0]] + rest[0] == s;
          assert |rest| == 1 && s[1..] == ([s[0]] + rest[0])[1..];
          assert rest == [s[1..]];
        }
      }
    }
  }

  /** An unquoted terminator after a sealed stretch ends exactly that stretch:
      the rest is cut independently, from outside any literal. */
  lemma {:induction false} PiecesCut(a: string, b: string, inQuote: bool)
    requires !HasTerminator(a, inQuote) && !QuoteAfter(a, inQuote)
    ensures Pieces(a + [Terminator] + b, inQuote) == [a] + Pieces(b, false)
  {
    var s := a + [Terminator] + b;
    if a == [] {
      assert s == [Terminator] + b && s[1..] == b;
    } else {
      assert s[0] == a[0] && s[1..] == a[1..] + [Terminator] + b;
      PiecesCut(a[1..], b, Next(inQuote, a[0]));
      assert [a[0]] + a[1..] == a;
    }
  }

  /** Scanning a concatenation scans the first part, then the second from the
      state the first left behind. */
  lemma {:induction false} ScanAppend(a: string, b: string, inQuote: bool)
    ensures QuoteAfter(a + b, inQuote) == QuoteAfter(b, QuoteAfter(a, inQuote))
    ensures HasTerminator(a + b, inQuote) <==>
      HasTerminator(a, inQuote) || HasTerminator(b, QuoteAfter(a, inQuote))
  {
    if a == [] {
      assert a + b == b;
    } else {
      assert (a + b)[0] == a[0] && (a + b)[1..] == a[1..] + b;
      ScanAppend(a[1..], b, Next(inQuote, a[0]));
    }
  }

  /** Text without quotes keeps the state it is read from, and holds no
      terminator if it has no semicolon or is read inside a literal. */
  lemma {:induction false} QuoteFreeScan(s: string, inQuote: bool)
    requires QuoteFree(s)
    requires !inQuote ==> Plain(s)
    ensures QuoteAfter(s, inQuote) == inQuote
    ensures !HasTerminator(s, inQuote)
  {
    if s != [] {
      QuoteFreeScan(s[1..], inQuote);
    }
  }

  lemma PlainSealed(s: string)
    requires Plain(s)
    ensures Sealed(s)
  {
    QuoteFreeScan(s, false);
  }

  lemma SealedAppend(a: string, b: string)
    requires Sealed(a) && Sealed(b)
    ensures Sealed(a + b)
  {
    ScanAppend(a, b, false);
  }

  /** Plain text, a quoted literal, then a sealed rest: the literal may hold
      semicolons and double dashes, and the whole is still one sealed stretch. */
  lemma QuotedSealed(pre: string, literal: string, post: string)
    requires Plain(pre) && QuoteFree(literal) && Sealed(post)
    ensures Sealed(pre + [Quote] + literal + [Quote] + post)
  {
    QuoteFreeScan(pre, false);
    QuoteFreeScan(literal, true);
    ScanAppend(pre, [Quote], false);
    ScanAppend(pre + [Quote], literal, false);
    ScanAppend(pre + [Quote] + literal, [Quote], false);
    ScanAppend(pre + [Quote] + literal + [Quote], post, false);
  }
}
