/** Character-level helpers shared by the console's line reader and its
    statement splitter: white space as Java's String.trim() sees it, trimming,
    and splitting/joining text on a separator character. */
module Text {

  /** String.trim() removes every character whose code is at most U+0020. */
  predicate IsBlank(c: char) {
    c <= ' '
  }

  predicate AllBlank(s: string) {
    forall i | 0 <= i < |s| :: IsBlank(s[i])
  }

  /** Leading white space removed. */
  function TrimLeft(s: string): string {
    if s != [] && IsBlank(s[0]) then TrimLeft(s[1..]) else s
  }

  /** Trailing white space removed. */
  function TrimRight(s: string): string {
    if s != [] && IsBlank(s[|s| - 1]) then TrimRight(s[..|s| - 1]) else s
  }

  /** What TrimLeft leaves is a suffix of `s`, what it drops is blank, and the
      suffix does not start with a blank. */
  lemma {:induction false} TrimLeftShape(s: string)
    ensures |TrimLeft(s)| <= |s| && TrimLeft(s) == s[|s| - |TrimLeft(s)|..]
    ensures AllBlank(s[..|s| - |TrimLeft(s)|])
    ensures TrimLeft(s) == [] || !IsBlank(TrimLeft(s)[0])
  {
    if s != [] && IsBlank(s[0]) {
      var rest := s[1..];
      TrimLeftShape(rest);
      var n := |rest| - |TrimLeft(rest)|;
      assert s[..n + 1] == [s[0]] + rest[..n];
    }
  }

  /** What TrimRight leaves is a prefix of `s` that does not end in a blank,
      followed in `s` only by blanks. */
  lemma {:induction false} TrimRightShape(s: string)
    ensures |TrimRight(s)| <= |s| && TrimRight(s) == s[..|TrimRight(s)|]
    ensures AllBlank(s[|TrimRight(s)|..])
    ensures TrimRight(s) == [] || !IsBlank(TrimRight(s)[|TrimRight(s)| - 1])
  {
    if s != [] && IsBlank(s[|s| - 1]) {
      var rest := s[..|s| - 1];
      TrimRightShape(rest);
      var n := |TrimRight(rest)|;
      assert rest[..n] == s[..n];
      assert s[n..] == rest[n..] + [s[|s| - 1]];
    }
  }

  /** String.trim(). */
  function Trim(s: string): string {
    TrimRight(TrimLeft(s))
  }

  /** Whatever it is, the trimmed text neither starts nor ends with a blank,
      and it is empty exactly when the text is all blank. */
  lemma TrimShape(s: string)
    ensures Trim(s) == [] || (!IsBlank(Trim(s)[0]) && !IsBlank(Trim(s)[|Trim(s)| - 1]))
    ensures Trim(s) == [] <==> AllBlank(s)
  {
    var l := TrimLeft(s);
    var r := TrimRight(l);
    TrimLeftShape(s);
    TrimRightShape(l);
    if l == [] {
      assert s[..|s|] == s;
    } else {
      assert l[0] == s[|s| - |l|];
      assert |r| > 0 by { assert l[0..] == l; }
      assert r[0] == l[0];
    }
  }

  lemma {:induction false} TrimLeftBlank(pre: string, rest: string)
    requires AllBlank(pre)
    requires rest == [] || !IsBlank(rest[0])
    ensures TrimLeft(pre + rest) == rest
  {
    if pre != [] {
      assert (pre + rest)[1..] == pre[1..] + rest;
      TrimLeftBlank(pre[1..], rest);
    }
  }

  lemma {:induction false} TrimRightBlank(rest: string, post: string)
    requires AllBlank(post)
    requires rest == [] || !IsBlank(rest[|rest| - 1])
    ensures TrimRight(rest + post) == rest
  {
    if post != [] {
      var s := rest + post;
      assert s[..|s| - 1] == rest + post[..|post| - 1];
      TrimRightBlank(rest, post[..|post| - 1]);
    } else {
      assert rest + post == rest;
    }
  }

  /** Trim is characterised independently of how it is computed: blanks around
      a middle that neither starts nor ends with a blank are exactly what it
      removes. */
  lemma TrimUnique(pre: string, mid: string, post: string)
    requires AllBlank(pre) && AllBlank(post)
    requires mid == [] || (!IsBlank(mid[0]) && !IsBlank(mid[|mid| - 1]))
    ensures Trim(pre + mid + post) == mid
  {
    if mid == [] {
      assert pre + mid + post == pre + post;
      assert AllBlank(pre + post);
      TrimShape(pre + post);
    } else {
      assert pre + mid + post == pre + (mid + post);
      TrimLeftBlank(pre, mid + post);
      TrimRightBlank(mid, post);
    }
  }

  lemma AllBlankConcat(a: string, b: string)
    requires AllBlank(a) && AllBlank(b)
    ensures AllBlank(a + b)
  {
  }

  lemma TrimRightAround(pre: string, t: string, post: string)
    requires AllBlank(pre) && AllBlank(post)
    requires t == [] || !IsBlank(t[|t| - 1])
    ensures t != [] ==> TrimRight(pre + t + post) == pre + t
    ensures t == [] ==> TrimRight(pre + t + post) == []
  {
    if t != [] {
      assert (pre + t)[|pre + t| - 1] == t[|t| - 1];
      TrimRightBlank(pre + t, post);
    } else {
      assert pre + t + post == "" + (pre + post);
      AllBlankConcat(pre, post);
      TrimRightBlank("", pre + post);
    }
  }

  lemma TrimLeftParts(s: string) returns (pre: string)
    ensures s == pre + TrimLeft(s) && AllBlank(pre)
  {
    var l := TrimLeft(s);
    TrimLeftShape(s);
    pre := s[..|s| - |l|];
    assert s == pre + l;
  }

  lemma TrimRightParts(s: string) returns (post: string)
    ensures s == TrimRight(s) + post && AllBlank(post)
  {
    var t := TrimRight(s);
    TrimRightShape(s);
    post := s[|t|..];
    assert s == t + post;
  }

  /** The text is the trimmed text with blanks around it. */
  lemma TrimParts(s: string) returns (pre: string, post: string)
    ensures s == pre + Trim(s) + post
    ensures AllBlank(pre) && AllBlank(post)
  {
    pre := TrimLeftParts(s);
    post := TrimRightParts(TrimLeft(s));
  }

  /** Blanks added at the end make no difference to the trimmed text. */
  lemma TrimBlankSuffix(s: string, tail: string)
    requires AllBlank(tail)
    ensures Trim(s + tail) == Trim(s)
  {
    var pre, post := TrimParts(s);
    var t := Trim(s);
    assert t == [] || (!IsBlank(t[0]) && !IsBlank(t[|t| - 1])) by { TrimShape(s); }
    AllBlankConcat(post, tail);
    assert s + tail == pre + t + (post + tail);
    TrimUnique(pre, t, post + tail);
  }

  /** Trimming both ends or only the right end leaves the same last
      character, and leaves nothing in the same cases. */
  lemma TrimEnd(s: string)
    ensures Trim(s) == [] <==> TrimRight(s) == []
    ensures Trim(s) != [] ==> Trim(s)[|Trim(s)| - 1] == TrimRight(s)[|TrimRight(s)| - 1]
  {
    var pre, post := TrimParts(s);
    var t := Trim(s);
    assert t == [] || !IsBlank(t[|t| - 1]) by { TrimShape(s); }
    TrimRightAround(pre, t, post);
    assert TrimRight(s) == TrimRight(pre + t + post);
  }

  /** Non-empty, and neither starting nor ending with a blank: what a trimmed
      statement looks like. */
  predicate Trimmed(s: string) {
    s != [] && !IsBlank(s[0]) && !IsBlank(s[|s| - 1])
  }

  lemma TrimmedFixed(s: string)
    requires Trimmed(s)
    ensures Trim(s) == s
  {
    assert "" + s + "" == s;
    TrimUnique("", s, "");
  }

  lemma TrimIdempotent(s: string)
    ensures Trim(Trim(s)) == Trim(s)
  {
    var t := Trim(s);
    TrimShape(s);
    assert t == [] || (!IsBlank(t[0]) && !IsBlank(t[|t| - 1]));
    TrimUnique("", t, "");
    assert "" + t + "" == t;
  }

  /** `ps` joined with `sep` between consecutive parts. */
  function Join(ps: seq<string>, sep: char): string {
    if |ps| == 0 then ""
    else if |ps| == 1 then ps[0]
    else ps[0] + [sep] + Join(ps[1..], sep)
  }

  /** `s` cut at every occurrence of `sep`; there is always at least one part. */
  function SplitOn(s: string, sep: char): (r: seq<string>)
    ensures |r| >= 1
  {
    if s == [] then [""]
    else if s[0] == sep then [""] + SplitOn(s[1..], sep)
    else
      var rest := SplitOn(s[1..], sep);
      [[s[0]] + rest[0]] + rest[1..]
  }

  /** No part of a split holds the separator. */
  lemma {:induction false} SplitOnParts(s: string, sep: char)
    ensures forall k | 0 <= k < |SplitOn(s, sep)| :: sep !in SplitOn(s, sep)[k]
  {
    if s != [] {
      SplitOnParts(s[1..], sep);
    }
  }

  /** Joining the parts again gives back the text. */
  lemma {:induction false} JoinSplitOn(s: string, sep: char)
    ensures Join(SplitOn(s, sep), sep) == s
  {
    if s != [] {
      var rest := SplitOn(s[1..], sep);
      JoinSplitOn(s[1..], sep);
      if s[0] == sep {
        assert SplitOn(s, sep)[1..] == rest;
        if |rest| == 1 {
          assert Join(rest, sep) == rest[0];
        }
      } else {
        var r := SplitOn(s, sep);
        assert r[1..] == rest[1..];
        if |rest| == 1 {
          assert s == [s[0]] + rest[0];
        } else {
          assert Join(rest, sep) == rest[0] + [sep] + Join(rest[1..], sep);
        }
      }
    }
  }

  /** Conversely, splitting parts that hold no separator gives the parts back. */
  lemma {:induction false} SplitOnJoin(ps: seq<string>, sep: char)
    requires |ps| >= 1
    requires forall k | 0 <= k < |ps| :: sep !in ps[k]
    ensures SplitOn(Join(ps, sep), sep) == ps
  {
    if |ps| == 1 {
      SplitOnNoSep(ps[0], sep);
    } else {
      SplitOnJoin(ps[1..], sep);
      SplitOnPrefix(ps[0], Join(ps[1..], sep), sep);
      assert [ps[0]] + ps[1..] == ps;
    }
  }

  lemma {:induction false} SplitOnNoSep(s: string, sep: char)
    requires sep !in s
    ensures SplitOn(s, sep) == [s]
  {
    if s != [] {
      SplitOnNoSep(s[1..], sep);
      assert [s[0]] + s[1..] == s;
    }
  }

  /** A first part free of the separator, then the separator, then the rest. */
  lemma {:induction false} SplitOnPrefix(a: string, b: string, sep: char)
    requires sep !in a
    ensures SplitOn(a + [sep] + b, sep) == [a] + SplitOn(b, sep)
  {
    if a == [] {
      assert a + [sep] + b == [sep] + b;
      assert ([sep] + b)[1..] == b;
    } else {
      var s := a + [sep] + b;
      assert s[0] == a[0] && s[1..] == a[1..] + [sep] + b;
      SplitOnPrefix(a[1..], b, sep);
      assert [a[0]] + a[1..] == a;
    }
  }

  /** Adding one part at the end. */
  lemma {:induction false} JoinSnoc(ps: seq<string>, p: string, sep: char)
    requires |ps| >= 1
    ensures Join(ps + [p], sep) == Join(ps, sep) + [sep] + p
  {
    if |ps| == 1 {
      assert (ps + [p])[1..] == [p];
    } else {
      assert (ps + [p])[1..] == ps[1..] + [p];
      JoinSnoc(ps[1..], p, sep);
    }
  }
}
