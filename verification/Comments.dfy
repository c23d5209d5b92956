/** Removing comments: what goes out, that lines stay where they are, and that afterwards
    nothing is a comment any more. */
module Comments {

  function Newlines(s: string): nat
  {
    if s == "" then 0 else Newlines(s[1..]) + if s[0] == '\n' then 1 else 0
  }

  lemma {:induction false} NewlinesPlus(a: string, b: string)
    ensures Newlines(a + b) == Newlines(a) + Newlines(b)
    decreases |a|
  {
    if a == "" {
      assert a + b == b;
    } else {
      assert (a + b)[1..] == a[1..] + b;
      NewlinesPlus(a[1..], b);
    }
  }

  // ----- What goes out -----

  /** The end of a string literal whose content goes on at i. */
  function StringEnd(s: string, i: nat): (j: nat)
    requires i <= |s|
    ensures i <= j <= |s|
    decreases |s| - i
  {
    if i == |s| then i
    else if s[i] == '"' then i + 1
    else if s[i] == '\\' && i + 1 < |s| then StringEnd(s, i + 2)
    else StringEnd(s, i + 1)
  }

  /** The end of a character literal that opens at i. */
  function CharacterEnd(s: string, i: nat): (j: nat)
    requires i < |s|
    ensures i < j <= |s|
  {
    var a := if i + 1 < |s| && s[i + 1] == '\\' then i + 2 else i + 1;
    var b := if a < |s| then a + 1 else a;
    if b < |s| && s[b] == '\'' then b + 1 else b
  }

  /** Where a line comment ends. */
  function LineCommentEnd(s: string, i: nat): (j: nat)
    requires i <= |s|
    ensures i <= j <= |s|
    decreases |s| - i
  {
    if i == |s| || s[i] == '\n' then i else LineCommentEnd(s, i + 1)
  }

  /** Where the closing mark of a block comment stands, or the end of the text. */
  function BlockCommentEnd(s: string, i: nat): (j: nat)
    requires i <= |s|
    ensures i <= j <= |s|
    decreases |s| - i
  {
    if i == |s| || (s[i] == '*' && i + 1 < |s| && s[i + 1] == '/') then i else BlockCommentEnd(s, i + 1)
  }

  /** Blanks in place of a text; its lines stay. */
  function Blanked(s: string): (r: string)
    ensures |r| == |s| && forall k :: 0 <= k < |r| ==> r[k] == (if s[k] == '\n' then '\n' else ' ')
  {
    if s == "" then "" else Blanked(s[..|s| - 1]) + [if s[|s| - 1] == '\n' then '\n' else ' ']
  }

  /** One step of the scan: its end, and what it puts out. */
  datatype Piece = Piece(end: nat, out: string)

  function NextPiece(s: string, i: nat): (p: Piece)
    requires i < |s|
    ensures i < p.end <= |s|
  {
    if s[i] == '"' then Piece(StringEnd(s, i + 1), s[i..StringEnd(s, i + 1)])
    else if s[i] == '\'' then Piece(CharacterEnd(s, i), s[i..CharacterEnd(s, i)])
    else if s[i] == '/' && i + 1 < |s| && s[i + 1] == '/' then
      Piece(LineCommentEnd(s, i + 2), Blanked(s[i + 2..LineCommentEnd(s, i + 2)]))
    else if s[i] == '/' && i + 1 < |s| && s[i + 1] == '*' then
      var e := BlockCommentEnd(s, i + 2);
      Piece(if e + 2 <= |s| then e + 2 else |s|, Blanked(s[i + 2..e]))
    else Piece(i + 1, [s[i]])
  }

  /** The text from i on without its comments. */
  function StrippedFrom(s: string, i: nat): string
    requires i <= |s|
    decreases |s| - i
  {
    if i == |s| then "" else NextPiece(s, i).out + StrippedFrom(s, NextPiece(s, i).end)
  }

  function Stripped(s: string): string { StrippedFrom(s, 0) }

  // ----- Lines -----

  lemma {:induction false} BlankedLines(s: string)
    ensures Newlines(Blanked(s)) == Newlines(s)
    decreases |s|
  {
    if s != "" {
      var t, c := s[..|s| - 1], s[|s| - 1];
      assert s == t + [c];
      BlankedLines(t);
      NewlinesPlus(t, [c]);
      NewlinesPlus(Blanked(t), [if c == '\n' then '\n' else ' ']);
    }
  }

  lemma {:induction false} OneLess(s: string, i: nat, c: char, j: nat)
    requires i < j <= |s| && s[i] == c && c != '\n'
    ensures Newlines(s[i..j]) == Newlines(s[i + 1..j])
  {
    assert s[i..j][1..] == s[i + 1..j];
  }

  lemma {:induction false} PieceLines(s: string, i: nat)
    requires i < |s|
    ensures Newlines(NextPiece(s, i).out) == Newlines(s[i..NextPiece(s, i).end])
  {
    hide StringEnd, CharacterEnd, LineCommentEnd, Blanked;
    if s[i] == '/' && i + 1 < |s| && s[i + 1] == '/' {
      var e := LineCommentEnd(s, i + 2);
      BlankedLines(s[i + 2..e]);
      OneLess(s, i, '/', e); OneLess(s, i + 1, '/', e);
    } else if s[i] == '/' && i + 1 < |s| && s[i + 1] == '*' {
      var e := BlockCommentEnd(s, i + 2);
      BlankedLines(s[i + 2..e]);
      OneLess(s, i, '/', e); OneLess(s, i + 1, '*', e);
      ClosingMark(s, i + 2);
      if e + 2 <= |s| {
        assert s[i..e + 2] == s[i..e] + s[e..e + 2];
        NewlinesPlus(s[i..e], s[e..e + 2]);
        NoLines(s[e..e + 2]);
      }
    } else {
      assert s[i..i + 1] == [s[i]];
    }
  }

  lemma {:induction false} NoLines(s: string)
    requires s == "*/"
    ensures Newlines(s) == 0
  {
    assert s[1..] == "/" && "/"[1..] == "";
  }

  lemma {:induction false} ClosingMark(s: string, i: nat)
    requires i <= |s|
    ensures var e := BlockCommentEnd(s, i);
      (e + 2 <= |s| ==> s[e..e + 2] == "*/") && (e + 2 > |s| ==> e == |s|)
    decreases |s| - i
  {
    if i < |s| && !(s[i] == '*' && i + 1 < |s| && s[i + 1] == '/') { ClosingMark(s, i + 1); }
  }

  /** Every line keeps its number. */
  lemma {:induction false} LinesStay(s: string, i: nat)
    requires i <= |s|
    ensures Newlines(StrippedFrom(s, i)) == Newlines(s[i..])
    decreases |s| - i
  {
    hide NextPiece;
    if i < |s| {
      var p := NextPiece(s, i);
      PieceLines(s, i);
      LinesStay(s, p.end);
      NewlinesPlus(p.out, StrippedFrom(s, p.end));
      assert s[i..] == s[i..p.end] + s[p.end..];
      NewlinesPlus(s[i..p.end], s[p.end..]);
    }
  }

  // ----- No comment is left -----

  predicate Unquoted(s: string) { forall k :: 0 <= k < |s| ==> s[k] != '"' && s[k] != '\'' }

  /** No slash is followed by a slash or a star. */
  predicate NoOpener(s: string)
  {
    forall k :: 0 <= k < |s| - 1 ==> !(s[k] == '/' && (s[k + 1] == '/' || s[k + 1] == '*'))
  }

  /** A text that starts with a character other than a slash keeps it. */
  lemma {:induction false} FirstKept(s: string, i: nat)
    requires i < |s| && Unquoted(s) && s[i] != '/'
    ensures StrippedFrom(s, i) != "" && StrippedFrom(s, i)[0] == s[i]
  {
  }

  /** In a text without literals no comment is left behind: a second pass changes nothing. */
  lemma {:induction false} CommentsGone(s: string, i: nat)
    requires i <= |s| && Unquoted(s)
    ensures Unquoted(StrippedFrom(s, i)) && NoOpener(StrippedFrom(s, i))
    decreases |s| - i
  {
    hide StringEnd, CharacterEnd, LineCommentEnd, BlockCommentEnd;
    if i < |s| {
      var p := NextPiece(s, i);
      CommentsGone(s, p.end);
      var rest := StrippedFrom(s, p.end);
      if s[i] == '/' && p.end == i + 1 && i + 1 < |s| {
        if s[i + 1] != '/' { FirstKept(s, i + 1); }
      }
      JoinedClean(p.out, rest);
    }
  }

  lemma {:induction false} JoinedClean(a: string, b: string)
    requires Unquoted(a) && Unquoted(b) && NoOpener(a) && NoOpener(b)
    requires a != "" && a[|a| - 1] == '/' && b != "" ==> b[0] != '/' && b[0] != '*'
    ensures Unquoted(a + b) && NoOpener(a + b)
  {
  }

  lemma {:induction false} NothingToStrip(s: string, i: nat)
    requires i <= |s| && Unquoted(s) && NoOpener(s)
    ensures StrippedFrom(s, i) == s[i..]
    decreases |s| - i
  {
    if i < |s| {
      NothingToStrip(s, i + 1);
      assert s[i..] == [s[i]] + s[i + 1..];
    }
  }

  /** The second pass that is made over a file changes nothing. */
  lemma {:induction false} StrippedTwice(s: string)
    requires Unquoted(s)
    ensures Stripped(Stripped(s)) == Stripped(s)
  {
    hide StrippedFrom;
    CommentsGone(s, 0);
    NothingToStrip(Stripped(s), 0);
    assert Stripped(s)[0..] == Stripped(s);
  }

  // ----- What becomes of one comment -----

  /** Text in front of which nothing can be a comment: no quote and no slash. */
  predicate Plain(s: string) { Unquoted(s) && forall k :: 0 <= k < |s| ==> s[k] != '/' }

  predicate NoCloser(c: string) { forall k :: 0 <= k < |c| - 1 ==> !(c[k] == '*' && c[k + 1] == '/') }

  lemma {:induction false} PlainKept(p: string, q: string, i: nat)
    requires Plain(p) && i <= |p|
    ensures StrippedFrom(p + q, i) == p[i..] + StrippedFrom(p + q, |p|)
    decreases |p| - i
  {
    hide StrippedFrom, NextPiece;
    if i < |p| {
      PlainKept(p, q, i + 1);
      FirstPiece(p + q, i);
      PlainPiece(p + q, i);
      assert p[i..] == [p[i]] + p[i + 1..];
    }
  }

  lemma {:induction false} PlainPiece(s: string, i: nat)
    requires i < |s| && s[i] != '/' && s[i] != '"' && s[i] != '\''
    ensures NextPiece(s, i) == Piece(i + 1, [s[i]])
  {
  }

  lemma {:induction false} CommentEndIs(s: string, i: nat, e: nat)
    requires i <= e && e + 2 <= |s| && s[e] == '*' && s[e + 1] == '/'
    requires forall k :: i <= k < e ==> !(s[k] == '*' && s[k + 1] == '/')
    ensures BlockCommentEnd(s, i) == e
    decreases e - i
  {
    if i < e { CommentEndIs(s, i + 1, e); }
  }

  /** The stripped text depends only on what is left. */
  lemma {:induction false} FromSuffix(a: string, s: string, i: nat)
    requires i <= |s|
    ensures StrippedFrom(a + s, |a| + i) == StrippedFrom(s, i)
    decreases |s| - i
  {
    hide NextPiece;
    if i < |s| {
      PieceOfSuffix(a, s, i);
      FromSuffix(a, s, NextPiece(s, i).end);
    }
  }

  lemma {:induction false} PieceOfSuffix(a: string, s: string, i: nat)
    requires i < |s|
    ensures NextPiece(a + s, |a| + i) == Piece(|a| + NextPiece(s, i).end, NextPiece(s, i).out)
  {
    hide StringEnd, LineCommentEnd, BlockCommentEnd, Blanked, CharacterEnd;
    var t, n := a + s, |a|;
    assert t[n + i] == s[i] && (i + 1 < |s| ==> t[n + i + 1] == s[i + 1]);
    if s[i] == '"' {
      StringSuffix(a, s, i + 1);
      SliceSuffix(a, s, i, StringEnd(s, i + 1));
    } else if s[i] == '\'' {
      CharacterSuffix(a, s, i);
      SliceSuffix(a, s, i, CharacterEnd(s, i));
    } else if i + 2 <= |s| {
      LineSuffix(a, s, i + 2); BlockSuffix(a, s, i + 2);
      SliceSuffix(a, s, i + 2, LineCommentEnd(s, i + 2));
      SliceSuffix(a, s, i + 2, BlockCommentEnd(s, i + 2));
    }
  }

  lemma {:induction false} SliceSuffix(a: string, s: string, x: nat, y: nat)
    requires x <= y <= |s|
    ensures (a + s)[|a| + x..|a| + y] == s[x..y]
  {
  }

  lemma {:induction false} CharacterSuffix(a: string, s: string, i: nat)
    requires i < |s|
    ensures CharacterEnd(a + s, |a| + i) == |a| + CharacterEnd(s, i)
  {
  }

  lemma {:induction false} StringSuffix(a: string, s: string, i: nat)
    requires i <= |s|
    ensures StringEnd(a + s, |a| + i) == |a| + StringEnd(s, i)
    decreases |s| - i
  {
    if i < |s| {
      StringSuffix(a, s, i + 1);
      if i + 1 < |s| { StringSuffix(a, s, i + 2); }
    }
  }

  lemma {:induction false} LineSuffix(a: string, s: string, i: nat)
    requires i <= |s|
    ensures LineCommentEnd(a + s, |a| + i) == |a| + LineCommentEnd(s, i)
    decreases |s| - i
  {
    if i < |s| { LineSuffix(a, s, i + 1); }
  }

  lemma {:induction false} BlockSuffix(a: string, s: string, i: nat)
    requires i <= |s|
    ensures BlockCommentEnd(a + s, |a| + i) == |a| + BlockCommentEnd(s, i)
    decreases |s| - i
  {
    if i < |s| { BlockSuffix(a, s, i + 1); }
  }

  function WithComment(p: string, c: string, q: string): string { p + ("/*" + (c + ("*/" + q))) }

  /** A block comment becomes as many blanks as it has characters between its marks.  C
      puts one space there: so the texts on both sides stay apart if and only if the
      comment is not empty. */
  lemma {:induction false} CommentBlanked(p: string, c: string, q: string)
    requires Plain(p) && NoCloser(c)
    ensures Stripped(WithComment(p, c, q)) == p + (Blanked(c) + Stripped(q))
    ensures Blanked(c) != "" <==> c != ""
  {
    hide StrippedFrom, Blanked, BlockCommentEnd;
    var t := "/*" + (c + ("*/" + q));
    var s, n, e := p + t, |p|, |p| + 2 + |c|;
    PlainKept(p, t, 0);
    assert p[0..] == p;
    assert s[n] == '/' && s[n + 1] == '*' && s[e] == '*' && s[e + 1] == '/';
    assert forall k :: 0 <= k < |c| ==> s[n + 2 + k] == c[k];
    forall k | n + 2 <= k < e ensures !(s[k] == '*' && s[k + 1] == '/') {
      assert s[k] == c[k - n - 2];
      if k + 1 < e { assert s[k + 1] == c[k + 1 - n - 2]; }
    }
    CommentEndIs(s, n + 2, e);
    assert s[n + 2..e] == c;
    FirstPiece(s, n);
    var a := p + ("/*" + (c + "*/"));
    assert a + q == s && |a| == e + 2;
    FromSuffix(a, q, 0);
  }

  lemma {:induction false} FirstPiece(s: string, i: nat)
    requires i < |s|
    ensures StrippedFrom(s, i) == NextPiece(s, i).out + StrippedFrom(s, NextPiece(s, i).end)
  {
  }

  /** a, an empty comment, b: two names in C, one name here. */
  lemma {:induction false} EmptyCommentJoins(a: string, b: string)
    requires Plain(a) && Plain(b)
    ensures Stripped(a + "/**/" + b) == a + b
  {
    hide StrippedFrom;
    CommentBlanked(a, "", b);
    assert WithComment(a, "", b) == a + "/**/" + b;
    NothingToStrip(b, 0);
    assert b[0..] == b && Blanked("") == "" && "" + b == b;
  }

  // ----- The program -----

  /** Removes comments. */
  method StripAllComments(s: string) returns (r: string)
    ensures r == Stripped(s) && Newlines(r) == Newlines(s)
  {
    hide StrippedFrom, Newlines, StringEnd, CharacterEnd, LineCommentEnd, BlockCommentEnd, Blanked;
    r := "";
    var i := 0;
    while i < |s|
      invariant i <= |s| && r + StrippedFrom(s, i) == Stripped(s)
    {
      ghost var p, before := NextPiece(s, i), r;
      FirstPiece(s, i);
      var t;
      if s[i] == '"' {
        t, i := CopyString(s, i);
      } else if s[i] == '\'' {
        t, i := CopyCharacter(s, i);
      } else if s[i] == '/' && i + 1 < |s| && s[i + 1] == '/' {
        t, i := LineComment(s, i);
      } else if s[i] == '/' && i + 1 < |s| && s[i + 1] == '*' {
        t, i := BlockComment(s, i);
      } else {
        t, i := [s[i]], i + 1;
      }
      assert before + (p.out + StrippedFrom(s, p.end)) == before + p.out + StrippedFrom(s, p.end);
      r := r + t;
    }
    NoMore(s);
    assert r + "" == r;
    LinesStay(s, 0);
    assert s[0..] == s;
  }

  lemma {:induction false} NoMore(s: string)
    ensures StrippedFrom(s, |s|) == ""
  {
  }

  method CopyString(s: string, start: nat) returns (t: string, i: nat)
    requires start < |s|
    ensures i == StringEnd(s, start + 1) && t == s[start..i]
  {
    t, i := [s[start]], start + 1;
    while i < |s| && s[i] != '"'
      invariant start < i <= |s| && StringEnd(s, i) == StringEnd(s, start + 1) && t == s[start..i]
    {
      if s[i] == '\\' && i + 1 < |s| { t, i := t + [s[i]], i + 1; }
      t, i := t + [s[i]], i + 1;
    }
    if i < |s| { t, i := t + [s[i]], i + 1; }
  }

  method CopyCharacter(s: string, start: nat) returns (t: string, i: nat)
    requires start < |s|
    ensures i == CharacterEnd(s, start) && t == s[start..i]
  {
    t, i := [s[start]], start + 1;
    if i < |s| && s[i] == '\\' { t, i := t + [s[i]], i + 1; }
    if i < |s| { t, i := t + [s[i]], i + 1; }
    if i < |s| && s[i] == '\'' { t, i := t + [s[i]], i + 1; }
  }

  method LineComment(s: string, start: nat) returns (t: string, i: nat)
    requires start + 1 < |s|
    ensures i == LineCommentEnd(s, start + 2) && t == Blanked(s[start + 2..i])
  {
    t, i := "", start + 2;
    while i < |s| && s[i] != '\n'
      invariant start + 2 <= i <= |s| && LineCommentEnd(s, i) == LineCommentEnd(s, start + 2) && t == Blanked(s[start + 2..i])
    {
      BlankedNext(s, start + 2, i);
      t, i := t + " ", i + 1;
    }
  }

  method BlockComment(s: string, start: nat) returns (t: string, i: nat)
    requires start + 1 < |s|
    ensures var e := BlockCommentEnd(s, start + 2);
      i == (if e + 2 <= |s| then e + 2 else |s|) && t == Blanked(s[start + 2..e])
  {
    t, i := "", start + 2;
    while i < |s|
      invariant start + 2 <= i <= |s| && BlockCommentEnd(s, i) == BlockCommentEnd(s, start + 2) && t == Blanked(s[start + 2..i])
    {
      if s[i] == '*' && i + 1 < |s| && s[i + 1] == '/' { return t, i + 2; }
      BlankedNext(s, start + 2, i);
      t, i := t + [if s[i] == '\n' then '\n' else ' '], i + 1;
    }
  }

  lemma {:induction false} BlankedNext(s: string, i: nat, j: nat)
    requires i <= j < |s|
    ensures Blanked(s[i..j + 1]) == Blanked(s[i..j]) + [if s[j] == '\n' then '\n' else ' ']
  {
    assert s[i..j + 1][..j - i] == s[i..j];
  }
}
