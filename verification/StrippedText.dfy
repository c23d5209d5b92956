/** Texts with literals and comments: the literals stay, the comments become blanks. */
module StrippedText {
  import opened Comments
  import opened Texts
  import M = MacroCalls

  /** A character of code, a string or character literal, a comment up to the end of its
      line, and one between marks. */
  datatype Part = Code(x: char) | Literal(t: string) | Letter(t: string) | Line(c: string) | Block(c: string)

  function PartText(x: Part): (t: string)
    ensures x.Code? || x.Line? || x.Block? ==> t != ""
  {
    match x
    case Code(c) => [c]
    case Literal(t) => t
    case Letter(t) => t
    case Line(c) => "//" + c
    case Block(c) => "/*" + (c + "*/")
  }

  function Text(xs: seq<Part>): string { if xs == [] then "" else PartText(xs[0]) + Text(xs[1..]) }

  predicate PartOk(x: Part)
  {
    match x
    case Code(c) => c != '"' && c != '\''
    case Literal(t) => |t| >= 2 && t[0] == '"' && M.Ends(t, 1)
    case Letter(t) => M.IsLetterText(t)
    case Line(c) => '\n' !in c
    case Block(c) => NoCloser(c + "*/")
  }

  /** y may stand behind x: a line comment ends with its line, and a slash does not open a
      comment with what follows. */
  predicate Follows(x: Part, y: Part)
  {
    && (x.Line? ==> y == Code('\n'))
    && (x == Code('/') ==> !(y.Code? && (y.x == '/' || y.x == '*')) && !y.Line? && !y.Block?)
  }

  predicate Formed(xs: seq<Part>)
  {
    (forall k :: 0 <= k < |xs| ==> PartOk(xs[k])) && forall k :: 0 < k < |xs| ==> Follows(xs[k - 1], xs[k])
  }

  /** Blanks, as many as the comment has characters; its lines stay. */
  function Blanks(c: string): string { if c == "" then "" else [if c[0] == '\n' then '\n' else ' '] + Blanks(c[1..]) }

  function Kept(xs: seq<Part>): string
  {
    if xs == [] then ""
    else (if xs[0].Line? || xs[0].Block? then Blanks(xs[0].c) else PartText(xs[0])) + Kept(xs[1..])
  }

  lemma {:induction false} BlanksAt(c: string)
    ensures |Blanks(c)| == |c| && forall k :: 0 <= k < |c| ==> Blanks(c)[k] == if c[k] == '\n' then '\n' else ' '
    decreases |c|
  {
    if c != "" { BlanksAt(c[1..]); }
  }

  lemma {:induction false} BlanksAre(c: string)
    ensures Blanked(c) == Blanks(c)
  {
    hide Blanks;
    BlanksAt(c);
  }

  lemma {:induction false} LineEnds(s: string, i: nat, c: string, rest: string)
    requires i <= |s| && s[i..] == c + rest && '\n' !in c && (rest != "" ==> rest[0] == '\n')
    ensures i + |c| <= |s| && LineCommentEnd(s, i) == i + |c| && s[i..i + |c|] == c && s[i + |c|..] == rest
    decreases |c|
  {
    Past(s, i, c, rest);
    if c != "" {
      assert s[i] == c[0];
      assert s[i + 1..] == c[1..] + rest by { assert s[i..][1..] == (c + rest)[1..]; }
      LineEnds(s, i + 1, c[1..], rest);
    }
  }

  lemma {:induction false} BlockEnds(s: string, i: nat, c: string, rest: string)
    requires i <= |s| && s[i..] == c + ("*/" + rest) && NoCloser(c + "*/")
    ensures i + |c| + 2 <= |s| && BlockCommentEnd(s, i) == i + |c| && s[i..i + |c|] == c && s[i + |c| + 2..] == rest
  {
    hide BlockCommentEnd;
    var e := i + |c|;
    Past(s, i, c, "*/" + rest);
    Past(s, e, "*/", rest);
    assert s[e] == '*' && s[e + 1] == s[e..e + 2][1] == '/';
    assert forall k :: i <= k < e ==> s[k] == c[k - i];
    forall k | i <= k < e ensures !(s[k] == '*' && s[k + 1] == '/') {
      var t := c + "*/";
      assert t[k - i] == s[k] && t[k - i + 1] == s[k + 1];
    }
    CommentEndIs(s, i, e);
  }

  /** The piece at i is the first part. */
  lemma {:induction false} PartPiece(s: string, i: nat, x: Part, rest: string)
    requires i <= |s| && s[i..] == PartText(x) + rest && PartOk(x)
    requires (x.Line? ==> rest == "" || rest[0] == '\n') && (x == Code('/') ==> rest == "" || (rest[0] != '/' && rest[0] != '*'))
    ensures i < |s| && i + |PartText(x)| <= |s| && s[i + |PartText(x)|..] == rest
    ensures NextPiece(s, i) == Piece(i + |PartText(x)|, if x.Line? || x.Block? then Blanks(x.c) else PartText(x))
  {
    hide StringEnd, CharacterEnd, LineCommentEnd, BlockCommentEnd, Blanked, Blanks, M.Ends, NoCloser;
    Past(s, i, PartText(x), rest);
    match x {
      case Code(_) => assert i + 1 < |s| ==> s[i + 1] == rest[0];
      case Literal(t) => M.LiteralPassed(s, i, t, 1);
      case Letter(t) => M.LetterPassed(s, i, t);
      case Line(c) => LinePiece(s, i, c, rest);
      case Block(c) => BlockPiece(s, i, c, rest);
    }
  }

  lemma {:induction false} LinePiece(s: string, i: nat, c: string, rest: string)
    requires i <= |s| && s[i..] == "//" + c + rest && '\n' !in c && (rest != "" ==> rest[0] == '\n')
    ensures i + 2 + |c| <= |s| && s[i + 2 + |c|..] == rest && NextPiece(s, i) == Piece(i + 2 + |c|, Blanks(c))
  {
    hide StringEnd, CharacterEnd, LineCommentEnd, BlockCommentEnd, Blanked, Blanks;
    Regrouped("//", c, rest);
    Past(s, i, "//", c + rest);
    assert s[i] == s[i..i + 2][0] == '/' && s[i + 1] == s[i..i + 2][1] == '/';
    LineEnds(s, i + 2, c, rest);
    BlanksAre(c);
  }

  lemma {:induction false} BlockPiece(s: string, i: nat, c: string, rest: string)
    requires i <= |s| && s[i..] == "/*" + (c + "*/") + rest && NoCloser(c + "*/")
    ensures i + 4 + |c| <= |s| && s[i + 4 + |c|..] == rest && NextPiece(s, i) == Piece(i + 4 + |c|, Blanks(c))
  {
    hide StringEnd, CharacterEnd, LineCommentEnd, BlockCommentEnd, Blanked, Blanks, NoCloser;
    Regrouped("/*", c + "*/", rest); Regrouped(c, "*/", rest);
    Past(s, i, "/*", c + ("*/" + rest));
    assert s[i] == s[i..i + 2][0] == '/' && s[i + 1] == s[i..i + 2][1] == '*';
    BlockEnds(s, i + 2, c, rest);
    BlanksAre(c);
  }

  lemma {:induction false} Regrouped(a: string, b: string, c: string)
    ensures a + b + c == a + (b + c)
  {
  }

  lemma {:induction false} FormedRest(xs: seq<Part>)
    requires xs != [] && Formed(xs)
    ensures PartOk(xs[0]) && Formed(xs[1..]) && (|xs| > 1 ==> Follows(xs[0], xs[1]) && PartOk(xs[1]))
  {
    hide PartOk, Follows;
    forall k | 0 <= k < |xs[1..]| ensures PartOk(xs[1..][k]) { assert xs[1..][k] == xs[k + 1]; }
    forall k | 0 < k < |xs[1..]| ensures Follows(xs[1..][k - 1], xs[1..][k]) { assert xs[1..][k - 1] == xs[k] && xs[1..][k] == xs[k + 1]; }
  }

  /** How the text behind the first part begins. */
  lemma {:induction false} NextBegins(x: Part, y: Part, more: string)
    requires Follows(x, y) && PartOk(y)
    ensures var rest := PartText(y) + more;
      rest != "" && (x.Line? ==> rest[0] == '\n') && (x == Code('/') ==> rest[0] != '/' && rest[0] != '*')
  {
  }

  /** In a text of code, literals and comments the comments become blanks, as many as they
      have characters between their marks, and everything else stays as it is, comment
      marks in literals included. */
  lemma {:induction false} StrippedIs(s: string, i: nat, xs: seq<Part>)
    requires i <= |s| && s[i..] == Text(xs) && Formed(xs)
    ensures StrippedFrom(s, i) == Kept(xs)
    decreases |xs|
  {
    hide NextPiece, PartText, PartOk, Follows, Formed, Blanks;
    if xs == [] {
      assert s[i..] == "";
    } else {
      var x, rest := xs[0], Text(xs[1..]);
      FormedRest(xs);
      if |xs| > 1 {
        assert xs[1..][0] == xs[1];
        NextBegins(x, xs[1], Text(xs[1..][1..]));
      }
      PartPiece(s, i, x, rest);
      StrippedIs(s, i + |PartText(x)|, xs[1..]);
    }
  }
}
