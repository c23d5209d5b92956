/** Lines of the source: how they are counted for __LINE__, where the count is right, and
    how continued lines are joined. */
module SourceLines {
  import opened IfExpression
  import opened Conditionals
  import opened DirectiveReader
  import opened Directives
  import opened Texts
  import C = Comments
  import M = MacroCalls
  import N = IfMeaning

  // ----- Counting -----

  lemma {:induction false} NewlinesNone(t: string)
    ensures C.Newlines(t) == 0 <==> '\n' !in t
    decreases |t|
  {
    if t != "" {
      assert t == [t[0]] + t[1..];
      NewlinesNone(t[1..]);
    }
  }

  lemma {:induction false} NewlinesLast(s: string, i: nat, j: nat)
    requires i < j <= |s|
    ensures C.Newlines(s[i..j]) == C.Newlines(s[i..j - 1]) + if s[j - 1] == '\n' then 1 else 0
  {
    assert s[i..j] == s[i..j - 1] + [s[j - 1]];
    assert [s[j - 1]][1..] == "";
    C.NewlinesPlus(s[i..j - 1], [s[j - 1]]);
  }

  lemma {:induction false} ThroughLine(s: string, i: nat)
    requires i < |s|
    ensures '\n' !in s[i..NextLine(s, i) - 1]
    decreases |s| - i
  {
    if s[i] != '\n' && i + 1 < |s| {
      ThroughLine(s, i + 1);
      var e := NextLine(s, i);
      assert s[i..e - 1] == [s[i]] + s[i + 1..e - 1];
    }
  }

  /** A pass that gets behind a name ends with a name or with a parenthesis. */
  lemma {:induction false} NameEndsPlain(k: Setting, s: string, i: nat, ms: seq<Macro>, c: Cond, depth: nat)
    requires i < |s| && IsLetter(s[i]) && NamePass(k, s, i, ms, c, depth).Pass?
    ensures var r := NamePass(k, s, i, ms, c, depth); r.known.line == k.line && s[r.i - 1] != '\n'
  {
    hide Scan, Lookup, FunctionIndex, CallPass, Decimal;
    var e := IdEnd(s, i);
    NameChars(s, i);
    assert IsIdChar(s[e - 1]);
    var fi := FunctionIndex(k.funcs, s[i..e]);
    if e < |s| && s[e] == '(' && fi < |k.funcs| && CallPass(k, s, e, fi, ms, c, depth).Pass? { CallEndsPlain(k, s, e, fi, ms, c, depth); }
  }

  lemma {:induction false} CallEndsPlain(k: Setting, s: string, open: nat, fi: nat, ms: seq<Macro>, c: Cond, depth: nat)
    requires 0 < open < |s| && fi < |k.funcs| && IsIdChar(s[open - 1]) && CallPass(k, s, open, fi, ms, c, depth).Pass?
    ensures var r := CallPass(k, s, open, fi, ms, c, depth); r.known.line == k.line && s[r.i - 1] != '\n'
  {
    hide Scan, M.Split, ExpandPass, M.ArgumentTexts;
    match M.Split(s, open + 1, 1, open + 1, [])
    case TooMany =>
    case Unclosed =>
    case Args(spans, close) =>
      M.SplitInside(s, open + 1, 1, open + 1, [], open + 1);
      Closed(s, open + 1, 1, open + 1, []);
      ExpandEndsPlain(k, s, open, M.ArgumentTexts(s, spans, open + 1, close), close, fi, ms, c, depth);
  }

  lemma {:induction false} ExpandEndsPlain(k: Setting, s: string, open: nat, raws: seq<string>, close: nat, fi: nat, ms: seq<Macro>, c: Cond,
                                           depth: nat)
    requires open < close < |s| && fi < |k.funcs| && (forall t :: t in raws ==> |t| < |s| - open) && s[close] == ')'
    requires ExpandPass(k, s, open, raws, close, fi, ms, c, depth).Pass?
    ensures var r := ExpandPass(k, s, open, raws, close, fi, ms, c, depth); r.known.line == k.line && s[r.i - 1] != '\n'
  {
    hide Scan, ArgumentsPass, FollowPass;
    var inner := Fresh(k.(stack := k.stack + [fi]));
    var a := ArgumentsPass(inner, raws, ms, c, depth, |s| - open);
    if a.Texts? {
      var temp := S.Substituted(k.funcs[fi], raws, a.texts);
      if temp != "" && depth < MAX_LEVEL {
        var p := Scan(inner.(funcs := a.funcs), temp, 0, a.macros, a.cond, depth + 1);
        if p.Pass? { FollowEndsPlain(k.(funcs := p.known.funcs), s, close, p.out, p.macros, p.cond, depth); }
      }
    }
  }

  lemma {:induction false} FollowEndsPlain(k: Setting, s: string, close: nat, result: string, ms: seq<Macro>, c: Cond, depth: nat)
    requires close < |s| && depth < MAX_LEVEL && s[close] == ')'
    ensures var r := FollowPass(k, s, close, result, ms, c, depth); r.Pass? ==> r.known.line == k.line && s[r.i - 1] != '\n'
  {
    hide Scan, SkipBlanks, IdEnd, FunctionIndex, M.CloseOf;
    if close + 1 < |s| { CloseAt(s, close + 2, 1); }
  }

  lemma {:induction false} Closed(s: string, p: nat, depth: nat, start: nat, spans: seq<M.Span>)
    requires start <= p <= |s|
    ensures var r := M.Split(s, p, depth, start, spans); r.Args? ==> p <= r.close < |s| && s[r.close] == ')'
    decreases |s| - p
  {
    hide C.StringEnd, C.CharacterEnd;
    if p < |s| && s[p] == '"' {
      Closed(s, C.StringEnd(s, p + 1), depth, start, spans);
    } else if p < |s| && s[p] == '\'' {
      Closed(s, C.CharacterEnd(s, p), depth, start, spans);
    } else if p < |s| && s[p] == '(' {
      Closed(s, p + 1, depth + 1, start, spans);
    } else if p < |s| && s[p] == ')' {
      if depth > 1 { Closed(s, p + 1, depth - 1, start, spans); }
    } else if p < |s| {
      Closed(s, p + 1, depth, start, spans);
      Closed(s, p + 1, 1, p + 1, spans + [M.Span(start, p - start)]);
    }
  }

  lemma {:induction false} CloseAt(s: string, p: nat, depth: nat)
    requires p <= |s|
    ensures var e := M.CloseOf(s, p, depth); e < |s| ==> s[e] == ')'
    decreases |s| - p
  {
    hide C.StringEnd;
    if p < |s| && s[p] == '"' {
      CloseAt(s, C.StringEnd(s, p + 1), depth);
    } else if p < |s| && s[p] == '(' {
      CloseAt(s, p + 1, depth + 1);
    } else if p < |s| && !(s[p] == ')' && depth <= 1) {
      CloseAt(s, p + 1, if s[p] == ')' then depth - 1 else depth);
    }
  }

  lemma {:induction false} DirectiveCounts(k: Setting, s: string, i: nat, ms: seq<Macro>, c: Cond, depth: nat)
    requires i < |s| && s[i] == '#' && DirectivePass(k, s, i, ms, c, depth).Pass?
    ensures var r := DirectivePass(k, s, i, ms, c, depth); r.known.line == Counting(k, s, r.i).line
  {
    hide DirectiveEnd, PastSpaces, StartsWith, Opens, ReadDirective, ActPass, Chosen, TestOf, OnIf, OnElse, OnEndif;
  }

  /** A pass counts a line exactly if the text behind which it gets ends with a newline,
      a literal excepted. */
  lemma {:induction false} PassCounts(k: Setting, s: string, i: nat, ms: seq<Macro>, c: Cond, depth: nat)
    requires i < |s| && OnePass(k, s, i, ms, c, depth).Pass?
    ensures var r := OnePass(k, s, i, ms, c, depth);
      r.known.line == k.line + if s[r.i - 1] == '\n' && !(s[i] == '"' && c.skip == 0) then 1 else 0
  {
    hide DirectivePass, NamePass, NextLine, C.StringEnd, AtLineStart;
    if c.skip > 0 && s[i] != '#' {
    } else if s[i] == '#' && AtLineStart(s, i) {
      DirectiveCounts(k, s, i, ms, c, depth);
    } else if IsLetter(s[i]) {
      NameEndsPlain(k, s, i, ms, c, depth);
    }
  }

  /** The number of the line is right behind a pass if and only if there was no newline in
      it but its last character, and that is no part of a string literal: continued
      directives and calls over several lines are counted as one line. */
  lemma {:induction false} LinesExactly(k: Setting, s: string, i: nat, ms: seq<Macro>, c: Cond, depth: nat)
    requires i < |s| && OnePass(k, s, i, ms, c, depth).Pass?
    ensures var r := OnePass(k, s, i, ms, c, depth);
      r.known.line == k.line + C.Newlines(s[i..r.i]) <==>
        '\n' !in s[i..r.i - 1] && (s[i] == '"' && c.skip == 0 ==> s[r.i - 1] != '\n')
  {
    hide OnePass, C.Newlines;
    var r := OnePass(k, s, i, ms, c, depth);
    PassCounts(k, s, i, ms, c, depth);
    NewlinesLast(s, i, r.i);
    NewlinesNone(s[i..r.i - 1]);
  }

  /** A directive that is continued on a second line counts as one. */
  lemma {:induction false} ContinuedCounts(k: Setting, a: string, b: string, rest: string, ms: seq<Macro>, c: Cond, depth: nat)
    requires OneLine(a) && OneLine(b)
    ensures var s := ("#" + a) + ("\\\n" + (b + ("\n" + rest)));
      var r := OnePass(k, s, 0, ms, c, depth);
      r.Pass? ==> r.i == |s| - |rest| && r.known.line == k.line + 1 && C.Newlines(s[..r.i]) == 2
  {
    hide DirectivePass, OnePass, C.Newlines, DirectiveEnd;
    var t := "\\\n" + (b + ("\n" + rest));
    var s := ("#" + a) + t;
    var n, e := 1 + |a|, 3 + |a| + |b|;
    assert s[0..] == s;
    EndBehind(s, 0, "#" + a, t);
    Past(s, 0, "#" + a, t);
    RestBehind(s, n, b, rest);
    FirstHash(k, s, ms, c, depth);
    if OnePass(k, s, 0, ms, c, depth).Pass? {
      DirectiveCounts(k, s, 0, ms, c, depth);
      EndsBehind(k, s, ms, c, depth);
      FirstLines(a, b, rest);
      Counted2(a, b);
    }
  }

  lemma {:induction false} RestBehind(s: string, n: nat, b: string, rest: string)
    requires n <= |s| && s[n..] == "\\\n" + (b + ("\n" + rest)) && OneLine(b)
    ensures var e := n + 2 + |b|; e < |s| && |s| == e + 1 + |rest| && DirectiveEnd(s, n) == e && s[e] == '\n'
  {
    hide DirectiveEnd;
    var e := n + 2 + |b|;
    Past(s, n, "\\\n", b + ("\n" + rest));
    Continues(s, n);
    EndBehind(s, n + 2, b, "\n" + rest);
    Past(s, n + 2, b, "\n" + rest);
    StopsAt(s, e);
  }

  lemma {:induction false} FirstLines(a: string, b: string, rest: string)
    ensures (("#" + a) + ("\\\n" + (b + ("\n" + rest))))[..4 + |a| + |b|] == ("#" + a) + ("\\\n" + (b + "\n"))
  {
  }

  lemma {:induction false} Counted2(a: string, b: string)
    requires OneLine(a) && OneLine(b)
    ensures C.Newlines(("#" + a) + ("\\\n" + (b + "\n"))) == 2
  {
    C.NewlinesPlus("#" + a, "\\\n" + (b + "\n"));
    C.NewlinesPlus("\\\n", b + "\n");
    C.NewlinesPlus(b, "\n");
    NewlinesNone("#" + a); NewlinesNone(b);
    assert "\\\n"[1..] == "\n" && "\n"[1..] == "";
  }

  lemma {:induction false} Continues(s: string, n: nat)
    requires n + 2 <= |s| && s[n..n + 2] == "\\\n"
    ensures DirectiveEnd(s, n) == DirectiveEnd(s, n + 2)
  {
    assert s[n] == s[n..n + 2][0] && s[n + 1] == s[n..n + 2][1];
  }

  lemma {:induction false} StopsAt(s: string, e: nat)
    requires e < |s| && s[e] == '\n'
    ensures DirectiveEnd(s, e) == e
  {
  }

  lemma {:induction false} FirstHash(k: Setting, s: string, ms: seq<Macro>, c: Cond, depth: nat)
    requires s != "" && s[0] == '#'
    ensures OnePass(k, s, 0, ms, c, depth) == DirectivePass(k, s, 0, ms, c, depth)
  {
    hide DirectivePass;
  }

  lemma {:induction false} EndsBehind(k: Setting, s: string, ms: seq<Macro>, c: Cond, depth: nat)
    requires s != "" && s[0] == '#' && DirectivePass(k, s, 0, ms, c, depth).Pass?
    ensures DirectivePass(k, s, 0, ms, c, depth).i == BehindLine(s, DirectiveEnd(s, 0))
  {
    hide DirectiveEnd, PastSpaces, StartsWith, Opens, ReadDirective, ActPass, Chosen, TestOf, OnIf, OnElse, OnEndif, BehindLine;
  }

  lemma {:induction false} EndBehind(s: string, i: nat, d: string, rest: string)
    requires i <= |s| && s[i..] == d + rest && OneLine(d)
    ensures i + |d| <= |s| && DirectiveEnd(s, i) == DirectiveEnd(s, i + |d|)
    decreases |d|
  {
    Past(s, i, d, rest);
    if d != "" {
      assert s[i] == d[0];
      assert s[i + 1..] == d[1..] + rest by { assert s[i..][1..] == (d + rest)[1..]; }
      EndBehind(s, i + 1, d[1..], rest);
    }
  }

  // ----- The line number -----

  /** The number is written in decimal, without zeros in front. */
  lemma {:induction false} DecimalReads(n: nat)
    ensures exists fs: seq<N.Figure> :: (N.Below(fs, 10) && Decimal(n) == N.Written(fs) && N.Positional(fs, 10) == n && |fs| > 0
      && (fs[0].v == 0 ==> n == 0))
  {
    var fs := FiguresOf(n);
    FiguresRead(n);
    assert N.Below(fs, 10) && Decimal(n) == N.Written(fs) && N.Positional(fs, 10) == n;
  }

  function FiguresOf(n: nat): (fs: seq<N.Figure>)
    ensures |fs| > 0 && (fs[0].v == 0 ==> n == 0)
  {
    if n < 10 then [N.Figure(n, false)] else FiguresOf(n / 10) + [N.Figure(n % 10, false)]
  }

  lemma {:induction false} FiguresRead(n: nat)
    ensures var fs := FiguresOf(n); N.Below(fs, 10) && Decimal(n) == N.Written(fs) && N.Positional(fs, 10) == n
  {
    var fs := FiguresOf(n);
    if n < 10 {
      GlyphOf(n);
      assert fs[..0] == [] && fs[1..] == [];
    } else {
      var init := FiguresOf(n / 10);
      FiguresRead(n / 10);
      assert fs[..|fs| - 1] == init;
      N.WrittenSnoc(fs);
      GlyphOf(n % 10);
      assert N.Written(fs) == N.Written(fs)[..|fs| - 1] + [N.Written(fs)[|fs| - 1]];
    }
  }

  lemma {:induction false} GlyphOf(d: nat)
    requires d < 10
    ensures d as char + '0' == N.Glyph(N.Figure(d, false))
  {
    var s := "0123456789";
    assert forall j :: 0 <= j < 10 ==> s[j] == j as char + '0';
  }

  lemma {:induction false} DecimalOnce(a: nat, b: nat)
    ensures Decimal(a) == Decimal(b) <==> a == b
    decreases a
  {
    if Decimal(a) == Decimal(b) {
      var s, t := Decimal(a), Decimal(b);
      LastFigure(a); LastFigure(b);
      if a >= 10 { DecimalOnce(a / 10, b / 10); }
    }
  }

  lemma {:induction false} LastFigure(n: nat)
    ensures var s := Decimal(n); s != "" && s[|s| - 1] as int == n % 10 + '0' as int && (n < 10 <==> |s| == 1) && (n >= 10 ==> s[..|s| - 1] == Decimal(n / 10))
  {
    if n >= 10 { assert Decimal(n / 10) != "" by { LastFigure(n / 10); } }
  }

  /** The word alone is the number of its line. */
  lemma {:induction false} LineIs(k: Setting, s: string, i: nat, rest: string, ms: seq<Macro>, c: Cond, depth: nat)
    requires i <= |s| && s[i..] == "__LINE__" + rest && (rest != "" ==> !IsIdChar(rest[0])) && c.skip == 0
    ensures i + 8 <= |s| && Scan(k, s, i, ms, c, depth) == With(Decimal(k.line), Scan(k, s, i + 8, ms, c, depth))
  {
    hide Scan, Lookup, Decimal;
    Past(s, i, "__LINE__", rest);
    I.NameEnds(s, i, "__LINE__", rest);
    ScanStep(k, s, i, ms, c, depth);
  }

  lemma {:induction false} OneWritten()
    ensures Decimal(1) == "1"
  {
  }

  /** In the value of an object macro it is always 1: the number of the line if and only if
      the macro is used on the first one. */
  lemma {:induction false} MacroLineExactly(k: Setting, s: string, i: nat, n: string, rest: string, ms: seq<Macro>, c: Cond, depth: nat)
    requires i <= |s| && s[i..] == n + rest && I.IsName(n) && n != "__LINE__" && (rest != "" ==> !IsIdChar(rest[0])) && c.skip == 0
    requires Lookup(ms, n) == Has("__LINE__") && depth < MAX_LEVEL
    ensures i + |n| <= |s| && Scan(k, s, i, ms, c, depth) == With("1", Scan(k, s, i + |n|, ms, c, depth))
    ensures "1" == Decimal(k.line) <==> k.line == 1
  {
    hide Scan, Lookup, Decimal, CallPass, DirectivePass, NextLine, AtLineStart, C.StringEnd;
    var line := "__LINE__";
    Past(s, i, n, rest);
    I.NameEnds(s, i, n, rest);
    assert line[0..] == line + "";
    LineIs(Fresh(k), line, 0, "", ms, c, depth + 1);
    ScanEnds(Fresh(k), line, ms, c, depth + 1);
    OneWritten();
    assert "1" + "" == "1";
    ScanStep(k, s, i, ms, c, depth);
    DecimalOnce(1, k.line);
  }

  // ----- Continued lines -----

  /** The text with each backslash-newline taken out, as section 5.1.1.2 of ISO C11 has it;
      a carriage return between the two goes as well. */
  function Spliced(t: string, i: nat): string
    requires i <= |t|
    decreases |t| - i
  {
    if i == |t| then ""
    else if t[i] == '\\' && i + 1 < |t| && t[i + 1] == '\n' then Spliced(t, i + 2)
    else if t[i] == '\\' && i + 2 < |t| && t[i + 1] == '\r' && t[i + 2] == '\n' then Spliced(t, i + 3)
    else [t[i]] + Spliced(t, i + 1)
  }

  /** Behind a continued line end at i stands a blank. */
  predicate Indented(t: string, i: nat)
    requires i < |t|
  {
    var n := if t[i] == '\\' && i + 1 < |t| && t[i + 1] == '\r' then i + 2 else i + 1;
    t[i] == '\\' && n + 1 < |t| && t[n] == '\n' && (t[n + 1] == ' ' || t[n + 1] == '\t')
  }

  /** A line end at i is continued, and behind it the text goes on at n. */
  predicate ContinuedAt(t: string, i: nat, n: nat)
    requires i < |t|
  {
    n == (if t[i] == '\\' && i + 1 < |t| && t[i + 1] == '\r' then i + 3 else i + 2) && t[i] == '\\' && n <= |t| && t[n - 1] == '\n'
  }

  lemma {:induction false} SpliceStep(t: string, i: nat)
    requires i < |t|
    ensures forall n :: ContinuedAt(t, i, n) ==> Spliced(t, i) == Spliced(t, n) && Joined(t, i) == Joined(t, AfterSpaces(t, n))
    ensures (forall n :: !ContinuedAt(t, i, n)) ==>
      Spliced(t, i) == [t[i]] + Spliced(t, i + 1) && Joined(t, i) == [t[i]] + Joined(t, i + 1)
  {
    hide AfterSpaces;
    assert ContinuedAt(t, i, i + 2) || ContinuedAt(t, i, i + 3) || Continuation(t, i) == i;
  }

  lemma {:induction false} BlankStays(t: string, i: nat)
    requires i < |t| && t[i] != '\\'
    ensures Spliced(t, i) == [t[i]] + Spliced(t, i + 1) && Joined(t, i) == [t[i]] + Joined(t, i + 1)
  {
    hide Spliced, Joined;
    SpliceStep(t, i);
  }

  lemma {:induction false} SplicedBlanks(t: string, i: nat)
    requires i <= |t|
    ensures Spliced(t, i) == t[i..AfterSpaces(t, i)] + Spliced(t, AfterSpaces(t, i))
    ensures AfterSpaces(t, i) > i <==> i < |t| && (t[i] == ' ' || t[i] == '\t')
    decreases |t| - i
  {
    hide Spliced;
    var a := AfterSpaces(t, i);
    if a > i {
      SplicedBlanks(t, i + 1);
      BlankStays(t, i);
      Regroups(t, i, a, Spliced(t, a));
    } else {
      assert t[i..a] + Spliced(t, a) == Spliced(t, a);
    }
  }

  lemma {:induction false} Regroups(t: string, i: nat, a: nat, x: string)
    requires i < a <= |t|
    ensures [t[i]] + (t[i + 1..a] + x) == t[i..a] + x
  {
  }

  /** The lines are joined as C joins them if and only if no continuation is indented;
      otherwise the indentation is lost, and words run together. */
  lemma {:induction false} JoinedExactly(t: string, i: nat)
    requires i <= |t|
    ensures |Joined(t, i)| <= |Spliced(t, i)|
    ensures Joined(t, i) == Spliced(t, i) <==> forall j :: i <= j < |t| ==> !Indented(t, j)
    decreases |t| - i
  {
    hide AfterSpaces, Joined, Spliced, Indented, ContinuedAt;
    if i == |t| {
      JoinsNothing(t);
    } else {
      SpliceStep(t, i);
      if n: nat :| ContinuedAt(t, i, n) {
        Within(t, i, n);
        var a := AfterSpaces(t, n);
        SplicedBlanks(t, n);
        JoinedExactly(t, a);
        assert Joined(t, a) != t[n..a] + Spliced(t, a) || a == n;
        if a == n { assert t[n..a] + Spliced(t, a) == Spliced(t, a); }
      } else {
        JoinedExactly(t, i + 1);
        NotIndented(t, i);
        SameTail(t[i], Joined(t, i + 1), Spliced(t, i + 1));
      }
    }
  }

  lemma {:induction false} JoinsNothing(t: string)
    ensures Joined(t, |t|) == Spliced(t, |t|) == ""
  {
  }

  lemma {:induction false} SameTail(c: char, a: string, b: string)
    ensures [c] + a == [c] + b <==> a == b
  {
    if [c] + a == [c] + b { assert a == ([c] + a)[1..] == ([c] + b)[1..] == b; }
  }

  lemma {:induction false} NotIndented(t: string, i: nat)
    requires i < |t| && forall n :: !ContinuedAt(t, i, n)
    ensures !Indented(t, i)
  {
    assert !ContinuedAt(t, i, i + 2) && !ContinuedAt(t, i, i + 3);
  }

  /** A continued line end is indented exactly if blanks follow it; nothing in it or in the
      blanks is another one. */
  lemma {:induction false} Within(t: string, i: nat, n: nat)
    requires i < |t| && ContinuedAt(t, i, n)
    ensures i < n <= |t| && (Indented(t, i) <==> AfterSpaces(t, n) > n)
    ensures forall j :: i < j < AfterSpaces(t, n) ==> !Indented(t, j)
  {
    BlanksFrom(t, n);
  }

  lemma {:induction false} BlanksFrom(t: string, i: nat)
    requires i <= |t|
    ensures forall j :: i <= j < AfterSpaces(t, i) ==> t[j] == ' ' || t[j] == '\t'
    decreases |t| - i
  {
    if i < |t| && (t[i] == ' ' || t[i] == '\t') { BlanksFrom(t, i + 1); }
  }

  /** One continued line. */
  lemma {:induction false} ContinuedReads(a: string, b: string)
    requires OneLine(a) && OneLine(b) && (b != "" ==> !IsSpace(b[0]))
    ensures Joined(a + ("\\\n" + b), 0) == a + b && Joined(a + ("\\\n " + b), 0) == a + b
  {
    hide Joined;
    JoinsBehind(a, "\\\n" + b, 0);
    JoinsBehind(a, "\\\n " + b, 0);
    assert a[0..] == a;
    JoinsOne(a + ("\\\n" + b), |a|, b);
    JoinsOne(a + ("\\\n " + b), |a|, b);
  }

  lemma {:induction false} JoinsOne(t: string, i: nat, b: string)
    requires i + 2 <= |t| && t[i] == '\\' && t[i + 1] == '\n' && OneLine(b) && (b != "" ==> !IsSpace(b[0]))
    requires t[i + 2..] == b || (i + 3 <= |t| && t[i + 2] == ' ' && t[i + 3..] == b)
    ensures Joined(t, i) == b
  {
    var n := if t[i + 2..] == b then i + 2 else i + 3;
    if n < |t| { assert t[n] == b[0]; }
    assert AfterSpaces(t, n) == n;
    assert Continuation(t, i) == n;
    JoinedRest(t, n);
  }

  lemma {:induction false} JoinedRest(t: string, n: nat)
    requires n <= |t| && OneLine(t[n..])
    ensures Joined(t, n) == t[n..]
    decreases |t| - n
  {
    if n < |t| {
      assert t[n] == t[n..][0] && t[n + 1..] == t[n..][1..];
      JoinedRest(t, n + 1);
    }
  }

  lemma {:induction false} JoinsBehind(a: string, x: string, i: nat)
    requires OneLine(a) && i <= |a|
    ensures Joined(a + x, i) == a[i..] + Joined(a + x, |a|)
    decreases |a| - i
  {
    hide Joined;
    var t := a + x;
    if i < |a| {
      assert t[i] == a[i];
      JoinsBehind(a, x, i + 1);
      BlankStays(t, i);
      assert a[i..|a|] == a[i..] && a[i + 1..|a|] == a[i + 1..];
      Regroups(a, i, |a|, Joined(t, |a|));
    } else {
      assert a[i..] + Joined(t, |a|) == Joined(t, |a|);
    }
  }

  // ----- Indented directives -----

  lemma {:induction false} GapsOut(k: Setting, s: string, i: nat, gap: string, rest: string, ms: seq<Macro>, c: Cond, depth: nat)
    requires i <= |s| && s[i..] == gap + rest && (forall j :: 0 <= j < |gap| ==> IsSpace(gap[j])) && c.skip == 0
    ensures i + |gap| <= |s| && Scan(k, s, i, ms, c, depth) == With(gap, Scan(k, s, i + |gap|, ms, c, depth))
    decreases |gap|
  {
    hide Scan;
    Past(s, i, gap, rest);
    if gap == "" {
      WithNothing(Scan(k, s, i, ms, c, depth));
    } else {
      assert s[i] == gap[0];
      assert s[i + 1..] == gap[1..] + rest by { assert s[i..][1..] == (gap + rest)[1..]; }
      GapsOut(k, s, i + 1, gap[1..], rest, ms, c, depth);
      SpacePass(k, s, i, ms, c, depth);
      ScanStep(k, s, i, ms, c, depth);
      WithTwice([gap[0]], gap[1..], Scan(k, s, i + |gap|, ms, c, depth));
      assert [gap[0]] + gap[1..] == gap;
    }
  }

  lemma {:induction false} SpacePass(k: Setting, s: string, i: nat, ms: seq<Macro>, c: Cond, depth: nat)
    requires i < |s| && IsSpace(s[i]) && c.skip == 0
    ensures OnePass(k, s, i, ms, c, depth) == Pass(i + 1, k, ms, c, [s[i]])
  {
  }

  lemma {:induction false} StartsBehind(s: string, i: nat, n: nat)
    requires i + n <= |s| && AtLineStart(s, i) && forall j :: i <= j < i + n ==> IsSpace(s[j])
    ensures AtLineStart(s, i + n)
    decreases n
  {
    if n > 0 { StartsBehind(s, i, n - 1); }
  }

  /** An indented #endif closes the conditional if and only if no text is being skipped;
      one that is not indented always does.  In C both do. */
  lemma {:induction false} EndifExactly(k: Setting, s: string, i: nat, gap: string, rest: string, ms: seq<Macro>, c: Cond, depth: nat)
    requires i <= |s| && s[i..] == gap + ("#endif" + ("\n" + rest)) && AtLineStart(s, i)
    requires forall j :: 0 <= j < |gap| ==> IsSpace(gap[j])
    ensures var j := i + |gap| + 7;
      && j <= |s| && s[j..] == rest
      && (gap == "" || c.skip == 0 ==> Scan(k, s, i, ms, c, depth) == With(gap, Scan(Below(k), s, j, ms, OnEndif(c), depth)))
      && (gap != "" && c.skip > 0 ==> Scan(k, s, i, ms, c, depth) == Scan(Below(k), s, j, ms, c, depth))
  {
    hide Scan, AtLineStart, OnEndif;
    var at := i + |gap|;
    Past(s, i, gap, "#endif" + ("\n" + rest));
    Past(s, at, "#endif", "\n" + rest);
    Past(s, at + 6, "\n", rest);
    if gap != "" && c.skip > 0 {
      NotSeen(k, s, i, gap, rest, ms, c, depth);
    } else {
      assert forall j :: i <= j < at ==> s[j] == gap[j - i];
      StartsBehind(s, i, |gap|);
      Seen(k, s, at, rest, ms, c, depth);
      if c.skip == 0 {
        GapsOut(k, s, i, gap, "#endif" + ("\n" + rest), ms, c, depth);
      } else {
        WithNothing(Scan(k, s, i, ms, c, depth));
      }
    }
  }

  lemma {:induction false} NotSeen(k: Setting, s: string, i: nat, gap: string, rest: string, ms: seq<Macro>, c: Cond, depth: nat)
    requires i <= |s| && s[i..] == gap + ("#endif" + ("\n" + rest)) && gap != "" && c.skip > 0
    requires forall j :: 0 <= j < |gap| ==> IsSpace(gap[j])
    ensures i + |gap| + 7 <= |s| && Scan(k, s, i, ms, c, depth) == Scan(Below(k), s, i + |gap| + 7, ms, c, depth)
  {
    hide Scan, OnePass, NextLine;
    var t := gap + "#endif";
    assert s[i..] == t + ("\n" + rest);
    Past(s, i, gap, "#endif" + ("\n" + rest));
    Past(s, i, t, "\n" + rest);
    assert s[i] == gap[0] && IsSpace(gap[0]);
    LineSkipped(s, i, t, rest);
    SkippedPass(k, s, i, ms, c, depth);
    ScanStep(k, s, i, ms, c, depth);
    WithNothing(Scan(Below(k), s, i + |gap| + 7, ms, c, depth));
  }

  lemma {:induction false} Seen(k: Setting, s: string, i: nat, rest: string, ms: seq<Macro>, c: Cond, depth: nat)
    requires i <= |s| && s[i..] == "#endif" + ("\n" + rest) && AtLineStart(s, i)
    ensures i + 7 <= |s| && Scan(k, s, i, ms, c, depth) == Scan(Below(k), s, i + 7, ms, OnEndif(c), depth)
  {
    hide Scan, OnePass, DirectiveEnd, AtLineStart, OnEndif, DirectivePass;
    Past(s, i, "#endif", "\n" + rest);
    DirectiveEnds(s, i, "#endif", rest);
    EndifIs(k, s, i, ms, c, depth);
    HashPass(k, s, i, ms, c, depth);
    ScanStep(k, s, i, ms, c, depth);
    WithNothing(Scan(Below(k), s, i + 7, ms, OnEndif(c), depth));
  }
}
