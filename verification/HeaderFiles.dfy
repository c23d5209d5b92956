/** Header files: which conditional text comes out, by the names of the macros; that a
    guarded file counts once; how a file is included; and what #undef leaves behind. */
module HeaderFiles {
  import opened IfExpression
  import opened Conditionals
  import opened DirectiveReader
  import opened Directives
  import opened Texts
  import C = Comments
  import N = IfMeaning
  import P = IfPrinting

  // ----- Conditional text -----

  /** The first branch is for a macro of that name, the second one for none. */
  lemma {:induction false} IfDefMeans(c: Content, n: string, yes: seq<Block>, hasElse: bool, no: seq<Block>, nest: nat)
    requires P.IsName(n)
    ensures BlockMeaning(c, Conditional(IfDef(n), yes, hasElse, no), nest)
      == if N.Named(c.macros, n) then Meaning(c, yes, nest) else if hasElse then Meaning(c, no, nest) else c
    ensures BlockMeaning(c, Conditional(IfNDef(n), yes, hasElse, no), nest)
      == if !N.Named(c.macros, n) then Meaning(c, yes, nest) else if hasElse then Meaning(c, no, nest) else c
  {
    hide Meaning, Lookup, N.Named;
    N.LookupNamed(c.macros, n);
  }

  /** The first branch of #if is for an expression that is not zero. */
  lemma {:induction false} IfMeans(c: Content, t: P.Tree, gaps: seq<string>, tail: string, yes: seq<Block>, hasElse: bool,
                                   no: seq<Block>, nest: nat)
    requires P.GoodTree(t) && |gaps| == |P.Tokens(t, 1)| && (forall i :: 0 <= i < |gaps| ==> P.AllBlank(gaps[i])) && P.AllBlank(tail)
    ensures BlockMeaning(c, Conditional(If(P.Text(P.Tokens(t, 1), gaps) + tail), yes, hasElse, no), nest)
      == if P.Value(t, c.macros, nest) != 0 then Meaning(c, yes, nest) else if hasElse then Meaning(c, no, nest) else c
  {
    hide Meaning, Holds, P.Value, P.Text;
    P.EvaluatesPrinted(c.macros, t, gaps, tail, nest);
  }

  // ----- Removal -----

  /** How many macros have that name. */
  function Count(ms: seq<Macro>, n: string): nat
  {
    if ms == [] then 0 else Count(ms[..|ms| - 1], n) + if ms[|ms| - 1].name == n then 1 else 0
  }

  lemma {:induction false} CountNamed(ms: seq<Macro>, n: string)
    ensures Count(ms, n) > 0 <==> N.Named(ms, n)
    decreases |ms|
  {
    if ms != [] {
      var l := |ms| - 1;
      CountNamed(ms[..l], n);
      if i :| 0 <= i < |ms| && ms[i].name == n { if i < l { assert ms[..l][i].name == n; } }
      if i :| 0 <= i < l && ms[..l][i].name == n { assert ms[i].name == n; }
    }
  }

  lemma {:induction false} CountUpdated(ms: seq<Macro>, j: nat, x: Macro, n: string)
    requires j < |ms|
    ensures Count(ms[j := x], n) + (if ms[j].name == n then 1 else 0) == Count(ms, n) + if x.name == n then 1 else 0
    decreases |ms|
  {
    var l := |ms| - 1;
    if j == l {
      assert ms[j := x][..l] == ms[..l];
    } else {
      assert ms[j := x][..l] == ms[..l][j := x];
      CountUpdated(ms[..l], j, x, n);
    }
  }

  /** The first macro of that name from i on, or the end. */
  function FirstOf(ms: seq<Macro>, n: string, i: nat): (j: nat)
    requires i <= |ms|
    ensures i <= j <= |ms| && (j < |ms| ==> ms[j].name == n) && forall q :: i <= q < j ==> ms[q].name != n
    decreases |ms| - i
  {
    if i == |ms| || ms[i].name == n then i else FirstOf(ms, n, i + 1)
  }

  /** The macro at j goes and the last one takes its place. */
  function Without(ms: seq<Macro>, j: nat): seq<Macro>
    requires j < |ms|
  {
    ms[j := ms[|ms| - 1]][..|ms| - 1]
  }

  lemma {:induction false} RemovesFirst(ms: seq<Macro>, n: string, i: nat)
    requires i <= |ms|
    ensures Undefined(ms, n, i) == if FirstOf(ms, n, i) == |ms| then ms else Without(ms, FirstOf(ms, n, i))
    decreases |ms| - i
  {
    if i < |ms| && ms[i].name != n { RemovesFirst(ms, n, i + 1); }
  }

  /** One macro of that name goes; the others stay. */
  lemma {:induction false} UndefinedCount(ms: seq<Macro>, n: string, m: string)
    ensures Count(Undefined(ms, n, 0), m) == Count(ms, m) - if m == n && N.Named(ms, n) then 1 else 0
  {
    hide Undefined;
    var j, l := FirstOf(ms, n, 0), |ms| - 1;
    RemovesFirst(ms, n, 0);
    if j < |ms| {
      assert ms[j].name == n;
      CountUpdated(ms, j, ms[l], m);
      var u := ms[j := ms[l]];
      assert u[l] == ms[l] && Count(u, m) == Count(u[..l], m) + if ms[l].name == m then 1 else 0;
    }
  }

  /** A macro of either kind has that name. */
  ghost predicate Defined(funcs: seq<FuncMacro>, ms: seq<Macro>, n: string)
  {
    N.Named(ms, n) || exists i :: 0 <= i < |funcs| && funcs[i].name == n
  }

  /** In C no macro has the name behind its removal.  Here there is none if and only if it
      was defined at most once, and not with parameters.  Other names are left alone. */
  lemma {:induction false} UndefExactly(k: Setting, n: string, ms: seq<Macro>, c: Cond, depth: nat)
    ensures var p := ActPass(k, Remove(n), ms, c, depth);
      && p.Pass? && p.cond == c && p.out == ""
      && (!Defined(p.known.funcs, p.macros, n) <==> Count(ms, n) <= 1 && forall i :: 0 <= i < |k.funcs| ==> k.funcs[i].name != n)
      && forall m :: m != n ==> (Defined(p.known.funcs, p.macros, m) <==> Defined(k.funcs, ms, m))
  {
    hide Undefined, N.Named, Count;
    CountNamed(ms, n);
    UndefinedCount(ms, n, n);
    CountNamed(Undefined(ms, n, 0), n);
    forall m | m != n ensures N.Named(Undefined(ms, n, 0), m) <==> N.Named(ms, m) {
      UndefinedCount(ms, n, m);
      CountNamed(ms, m);
      CountNamed(Undefined(ms, n, 0), m);
    }
  }

  /** A name that was defined twice alike is still there when it has been removed. */
  lemma {:induction false} TwiceDefined(n: string, v: string)
    ensures Lookup(Undefined([Macro(n, v), Macro(n, v)], n, 0), n) == Has(v)
  {
    var ms := [Macro(n, v), Macro(n, v)];
    assert ms[0 := ms[1]][..1] == [Macro(n, v)];
  }

  /** Another name whose definitions agree keeps its value. */
  lemma {:induction false} OthersKept(ms: seq<Macro>, n: string, m: string)
    requires m != n && forall x, y :: 0 <= x < |ms| && 0 <= y < |ms| && ms[x].name == m && ms[y].name == m ==> ms[x] == ms[y]
    ensures Lookup(Undefined(ms, n, 0), m) == Lookup(ms, m)
  {
    hide Undefined, Lookup, N.Named, Count;
    var after := Undefined(ms, n, 0);
    UndefinedCount(ms, n, m);
    CountNamed(ms, m); CountNamed(after, m);
    N.LookupNamed(ms, m); N.LookupNamed(after, m);
    if N.Named(ms, m) {
      UndefinedLess(ms, n, 0);
      N.LookupIs(ms, m, Lookup(ms, m).text);
      N.LookupIs(after, m, Lookup(after, m).text);
      var x :| 0 <= x < |ms| && ms[x] == Macro(m, Lookup(ms, m).text);
      var y :| 0 <= y < |after| && after[y] == Macro(m, Lookup(after, m).text);
      assert after[y] in ms;
    }
  }

  // ----- The guard of a header -----

  /** The text of a header between its guard. */
  function Guard(g: string, v: string, body: seq<Block>): Block
  {
    Conditional(IfNDef(g), [Plain(Define(g, v))] + body, false, [])
  }

  /** No line takes the macro away. */
  predicate Keeps(bs: seq<Block>, g: string) { Undef(g) !in LinesOf(bs) }

  lemma {:induction false} ActNamed(c: Content, l: Line, g: string)
    requires N.Named(c.macros, g) && l != Undef(g)
    ensures N.Named(Act(c, l).macros, g)
  {
    hide Undefined, Expand;
    match l {
      case Define(n, v) =>
        var i :| 0 <= i < |c.macros| && c.macros[i].name == g;
        assert (c.macros + [Macro(n, v)])[i].name == g;
      case Undef(n) =>
        CountNamed(c.macros, g); CountNamed(Undefined(c.macros, n, 0), g);
        UndefinedCount(c.macros, n, g);
      case _ =>
    }
  }

  lemma {:induction false} MeaningNamed(c: Content, bs: seq<Block>, g: string, nest: nat)
    requires N.Named(c.macros, g) && Keeps(bs, g)
    ensures N.Named(Meaning(c, bs, nest).macros, g)
    decreases bs
  {
    hide N.Named, BlockMeaning, Act, BlockLines, Chosen;
    if bs != [] {
      assert bs[0] in bs;
      BlockNamed(c, bs[0], g, nest);
      MeaningNamed(BlockMeaning(c, bs[0], nest), bs[1..], g, nest);
    }
  }

  lemma {:induction false} BlockNamed(c: Content, b: Block, g: string, nest: nat)
    requires N.Named(c.macros, g) && Undef(g) !in BlockLines(b)
    ensures N.Named(BlockMeaning(c, b, nest).macros, g)
    decreases b
  {
    hide N.Named, Act, LinesOf, Chosen, Meaning;
    match b {
      case Plain(l) =>
        assert l in BlockLines(b);
        ActNamed(c, l, g);
      case Conditional(t, yes, hasElse, no) =>
        if Chosen(c.macros, t, false, nest) { MeaningNamed(c, yes, g, nest); } else if hasElse { MeaningNamed(c, no, g, nest); }
    }
  }

  /** A guarded text means its body when the name of the guard is not defined, and nothing
      when it is. */
  lemma {:induction false} GuardMeans(c: Content, g: string, v: string, body: seq<Block>, nest: nat)
    requires P.IsName(g)
    ensures Meaning(c, [Guard(g, v, body)], nest) ==
      if N.Named(c.macros, g) then c else Meaning(c.(macros := c.macros + [Macro(g, v)]), body, nest)
  {
    hide N.Named, BlockMeaning, Meaning;
    var b := Guard(g, v, body);
    var inner := [Plain(Define(g, v))] + body;
    IfDefMeans(c, g, inner, false, [], nest);
    MeaningFirst(c, [b], nest);
    assert [b][1..] == [];
    MeaningNone(BlockMeaning(c, b, nest), nest);
    MeaningFirst(c, inner, nest);
    assert inner[1..] == body;
    DefineMeans(c, g, v, nest);
  }

  lemma {:induction false} MeaningFirst(c: Content, bs: seq<Block>, nest: nat)
    requires bs != []
    ensures Meaning(c, bs, nest) == Meaning(BlockMeaning(c, bs[0], nest), bs[1..], nest)
  {
    hide BlockMeaning;
  }

  lemma {:induction false} MeaningNone(c: Content, nest: nat)
    ensures Meaning(c, [], nest) == c
  {
  }

  lemma {:induction false} DefineMeans(c: Content, g: string, v: string, nest: nat)
    ensures BlockMeaning(c, Plain(Define(g, v)), nest) == c.(macros := c.macros + [Macro(g, v)])
  {
  }

  /** Behind a guarded text the guard is defined: it comes out once, however often it is
      there. */
  lemma {:induction false} GuardHolds(c: Content, g: string, v: string, body: seq<Block>, nest: nat)
    requires P.IsName(g) && Keeps(body, g)
    ensures var once := Meaning(c, [Guard(g, v, body)], nest);
      N.Named(once.macros, g) && Meaning(once, [Guard(g, v, body)], nest) == once
  {
    hide Meaning;
    GuardMeans(c, g, v, body, nest);
    if !N.Named(c.macros, g) {
      var d := c.(macros := c.macros + [Macro(g, v)]);
      assert d.macros[|c.macros|].name == g;
      MeaningNamed(d, body, g, nest);
    }
    GuardMeans(Meaning(c, [Guard(g, v, body)], nest), g, v, body, nest);
  }

  // ----- Inclusion -----

  predicate FileName(name: string) { name != "" && OneLine(name) && '"' !in name }

  function IncludeText(name: string): string { "#include \"" + (name + "\"") }

  /** What stands behind the word. */
  lemma {:induction false} IncludeWord(x: string, s: string)
    requires s == "#include " + x
    ensures ReadDirective(s) == ReadInclude(s, 8) && s[9..] == x && s[8] == ' '
  {
    WordEnds(s, 1, "include");
  }

  lemma {:induction false} QuoteEnds(s: string, i: nat, name: string)
    requires i <= |s| && s[i..] == name + "\"" && '"' !in name
    ensures CharFrom(s, '"', i) == i + |name|
    decreases |name|
  {
    Past(s, i, name, "\"");
    if name != "" {
      assert s[i + 1..] == name[1..] + "\"" by { assert s[i..][1..] == (name + "\"")[1..]; }
      QuoteEnds(s, i + 1, name[1..]);
    }
  }

  /** A name in quotes is the file to include; one in angle brackets is not. */
  lemma {:induction false} IncludeReads(name: string)
    ensures FileName(name) ==> ReadDirective(IncludeText(name)) == Include(name)
    ensures ReadDirective("#include <" + (name + ">")) == Other
  {
    hide ReadDirective, CharFrom;
    var q, s := "\"" + (name + "\""), "#include <" + (name + ">");
    if FileName(name) {
      var t := IncludeText(name);
      assert t == "#include " + q;
      IncludeWord(q, t);
      assert t[9] == t[9..][0] == '"' && t[10..] == t[9..][1..] == name + "\"";
      assert QuoteFrom(t, 8) == QuoteFrom(t, 9) == 9;
      QuoteEnds(t, 10, name);
      Past(t, 10, name, "\"");
    }
    assert s == "#include " + ("<" + (name + ">"));
    IncludeWord("<" + (name + ">"), s);
    assert s[9] == s[9..][0] == '<';
    assert QuoteFrom(s, 8) == QuoteFrom(s, 9) == 9;
  }

  lemma {:induction false} IncludeIsOther(s: string, cw: nat, le: nat, x: string)
    requires cw <= le <= |s| && s[cw..le] == "include" + x
    ensures !StartsWith(s, cw, le, "else") && !StartsWith(s, cw, le, "endif") && !Opens(s, cw, le)
  {
    hide StartsWith;
    WordIs(s, cw, le, "include", x);
  }

  /** An inclusion stands for what the scan of the file puts out, and the scan goes on with
      what the file has defined. */
  lemma {:induction false} IncludeLine(k: Setting, s: string, i: nat, name: string, rest: string, ms: seq<Macro>, c: Cond, depth: nat)
    requires i <= |s| && s[i..] == IncludeText(name) + ("\n" + rest) && AtLineStart(s, i) && FileName(name) && c.skip == 0
    ensures i + |IncludeText(name)| < |s|
    ensures var p, j := IncludePass(Fresh(k), name, ms, c, depth), i + |IncludeText(name)| + 1;
      Scan(k, s, i, ms, c, depth) ==
        if p.Beyond? then Beyond else With(p.out, Scan(Below(k).(funcs := p.known.funcs), s, j, p.macros, p.cond, depth))
  {
    hide Scan, OnePass, IncludePass, DirectiveEnd, AtLineStart, IncludeText, DirectivePass;
    var d := IncludeText(name);
    IncludeForm(name);
    DirectiveEnds(s, i, d, rest);
    Past(s, i, d, "\n" + rest);
    IncludePassed(k, s, i, name, ms, c, depth);
    NothingScanned(Scan(k, s, i, ms, c, depth));
    PassFirst(k, s, i, ms, c, "", depth);
    HashPass(k, s, i, ms, c, depth);
    var p := IncludePass(Fresh(k), name, ms, c, depth);
    if p.Pass? { assert "" + p.out == p.out; }
  }

  lemma {:induction false} IncludeForm(name: string)
    requires FileName(name)
    ensures var d := IncludeText(name); OneLine(d) && |d| > 1 && d[0] == '#' && !IsSpace(d[1])
  {
  }

  lemma {:induction false} IncludePassed(k: Setting, s: string, i: nat, name: string, ms: seq<Macro>, c: Cond, depth: nat)
    requires Stands(s, i, IncludeText(name)) && FileName(name) && c.skip == 0
    ensures var p, j := IncludePass(Fresh(k), name, ms, c, depth), i + |IncludeText(name)| + 1;
      DirectivePass(k, s, i, ms, c, depth) ==
        if p.Beyond? then Beyond else Pass(j, Below(k).(funcs := p.known.funcs), p.macros, p.cond, p.out)
  {
    hide DirectiveEnd, PastSpaces, TestOf, Chosen, StartsWith, Opens, ReadDirective, IncludePass;
    var d := IncludeText(name);
    DirectiveBehind(s, i, d);
    IncludeTail(name);
    IncludeIsOther(s, i + 1, i + |d|, " \"" + (name + "\""));
    IncludeReads(name);
  }

  lemma {:induction false} IncludeTail(name: string)
    ensures IncludeText(name)[1..] == "include" + (" \"" + (name + "\""))
  {
  }

  // ----- A guarded header -----

  /** Without its comments the file is a guarded text. */
  ghost predicate IsHeader(k: Setting, name: string, g: string, v: string, body: seq<Block>, banned: set<string>)
  {
    && name in k.files && C.Stripped(k.files[name]) == Printed(LinesOf([Guard(g, v, body)]))
    && P.IsName(g) && PlainLines(body) && forall l :: l in LinesOf([Guard(g, v, body)]) ==> GoodLine(l, banned)
  }

  lemma {:induction false} GuardPlain(g: string, v: string, body: seq<Block>)
    requires PlainLines(body)
    ensures PlainLines([Guard(g, v, body)])
  {
    var inner := [Plain(Define(g, v))] + body;
    forall b | b in inner ensures PlainBlock(b) { if b != inner[0] { assert b in body; } }
  }

  /** Including a guarded header puts its body out if the guard is not defined, and nothing
      otherwise. */
  lemma {:induction false} HeaderIncluded(k: Setting, name: string, g: string, v: string, body: seq<Block>, banned: set<string>,
                                          ms: seq<Macro>, c: Cond, depth: nat)
    requires IsHeader(k, name, g, v, body, banned) && depth < MAX_INCLUDE && Knows(k, ms, banned)
    requires Counted(c) && c.skip == 0 && Nests(LinesOf([Guard(g, v, body)]), |c.emit|)
    ensures var p, m := IncludePass(k, name, ms, c, depth), Meaning(Content(ms + [Macro(g, v)], [], depth + 1), body, k.nest);
      && p.Pass? && p.cond == c && p.known.funcs == k.funcs
      && (N.Named(ms, g) ==> p.macros == ms && p.out == "")
      && (!N.Named(ms, g) ==> p.macros == m.macros && p.out == Shown(m.out))
  {
    hide Scan, Meaning, Nests, Knows, LinesOf, GoodLine, N.Named, Counted;
    GuardPlain(g, v, body);
    var con := Content(ms, [], depth + 1);
    BlocksScan(k, [Guard(g, v, body)], con, c, banned);
    GuardMeans(con, g, v, body, k.nest);
  }

  lemma {:induction false} RunKnows(k: Setting, st: State, ls: seq<Line>, banned: set<string>)
    requires Knows(k, st.content.macros, banned) && forall l :: l in ls ==> GoodLine(l, banned)
    ensures Knows(k, Run(st, ls, k.nest).content.macros, banned)
    decreases |ls|
  {
    hide Knows, GoodLine, Chosen, Undefined;
    if ls != [] {
      if !ls[0].Text? { StillKnows(k, st, ls[0], banned); }
      RunKnows(k, Step(st, ls[0], k.nest), ls[1..], banned);
    }
  }

  lemma {:induction false} HeaderKnows(k: Setting, g: string, v: string, body: seq<Block>, banned: set<string>, con: Content, c: Cond)
    requires PlainLines(body) && (forall l :: l in LinesOf([Guard(g, v, body)]) ==> GoodLine(l, banned))
    requires Knows(k, con.macros, banned) && Counted(c) && c.skip == 0
    ensures Knows(k, Meaning(con, [Guard(g, v, body)], k.nest).macros, banned)
  {
    hide Knows, GoodLine, Counted, LinesOf, Meaning, Run;
    GuardPlain(g, v, body);
    FollowsBlocks(State(con, c), [Guard(g, v, body)], k.nest);
    RunKnows(k, State(con, c), LinesOf([Guard(g, v, body)]), banned);
  }

  /** A header that is included twice comes out once. */
  lemma {:induction false} IncludedTwice(k: Setting, name: string, g: string, v: string, body: seq<Block>, banned: set<string>,
                                         ms: seq<Macro>, c: Cond, depth: nat)
    requires FileName(name) && IsHeader(k, name, g, v, body, banned) && depth < MAX_INCLUDE && Knows(k, ms, banned)
    requires Counted(c) && c.skip == 0 && Nests(LinesOf([Guard(g, v, body)]), |c.emit|)
    requires !N.Named(ms, g) && Keeps(body, g)
    ensures var line := IncludeText(name) + "\n";
      var p, m := Scan(k, line + line, 0, ms, c, depth), Meaning(Content(ms + [Macro(g, v)], [], depth + 1), body, k.nest);
      p.Pass? && p.macros == m.macros && p.cond == c && p.out == Shown(m.out) && p.known == k.(line := k.line + 2)
  {
    hide Scan, Meaning, Nests, Knows, LinesOf, GoodLine, Guard, Counted, AtLineStart, IncludeText, N.Named, IncludePass, Keeps;
    var d := IncludeText(name);
    var s, n := (d + "\n") + (d + "\n"), |d| + 1;
    var con := Content(ms, [], depth + 1);
    GuardMeans(con, g, v, body, k.nest);
    GuardHolds(con, g, v, body, k.nest);
    HeaderKnows(k, g, v, body, banned, con, c);
    var m := Meaning(Content(ms + [Macro(g, v)], [], depth + 1), body, k.nest);
    TwoLines(d, s);
    assert AtLineStart(s, 0) && AtLineStart(s, n) by { LineStarts(s, n); }
    KnowsFresh(k, ms, banned); KnowsFresh(k, m.macros, banned);
    HeaderIncluded(Fresh(k), name, g, v, body, banned, ms, c, depth);
    IncludeLine(k, s, 0, name, d + "\n", ms, c, depth);
    HeaderIncluded(Fresh(Below(k)), name, g, v, body, banned, m.macros, c, depth);
    IncludeLine(Below(k), s, n, name, "", m.macros, c, depth);
    ScanEnds(Below(Below(k)), s, m.macros, c, depth);
    assert Shown(m.out) + ("" + "") == Shown(m.out);
  }

  lemma {:induction false} TwoLines(d: string, s: string)
    requires s == (d + "\n") + (d + "\n")
    ensures s[0..] == d + ("\n" + (d + "\n")) && s[|d| + 1..] == d + ("\n" + "") && |s| == 2 * (|d| + 1) && s[|d|] == '\n'
  {
  }

  lemma {:induction false} LineStarts(s: string, n: nat)
    requires 0 < n <= |s| && s[n - 1] == '\n'
    ensures AtLineStart(s, 0) && AtLineStart(s, n)
  {
  }
}
