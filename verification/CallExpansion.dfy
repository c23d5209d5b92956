/** Scanning a text with calls of function macros inside each other: what comes out, and
    when it is what the C standard says. */
module CallExpansion {
  import opened IfExpression
  import opened Conditionals
  import opened Directives
  import opened Texts
  import opened CallTerms
  import opened CallPaths
  import D = DirectiveReader
  import I = IfPrinting
  import M = MacroCalls
  import S = Substitution

  // ----- What the scanner knows -----

  function MacroOf(d: Def): D.FuncMacro { D.FuncMacro(d.name, d.params, false, S.PartsText(d.params, Flat(d.body))) }

  /** The function macros are those of defs, and no piece of text names an object macro. */
  ghost predicate Ready(k: Setting, defs: seq<Def>, ms: seq<Macro>, banned: set<string>)
  {
    && GoodDefs(defs, banned) && "__LINE__" in banned
    && |k.funcs| == |defs| && (forall j :: 0 <= j < |defs| ==> k.funcs[j] == MacroOf(defs[j]))
    && forall m :: m in ms ==> m.name in banned && forall j :: 0 <= j < |defs| ==> m.name != defs[j].name
  }

  predicate OnStack(defs: seq<Def>, stack: seq<nat>, n: string) { exists j :: 0 <= j < |defs| && j in stack && defs[j].name == n }

  /** The names that the scanner acts on. */
  function Live(defs: seq<Def>, stack: seq<nat>, banned: set<string>): set<string>
  {
    set n | n in banned && !OnStack(defs, stack, n)
  }

  lemma {:induction false} DefIs(defs: seq<Def>, banned: set<string>, j: nat)
    requires GoodDefs(defs, banned) && j < |defs|
    ensures I.IsName(defs[j].name) && defs[j].name in banned && defs[j].name != "__LINE__"
    ensures forall i :: 0 <= i < |defs| && i != j ==> defs[i].name != defs[j].name
  {
    hide I.IsName, GoodBody, S.PlainParts, NoBodyComma;
    assert GoodDef(defs[j], banned);
  }

  lemma {:induction false} IndexIs(k: Setting, defs: seq<Def>, ms: seq<Macro>, banned: set<string>, fi: nat)
    requires Ready(k, defs, ms, banned) && fi < |defs|
    ensures FunctionIndex(k.funcs, defs[fi].name) == fi
  {
    hide GoodDefs, FunctionIndex;
    var r := FunctionIndex(k.funcs, defs[fi].name);
    DefIs(defs, banned, fi);
    assert k.funcs[fi].name == defs[fi].name;
    if r < |defs| { assert k.funcs[r].name == defs[r].name; }
  }

  lemma {:induction false} ReadyKnows(k: Setting, defs: seq<Def>, ms: seq<Macro>, banned: set<string>)
    requires Ready(k, defs, ms, banned)
    ensures Knows(k, ms, Live(defs, k.stack, banned))
    ensures forall m :: m in ms ==> m.name in Live(defs, k.stack, banned)
  {
    hide GoodDefs, FunctionIndex, Clean;
    var live := Live(defs, k.stack, banned);
    forall j | 0 <= j < |defs| ensures defs[j].name in banned && defs[j].name != "__LINE__" { DefIs(defs, banned, j); }
    forall n | FunctionIndex(k.funcs, n) < |k.funcs| && FunctionIndex(k.funcs, n) !in k.stack ensures n in live {
      var fi := FunctionIndex(k.funcs, n);
      assert k.funcs[fi] == MacroOf(defs[fi]);
      DefIs(defs, banned, fi);
    }
  }

  lemma {:induction false} CleanLess(t: string, banned: set<string>, fewer: set<string>)
    requires Clean(t, banned) && fewer <= banned
    ensures Clean(t, fewer)
    decreases |t|
  {
    if t != "" { CleanLess(t[FirstPiece(t)..], banned, fewer); }
  }

  lemma {:induction false} ExpandStays(ms: seq<Macro>, t: string, banned: set<string>, depth: nat)
    requires Clean(t, banned) && forall m :: m in ms ==> m.name in banned
    ensures Expand(ms, t, depth) == t
    decreases |t|
  {
    hide FirstPiece, Lookup;
    if t != "" {
      var e := FirstPiece(t);
      if IsLetter(t[0]) { NotAMacro(ms, t[..e], banned); }
      ExpandStays(ms, t[e..], banned, depth);
      assert t == t[..e] + t[e..];
    }
  }

  lemma {:induction false} NotAMacro(ms: seq<Macro>, n: string, banned: set<string>)
    requires n !in banned && forall m :: m in ms ==> m.name in banned
    ensures Lookup(ms, n) == Missing
    decreases |ms|
  {
    if ms != [] {
      assert ms[0].name in banned && forall m :: m in ms[1..] ==> m in ms;
      NotAMacro(ms[1..], n, banned);
    }
  }

  // ----- Texts as items -----

  function Chars(t: string): seq<M.Item>
  {
    if t == "" then [] else [if t[0] == ',' then M.Comma else M.One(t[0])] + Chars(t[1..])
  }

  function Items(defs: seq<Def>, ts: seq<Term>): seq<M.Item>
    decreases ts, 0
  {
    if ts == [] then [] else TermItems(defs, ts[0]) + Items(defs, ts[1..])
  }

  function TermItems(defs: seq<Def>, x: Term): seq<M.Item>
    decreases x, 1
  {
    match x
    case Piece(t) => Chars(t)
    case Paren(ts) => [M.Group(Items(defs, ts))]
    case Invoke(fi, args) => Chars(Name(defs, fi)) + [M.Group(Separated(ArgumentItems(defs, args)))]
  }

  function ArgumentItems(defs: seq<Def>, args: seq<Argument>): (r: seq<seq<M.Item>>)
    ensures |r| == |args|
    decreases args, 0
  {
    if args == [] then []
    else [Chars(args[0].left) + (Items(defs, args[0].ts) + Chars(args[0].right))] + ArgumentItems(defs, args[1..])
  }

  function Separated(l: seq<seq<M.Item>>): seq<M.Item>
  {
    if l == [] then [] else if |l| == 1 then l[0] else l[0] + ([M.Comma] + Separated(l[1..]))
  }

  lemma {:induction false} PrintJoin(a: seq<M.Item>, b: seq<M.Item>)
    ensures M.Print(a + b) == M.Print(a) + M.Print(b)
    ensures M.Formed(a) && M.Formed(b) ==> M.Formed(a + b)
    ensures M.NoCommas(a) && M.NoCommas(b) ==> M.NoCommas(a + b)
    decreases |a|
  {
    hide M.PrintItem, M.FormedItem;
    if a == [] {
      assert a + b == b;
    } else {
      assert (a + b)[1..] == a[1..] + b;
      PrintJoin(a[1..], b);
    }
  }

  predicate Ordinary(t: string) { forall i :: 0 <= i < |t| ==> t[i] != '"' && t[i] != '\'' && t[i] != '(' && t[i] != ')' }

  lemma {:induction false} CharPrint(c: char)
    requires Ordinary([c])
    ensures var x := if c == ',' then M.Comma else M.One(c);
      M.Print([x]) == [c] && M.Formed([x]) && (c != ',' ==> M.NoCommas([x]))
  {
    var x := if c == ',' then M.Comma else M.One(c);
    assert [c][0] == c && [x][1..] == [];
    assert M.Print([x]) == M.PrintItem(x) + M.Print([x][1..]);
  }

  lemma {:induction false} CharsPrint(t: string)
    requires Ordinary(t)
    ensures M.Print(Chars(t)) == t && M.Formed(Chars(t)) && (',' !in t ==> M.NoCommas(Chars(t)))
    decreases |t|
  {
    hide M.Print, M.Formed, M.NoCommas;
    if t == "" {
      NoItems();
    } else {
      assert [t[0]] + t[1..] == t && ([t[0]])[0] == t[0];
      CharPrint(t[0]);
      CharsPrint(t[1..]);
      PrintJoin([if t[0] == ',' then M.Comma else M.One(t[0])], Chars(t[1..]));
    }
  }

  /** Clean text has no quotes. */
  lemma {:induction false} SolidOrdinary(t: string, banned: set<string>)
    requires Solid(t, banned)
    ensures Ordinary(t)
  {
    hide Clean;
    NoQuote(t, banned);
  }

  lemma {:induction false} NoQuote(t: string, banned: set<string>)
    requires Clean(t, banned)
    ensures '"' !in t
    decreases |t|
  {
    if t != "" {
      var e := FirstPiece(t);
      if IsLetter(t[0]) { NameChars(t, 0); }
      NoQuote(t[e..], banned);
      assert t == t[..e] + t[e..];
    }
  }

  lemma {:induction false} ItemsPrint(defs: seq<Def>, banned: set<string>, ts: seq<Term>)
    requires GoodDefs(defs, banned) && Good(defs, banned, ts)
    ensures M.Print(Items(defs, ts)) == TextOf(defs, ts) && M.Formed(Items(defs, ts)) && (NoComma(ts) ==> M.NoCommas(Items(defs, ts)))
    decreases ts, 0
  {
    hide GoodDefs, GoodTerm, Joins, TermText, TermItems, M.Formed, M.NoCommas, NoComma;
    if ts == [] {
      assert M.Print([]) == "" && M.Formed([]) && M.NoCommas([]) by { NoItems(); }
    } else {
      TermPrint(defs, banned, ts[0]);
      ItemsPrint(defs, banned, ts[1..]);
      PrintJoin(TermItems(defs, ts[0]), Items(defs, ts[1..]));
      if NoComma(ts) {
        assert [ts[0]] + ts[1..] == ts;
        NoCommaParts(ts[0], ts[1..]);
      }
    }
  }

  lemma {:induction false} NoItems()
    ensures M.Print([]) == "" && M.Formed([]) && M.NoCommas([])
  {
  }

  lemma {:induction false} GroupPrint(items: seq<M.Item>)
    requires M.Formed(items)
    ensures M.Print([M.Group(items)]) == "(" + (M.Print(items) + ")") && M.Formed([M.Group(items)]) && M.NoCommas([M.Group(items)])
  {
    var g := [M.Group(items)];
    assert g[1..] == [] && M.Print(g) == M.PrintItem(g[0]) + M.Print(g[1..]);
  }

  lemma {:induction false} TermPrint(defs: seq<Def>, banned: set<string>, x: Term)
    requires GoodDefs(defs, banned) && GoodTerm(defs, banned, x)
    ensures M.Print(TermItems(defs, x)) == TermText(defs, x) && M.Formed(TermItems(defs, x))
    ensures (x.Piece? ==> ',' !in x.t) ==> M.NoCommas(TermItems(defs, x))
    decreases x, 1
  {
    hide GoodDefs, Good, GoodArguments, Items, TextOf, M.Formed, M.NoCommas, M.Print, Chars, Separated, ArgumentItems, Clean;
    match x
    case Piece(t) =>
      SolidOrdinary(t, banned);
      CharsPrint(t);
    case Paren(ts) =>
      ItemsPrint(defs, banned, ts);
      GroupPrint(Items(defs, ts));
    case Invoke(fi, args) =>
      DefIs(defs, banned, fi);
      NameOrdinary(defs[fi].name);
      CharsPrint(defs[fi].name);
      ArgumentsPrint(defs, banned, args);
      GroupPrint(Separated(ArgumentItems(defs, args)));
      PrintJoin(Chars(defs[fi].name), [M.Group(Separated(ArgumentItems(defs, args)))]);
  }

  lemma {:induction false} NameOrdinary(n: string)
    requires I.IsName(n)
    ensures Ordinary(n) && ',' !in n
  {
  }

  lemma {:induction false} ArgumentsPrint(defs: seq<Def>, banned: set<string>, args: seq<Argument>)
    requires GoodDefs(defs, banned) && GoodArguments(defs, banned, args)
    ensures var l := ArgumentItems(defs, args);
      && M.Print(Separated(l)) == ArgumentsText(defs, args) && M.Formed(Separated(l))
      && (args != [] ==> M.AreArguments(l) && M.Joined(l) == ArgumentsText(defs, args))
    decreases args, 0
  {
    hide GoodDefs, Good, Items, TextOf, M.Formed, M.NoCommas, M.Print, Chars, Head, Tail, NoComma;
    if args == [] {
      NoItems();
    } else {
      var l, a := ArgumentItems(defs, args), args[0];
      OneArgument(defs, banned, a);
      ArgumentsPrint(defs, banned, args[1..]);
      assert l[1..] == ArgumentItems(defs, args[1..]);
      if |args| > 1 {
        CommaPrint();
        PrintJoin([M.Comma], Separated(l[1..]));
        PrintJoin(l[0], [M.Comma] + Separated(l[1..]));
      }
    }
  }

  lemma {:induction false} CommaPrint()
    ensures M.Print([M.Comma]) == "," && M.Formed([M.Comma])
  {
    assert M.Print([M.Comma]) == M.PrintItem(M.Comma) + M.Print([M.Comma][1..]);
  }

  lemma {:induction false} OneArgument(defs: seq<Def>, banned: set<string>, a: Argument)
    requires GoodDefs(defs, banned) && Good(defs, banned, a.ts) && NoComma(a.ts) && Spaces(a.left) && Spaces(a.right)
    ensures var r := Chars(a.left) + (Items(defs, a.ts) + Chars(a.right));
      M.Print(r) == ArgumentText(defs, a) && M.Formed(r) && M.NoCommas(r)
    decreases a.ts, 1
  {
    hide GoodDefs, Good, Items, TextOf, M.Formed, M.NoCommas, M.Print, Chars, NoComma;
    CharsPrint(a.left);
    CharsPrint(a.right);
    ItemsPrint(defs, banned, a.ts);
    PrintJoin(Items(defs, a.ts), Chars(a.right));
    PrintJoin(Chars(a.left), Items(defs, a.ts) + Chars(a.right));
  }

  // ----- The arguments of a call -----

  function TextsOf(defs: seq<Def>, args: seq<Argument>): (r: seq<string>)
    ensures |r| == |args| && forall j :: 0 <= j < |args| ==> r[j] == TextOf(defs, args[j].ts)
  {
    if args == [] then [] else [TextOf(defs, args[0].ts)] + TextsOf(defs, args[1..])
  }

  lemma {:induction false} TrimmedIs(left: string, t: string, right: string)
    requires Spaces(left) && Spaces(right) && Head(t) && Tail(t)
    ensures M.Trimmed(left + (t + right)) == t
  {
    LeftTrimmed(left, t + right);
    RightTrimmed(t, right);
  }

  lemma {:induction false} LeftTrimmed(left: string, t: string)
    requires Spaces(left) && Head(t)
    ensures M.TrimLeft(left + t) == t
    decreases |left|
  {
    if left == "" {
      assert left + t == t;
    } else {
      assert (left + t)[1..] == left[1..] + t;
      LeftTrimmed(left[1..], t);
    }
  }

  lemma {:induction false} RightTrimmed(t: string, right: string)
    requires Spaces(right) && Tail(t)
    ensures M.TrimRight(t + right) == t
    decreases |right|
  {
    if right == "" {
      assert t + right == t;
    } else {
      var u := t + right;
      assert u[|u| - 1] == right[|right| - 1] && u[..|u| - 1] == t + right[..|right| - 1];
      RightTrimmed(t, right[..|right| - 1]);
    }
  }

  /** The arguments that the call is split into are the ones it was written with. */
  lemma {:induction false} RawsAre(defs: seq<Def>, banned: set<string>, s: string, p: nat, args: seq<Argument>, hi: nat)
    requires GoodDefs(defs, banned) && GoodArguments(defs, banned, args) && args != []
    requires M.At(s, p, M.Joined(ArgumentItems(defs, args))) && p <= hi <= |s| && M.AreArguments(ArgumentItems(defs, args))
    requires forall k :: 0 <= k < |args| ==> M.InText(M.SpansOf(ArgumentItems(defs, args), p)[k], p, hi)
    ensures M.ArgumentTexts(s, M.SpansOf(ArgumentItems(defs, args), p), p, hi) == TextsOf(defs, args)
  {
    hide GoodDefs, GoodArguments, TextOf, M.At, M.Joined, M.AreArguments, M.SpansOf, M.ArgumentTexts, M.Trimmed, ArgumentItems, TextsOf, M.Print;
    var items := ArgumentItems(defs, args);
    var spans := M.SpansOf(items, p);
    forall j | 0 <= j < |args| ensures M.ArgumentTexts(s, spans, p, hi)[j] == TextsOf(defs, args)[j] {
      M.ArgumentAt(s, spans, p, hi, j);
      M.ArgumentText(s, p, items, j);
      GoodArgument(defs, banned, args, j);
      ItemsAt(defs, args, j);
      OneArgument(defs, banned, args[j]);
      TrimmedIs(args[j].left, TextOf(defs, args[j].ts), args[j].right);
    }
  }

  lemma {:induction false} ItemsAt(defs: seq<Def>, args: seq<Argument>, j: nat)
    requires j < |args|
    ensures ArgumentItems(defs, args)[j] == Chars(args[j].left) + (Items(defs, args[j].ts) + Chars(args[j].right))
    decreases |args|
  {
    hide Items, Chars;
    if j > 0 { ItemsAt(defs, args[1..], j - 1); }
  }

  // ----- The replacement text -----

  lemma {:induction false} FilledJoin(params: seq<string>, a: seq<S.Part>, b: seq<S.Part>, vals: seq<string>)
    ensures S.Filled(params, a + b, vals) == S.Filled(params, a, vals) + S.Filled(params, b, vals)
    decreases |a|
  {
    hide S.PartText;
    if a == [] {
      assert a + b == b;
    } else {
      assert (a + b)[1..] == a[1..] + b;
      FilledJoin(params, a[1..], b, vals);
    }
  }

  lemma {:induction false} FilledOne(params: seq<string>, x: S.Part, vals: seq<string>)
    ensures S.Filled(params, [x], vals) == if x.Parameter? && x.j < |vals| then vals[x.j] else S.PartText(params, x)
  {
    hide S.PartText;
    assert [x][1..] == [];
    assert S.Filled(params, [x][1..], vals) == "";
  }

  lemma {:induction false} FillText(defs: seq<Def>, params: seq<string>, bs: seq<Body>, args: seq<Argument>)
    ensures TextOf(defs, Fill(params, bs, args)) == S.Filled(params, Flat(bs), TextsOf(defs, args))
    decreases bs, 0
  {
    hide TextOf, TermText, FillPart, S.Filled, TextsOf;
    if bs == [] {
      assert TextOf(defs, []) == "" && S.Filled(params, [], TextsOf(defs, args)) == "" by { NothingFilled(defs, params, TextsOf(defs, args)); }
    } else {
      FillPartText(defs, params, bs[0], args);
      FillText(defs, params, bs[1..], args);
      TextJoin(defs, FillPart(params, bs[0], args), Fill(params, bs[1..], args));
      FilledJoin(params, FlatPart(bs[0]), Flat(bs[1..]), TextsOf(defs, args));
    }
  }

  function FlatPart(b: Body): seq<S.Part>
  {
    match b
    case Leaf(x) => [x]
    case Nest(cs) => [S.Mark('(')] + Flat(cs) + [S.Mark(')')]
  }

  lemma {:induction false} NothingFilled(defs: seq<Def>, params: seq<string>, vals: seq<string>)
    ensures TextOf(defs, []) == "" && S.Filled(params, [], vals) == ""
  {
  }

  lemma {:induction false} FillPartText(defs: seq<Def>, params: seq<string>, b: Body, args: seq<Argument>)
    ensures TextOf(defs, FillPart(params, b, args)) == S.Filled(params, FlatPart(b), TextsOf(defs, args))
    decreases b, 1
  {
    hide TextOf, Fill, S.Filled;
    var vals := TextsOf(defs, args);
    match b
    case Nest(cs) =>
      TextOne(defs, Paren(Fill(params, cs, args)));
      FillText(defs, params, cs, args);
      FilledJoin(params, [S.Mark('(')], Flat(cs), vals);
      FilledJoin(params, [S.Mark('(')] + Flat(cs), [S.Mark(')')], vals);
      FilledOne(params, S.Mark('('), vals);
      FilledOne(params, S.Mark(')'), vals);
      Regrouped("(", S.Filled(params, Flat(cs), vals), ")");
    case Leaf(x) =>
      FilledOne(params, x, vals);
      if !(x.Parameter? && x.j < |args|) { TextOne(defs, Piece(S.PartText(params, x))); }
  }

  lemma {:induction false} UsedAre(raws: seq<string>, exps: seq<string>)
    requires |raws| == |exps| && forall j :: 0 <= j < |exps| ==> exps[j] != ""
    ensures S.UsedAll(raws, exps) == exps
  {
  }

  // ----- Scanning -----

  /** Text without names that the scanner acts on. */
  lemma {:induction false} PieceScan(k: Setting, defs: seq<Def>, banned: set<string>, s: string, i: nat, t: string, rest: string,
                                     ms: seq<Macro>, c: Cond, depth: nat)
    requires Ready(k, defs, ms, banned) && c.skip == 0 && Clean(t, Live(defs, k.stack, banned))
    requires i <= |s| && s[i..] == t + rest && Breaks(t, rest)
    ensures i + |t| <= |s| && s[i + |t|..] == rest
    ensures Scan(k, s, i, ms, c, depth) == With(t, Scan(k, s, i + |t|, ms, c, depth))
  {
    hide Ready, Clean, Live, Knows, Expand, Scan;
    var live := Live(defs, k.stack, banned);
    ReadyKnows(k, defs, ms, banned);
    CleanScan(k, s, i, t, rest, ms, c, live, depth);
    ExpandStays(ms, t, live, depth);
    Past(s, i, t, rest);
  }

  lemma {:induction false} SpacesClean(t: string, banned: set<string>)
    requires Spaces(t)
    ensures Clean(t, banned)
    decreases |t|
  {
    if t != "" { SpacesClean(t[1..], banned); }
  }

  /** Two pieces of output. */
  lemma {:induction false} WithJoin(a: string, b: string, p: Pass, q: Pass, r: Pass)
    requires p == With(a, q) && q == With(b, r)
    ensures p == With(a + b, r)
  {
    WithTwice(a, b, r);
  }

  lemma {:induction false} WithThree(a: string, b: string, p: Pass, q: Pass, r: Pass, e: Pass)
    requires p == With(a, q) && q == With(",", r) && r == With(b, e)
    ensures p == With(a + ("," + b), e)
  {
    hide With;
    WithJoin(",", b, q, r, e);
    WithJoin(a, "," + b, p, q, e);
  }

  /** There is room for the calls that are nested in a text. */
  predicate Room(stack: seq<nat>, depth: nat, height: nat) { depth + height <= MAX_LEVEL && |stack| + height <= MAX_STACK }

  lemma {:induction false} TermsScan(k: Setting, defs: seq<Def>, banned: set<string>, s: string, i: nat, ts: seq<Term>, rest: string,
                                     ms: seq<Macro>, c: Cond, depth: nat)
    requires Ready(k, defs, ms, banned) && c.skip == 0 && Good(defs, banned, ts) && Room(k.stack, depth, Height(ts))
    requires i <= |s| && s[i..] == TextOf(defs, ts) + rest && Stops(rest)
    ensures i + |TextOf(defs, ts)| <= |s| && s[i + |TextOf(defs, ts)|..] == rest
    ensures Scan(k, s, i, ms, c, depth)
      == With(TextOf(defs, Eval(defs, k.stack, ts)), Scan(k, s, i + |TextOf(defs, ts)|, ms, c, depth))
    decreases Free(defs, k.stack), ts, 0
  {
    hide Ready, Scan, TermText, EvalTerm, GoodTerm, Joins, TermHeight, Stops, Breaks;
    Past(s, i, TextOf(defs, ts), rest);
    if ts == [] {
      WithNothing(Scan(k, s, i, ms, c, depth));
    } else {
      var x, u := TermText(defs, ts[0]), TextOf(defs, ts[1..]);
      Regrouped(x, u, rest);
      FirstJoins(k, defs, banned, ts, rest, ms);
      TermScan(k, defs, banned, s, i, ts[0], u + rest, ms, c, depth);
      TermsScan(k, defs, banned, s, i + |x|, ts[1..], rest, ms, c, depth);
      TextJoin(defs, EvalTerm(defs, k.stack, ts[0]), Eval(defs, k.stack, ts[1..]));
      var a, b := TextOf(defs, EvalTerm(defs, k.stack, ts[0])), TextOf(defs, Eval(defs, k.stack, ts[1..]));
      var end := Scan(k, s, i + |TextOf(defs, ts)|, ms, c, depth);
      assert i + |x| + |u| == i + |TextOf(defs, ts)|;
      WithJoin(a, b, Scan(k, s, i, ms, c, depth), Scan(k, s, i + |x|, ms, c, depth), end);
    }
  }

  lemma {:induction false} FirstJoins(k: Setting, defs: seq<Def>, banned: set<string>, ts: seq<Term>, rest: string, ms: seq<Macro>)
    requires Ready(k, defs, ms, banned) && Good(defs, banned, ts) && ts != [] && Stops(rest)
    ensures Joins(ts[0], TextOf(defs, ts[1..]) + rest)
  {
    hide GoodDefs, GoodTerm, Joins, Stops, TermText;
    var u := TextOf(defs, ts[1..]);
    if ts[1..] == [] {
      assert u + rest == rest;
      StopsJoins(ts[0], rest);
    } else {
      RestShows(defs, banned, ts[1..]);
      JoinsMore(ts[0], u, rest);
    }
  }

  lemma {:induction false} TermScan(k: Setting, defs: seq<Def>, banned: set<string>, s: string, i: nat, x: Term, rest: string,
                                    ms: seq<Macro>, c: Cond, depth: nat)
    requires Ready(k, defs, ms, banned) && c.skip == 0 && GoodTerm(defs, banned, x) && Room(k.stack, depth, TermHeight(x))
    requires i <= |s| && s[i..] == TermText(defs, x) + rest && Joins(x, rest)
    ensures i + |TermText(defs, x)| <= |s| && s[i + |TermText(defs, x)|..] == rest
    ensures Scan(k, s, i, ms, c, depth)
      == With(TextOf(defs, EvalTerm(defs, k.stack, x)), Scan(k, s, i + |TermText(defs, x)|, ms, c, depth))
    decreases Free(defs, k.stack), x, 1
  {
    hide Ready, Scan, TextOf, Eval, EvalArguments, Good, GoodArguments, Height, ArgumentsHeight, Live, Clean, Breaks, Stops, Fill, ArgumentsText;
    Past(s, i, TermText(defs, x), rest);
    match x
    case Piece(t) =>
      FewerLive(defs, k.stack, banned);
      CleanLess(t, banned, Live(defs, k.stack, banned));
      PieceScan(k, defs, banned, s, i, t, rest, ms, c, depth);
      TextOne(defs, x);
    case Paren(ts) => ParenScan(k, defs, banned, s, i, ts, rest, ms, c, depth);
    case Invoke(fi, args) =>
      if fi in k.stack {
        StaysScan(k, defs, banned, s, i, fi, args, rest, ms, c, depth);
      } else {
        CallScan(k, defs, banned, s, i, fi, args, rest, ms, c, depth);
      }
  }

  lemma {:induction false} FewerLive(defs: seq<Def>, stack: seq<nat>, banned: set<string>)
    ensures Live(defs, stack, banned) <= banned
  {
  }

  /** One character that is no letter. */
  lemma {:induction false} MarkScan(k: Setting, defs: seq<Def>, banned: set<string>, s: string, i: nat, x: char, rest: string,
                                    ms: seq<Macro>, c: Cond, depth: nat)
    requires Ready(k, defs, ms, banned) && c.skip == 0 && (x == '(' || x == ')' || x == ',')
    requires i <= |s| && s[i..] == [x] + rest
    ensures i + 1 <= |s| && s[i + 1..] == rest
    ensures Scan(k, s, i, ms, c, depth) == With([x], Scan(k, s, i + 1, ms, c, depth))
  {
    hide Ready, Scan, Live, Clean;
    OneClean(x, Live(defs, k.stack, banned));
    PieceScan(k, defs, banned, s, i, [x], rest, ms, c, depth);
  }

  lemma {:induction false} ParenScan(k: Setting, defs: seq<Def>, banned: set<string>, s: string, i: nat, ts: seq<Term>, rest: string,
                                     ms: seq<Macro>, c: Cond, depth: nat)
    requires Ready(k, defs, ms, banned) && c.skip == 0 && Good(defs, banned, ts) && Room(k.stack, depth, Height(ts))
    requires i <= |s| && s[i..] == "(" + (TextOf(defs, ts) + ")") + rest
    ensures var n := i + |TextOf(defs, ts)| + 2;
      n <= |s| && Scan(k, s, i, ms, c, depth)
        == With(TextOf(defs, [Paren(Eval(defs, k.stack, ts))]), Scan(k, s, n, ms, c, depth))
    decreases Free(defs, k.stack), ts, 1
  {
    hide Ready, Scan, TextOf, Eval, Good, Height;
    var t, u := TextOf(defs, ts), TextOf(defs, Eval(defs, k.stack, ts));
    assert s[i..] == "(" + (t + (")" + rest));
    MarkScan(k, defs, banned, s, i, '(', t + (")" + rest), ms, c, depth);
    TermsScan(k, defs, banned, s, i + 1, ts, ")" + rest, ms, c, depth);
    var n := i + 1 + |t|;
    MarkScan(k, defs, banned, s, n, ')', rest, ms, c, depth);
    var end := Scan(k, s, n + 1, ms, c, depth);
    WithJoin(u, ")", Scan(k, s, i + 1, ms, c, depth), Scan(k, s, n, ms, c, depth), end);
    WithJoin("(", u + ")", Scan(k, s, i, ms, c, depth), Scan(k, s, i + 1, ms, c, depth), end);
    TextOne(defs, Paren(Eval(defs, k.stack, ts)));
  }

  /** A macro that is being expanded stays, and what is in its arguments is scanned. */
  lemma {:induction false} StaysScan(k: Setting, defs: seq<Def>, banned: set<string>, s: string, i: nat, fi: nat, args: seq<Argument>,
                                     rest: string, ms: seq<Macro>, c: Cond, depth: nat)
    requires Ready(k, defs, ms, banned) && c.skip == 0 && GoodTerm(defs, banned, Invoke(fi, args)) && fi in k.stack
    requires Room(k.stack, depth, ArgumentsHeight(args))
    requires i <= |s| && s[i..] == TermText(defs, Invoke(fi, args)) + rest
    ensures i + |TermText(defs, Invoke(fi, args))| <= |s|
    ensures Scan(k, s, i, ms, c, depth)
      == With(TextOf(defs, [Invoke(fi, EvalArguments(defs, k.stack, args))]), Scan(k, s, i + |TermText(defs, Invoke(fi, args))|, ms, c, depth))
    decreases Free(defs, k.stack), args, 2
  {
    hide Ready, Scan, TextOf, EvalArguments, ArgumentsText, GoodArguments, ArgumentsHeight, Clean;
    var n, a := defs[fi].name, ArgumentsText(defs, args);
    var b := ArgumentsText(defs, EvalArguments(defs, k.stack, args));
    assert s[i..] == n + ("(" + (a + (")" + rest)));
    StackedClean(k, defs, banned, ms, fi);
    PieceScan(k, defs, banned, s, i, n, "(" + (a + (")" + rest)), ms, c, depth);
    MarkScan(k, defs, banned, s, i + |n|, '(', a + (")" + rest), ms, c, depth);
    ArgumentsScan(k, defs, banned, s, i + |n| + 1, args, ")" + rest, ms, c, depth);
    var e := i + |n| + 1 + |a|;
    Past(s, i + |n| + 1, a, ")" + rest);
    MarkScan(k, defs, banned, s, e, ')', rest, ms, c, depth);
    var end := Scan(k, s, e + 1, ms, c, depth);
    WithJoin(b, ")", Scan(k, s, i + |n| + 1, ms, c, depth), Scan(k, s, e, ms, c, depth), end);
    WithJoin("(", b + ")", Scan(k, s, i + |n|, ms, c, depth), Scan(k, s, i + |n| + 1, ms, c, depth), end);
    WithJoin(n, "(" + (b + ")"), Scan(k, s, i, ms, c, depth), Scan(k, s, i + |n|, ms, c, depth), end);
    TextOne(defs, Invoke(fi, EvalArguments(defs, k.stack, args)));
  }

  lemma {:induction false} StackedClean(k: Setting, defs: seq<Def>, banned: set<string>, ms: seq<Macro>, fi: nat)
    requires Ready(k, defs, ms, banned) && fi < |defs| && fi in k.stack
    ensures Clean(defs[fi].name, Live(defs, k.stack, banned)) && Breaks(defs[fi].name, "(")
  {
    hide GoodDefs;
    var n, live := defs[fi].name, Live(defs, k.stack, banned);
    DefIs(defs, banned, fi);
    assert n !in live;
    assert n[0..] == n + "";
    I.NameEnds(n, 0, n, "");
    assert n[..|n|] == n && n[|n|..] == "";
    NothingClean(live);
  }

  /** Arguments with commas between them. */
  lemma {:induction false} ArgumentsScan(k: Setting, defs: seq<Def>, banned: set<string>, s: string, i: nat, args: seq<Argument>,
                                         rest: string, ms: seq<Macro>, c: Cond, depth: nat)
    requires Ready(k, defs, ms, banned) && c.skip == 0 && GoodArguments(defs, banned, args) && Room(k.stack, depth, ArgumentsHeight(args))
    requires i <= |s| && s[i..] == ArgumentsText(defs, args) + rest && Stops(rest)
    ensures var n := i + |ArgumentsText(defs, args)|;
      n <= |s| && Scan(k, s, i, ms, c, depth)
        == With(ArgumentsText(defs, EvalArguments(defs, k.stack, args)), Scan(k, s, n, ms, c, depth))
    decreases Free(defs, k.stack), args, 1
  {
    hide Ready, Scan, TextOf, Eval, Good, Height, Spaces, ArgumentsText, With, GoodArguments, EvalArguments, ArgumentsHeight, ArgumentText;
    ArgumentsFirst(defs, args);
    ArgumentsFirst(defs, EvalArguments(defs, k.stack, args));
    ArgumentsParts(defs, banned, k.stack, args);
    if args == [] {
      WithNothing(Scan(k, s, i, ms, c, depth));
    } else if |args| == 1 {
      ArgumentScan(k, defs, banned, s, i, args[0], rest, ms, c, depth);
    } else {
      MoreArguments(k, defs, banned, s, i, args, rest, ms, c, depth);
    }
  }

  lemma {:induction false} MoreArguments(k: Setting, defs: seq<Def>, banned: set<string>, s: string, i: nat, args: seq<Argument>,
                                         rest: string, ms: seq<Macro>, c: Cond, depth: nat)
    requires Ready(k, defs, ms, banned) && c.skip == 0 && GoodArguments(defs, banned, args) && Room(k.stack, depth, ArgumentsHeight(args))
    requires |args| > 1 && i <= |s| && s[i..] == ArgumentsText(defs, args) + rest && Stops(rest)
    ensures var n := i + |ArgumentsText(defs, args)|;
      n <= |s| && Scan(k, s, i, ms, c, depth)
        == With(ArgumentsText(defs, EvalArguments(defs, k.stack, args)), Scan(k, s, n, ms, c, depth))
    decreases Free(defs, k.stack), args, 0
  {
    hide Ready, Scan, TextOf, Eval, Good, Height, Spaces, ArgumentsText, With, GoodArguments, EvalArguments, ArgumentsHeight, ArgumentText;
    ArgumentsFirst(defs, args);
    ArgumentsFirst(defs, EvalArguments(defs, k.stack, args));
    ArgumentsParts(defs, banned, k.stack, args);
    var a, u, vals := ArgumentText(defs, args[0]), ArgumentsText(defs, args[1..]), EvalArguments(defs, k.stack, args);
    var n, tail := i + |a|, u + rest;
    Regrouped(a, "," + u, rest);
    Regrouped(",", u, rest);
    ArgumentScan(k, defs, banned, s, i, args[0], "," + tail, ms, c, depth);
    MarkScan(k, defs, banned, s, n, ',', tail, ms, c, depth);
    ArgumentsScan(k, defs, banned, s, n + 1, args[1..], rest, ms, c, depth);
    WithThree(ArgumentText(defs, vals[0]), ArgumentsText(defs, vals[1..]), Scan(k, s, i, ms, c, depth),
              Scan(k, s, n, ms, c, depth), Scan(k, s, n + 1, ms, c, depth), Scan(k, s, n + 1 + |u|, ms, c, depth));
    assert i + |ArgumentsText(defs, args)| == n + 1 + |u|;
  }

  lemma {:induction false} ArgumentsParts(defs: seq<Def>, banned: set<string>, stack: seq<nat>, args: seq<Argument>)
    requires GoodArguments(defs, banned, args)
    ensures args != [] ==> var a, vals := args[0], EvalArguments(defs, stack, args);
      && Good(defs, banned, a.ts) && Spaces(a.left) && Spaces(a.right) && GoodArguments(defs, banned, args[1..])
      && vals[0] == a.(ts := Eval(defs, stack, a.ts)) && vals[1..] == EvalArguments(defs, stack, args[1..])
      && Height(a.ts) <= ArgumentsHeight(args) && ArgumentsHeight(args[1..]) <= ArgumentsHeight(args)
  {
    hide Good, Spaces, Eval, Height, TextOf;
    if args != [] {
      assert EvalArguments(defs, stack, args)[1..] == EvalArguments(defs, stack, args[1..]);
    }
  }

  lemma {:induction false} ArgumentsFirst(defs: seq<Def>, args: seq<Argument>)
    ensures args == [] ==> ArgumentsText(defs, args) == ""
    ensures |args| == 1 ==> ArgumentsText(defs, args) == ArgumentText(defs, args[0])
    ensures |args| > 1 ==> ArgumentsText(defs, args) == ArgumentText(defs, args[0]) + ("," + ArgumentsText(defs, args[1..]))
  {
    hide ArgumentText;
  }

  lemma {:induction false} ArgumentScan(k: Setting, defs: seq<Def>, banned: set<string>, s: string, i: nat, a: Argument, rest: string,
                                        ms: seq<Macro>, c: Cond, depth: nat)
    requires Ready(k, defs, ms, banned) && c.skip == 0 && Good(defs, banned, a.ts) && Spaces(a.left) && Spaces(a.right)
    requires Room(k.stack, depth, Height(a.ts))
    requires i <= |s| && s[i..] == ArgumentText(defs, a) + rest && Stops(rest)
    ensures var t := ArgumentText(defs, a);
      i + |t| <= |s| && s[i + |t|..] == rest && Scan(k, s, i, ms, c, depth)
        == With(ArgumentText(defs, a.(ts := Eval(defs, k.stack, a.ts))), Scan(k, s, i + |t|, ms, c, depth))
    decreases Free(defs, k.stack), a.ts, 1
  {
    hide Ready, Scan, TextOf, Eval, Good, Height, Clean, Live;
    var t, u, live := TextOf(defs, a.ts), TextOf(defs, Eval(defs, k.stack, a.ts)), Live(defs, k.stack, banned);
    assert s[i..] == a.left + (t + (a.right + rest));
    SpacesClean(a.left, live);
    SpacesClean(a.right, live);
    PieceScan(k, defs, banned, s, i, a.left, t + (a.right + rest), ms, c, depth);
    var n := i + |a.left|;
    TermsScan(k, defs, banned, s, n, a.ts, a.right + rest, ms, c, depth);
    PieceScan(k, defs, banned, s, n + |t|, a.right, rest, ms, c, depth);
    var end := Scan(k, s, n + |t| + |a.right|, ms, c, depth);
    WithJoin(u, a.right, Scan(k, s, n, ms, c, depth), Scan(k, s, n + |t|, ms, c, depth), end);
    WithJoin(a.left, u + a.right, Scan(k, s, i, ms, c, depth), Scan(k, s, n, ms, c, depth), end);
  }

  // ----- A call -----

  predicate Inside(spans: seq<M.Span>, lo: nat, hi: nat) { forall j :: 0 <= j < |spans| ==> M.InText(spans[j], lo, hi) }

  /** The list of a call is split into its arguments. */
  lemma {:induction false} SplitIs(defs: seq<Def>, banned: set<string>, s: string, open: nat, args: seq<Argument>, rest: string)
    requires GoodDefs(defs, banned) && GoodArguments(defs, banned, args) && 0 < |args| <= D.MAX_ARGS
    requires open <= |s| && s[open..] == "(" + (ArgumentsText(defs, args) + (")" + rest))
    ensures var close := open + 1 + |ArgumentsText(defs, args)|;
      && close < |s| && s[close] == ')' && s[close + 1..] == rest
      && M.Split(s, open + 1, 1, open + 1, []) == M.Args(M.SpansOf(ArgumentItems(defs, args), open + 1), close)
      && Inside(M.SpansOf(ArgumentItems(defs, args), open + 1), open + 1, close)
      && M.ArgumentTexts(s, M.SpansOf(ArgumentItems(defs, args), open + 1), open + 1, close) == TextsOf(defs, args)
  {
    hide GoodDefs, GoodArguments, ArgumentsText, M.Split, M.SpansOf, ArgumentItems, M.ArgumentTexts, TextsOf,
      M.Joined, M.AreArguments, Separated, M.Print;
    var items, a := ArgumentItems(defs, args), ArgumentsText(defs, args);
    var close := open + 1 + |a|;
    ArgumentsPrint(defs, banned, args);
    Past(s, open, "(", a + (")" + rest));
    Past(s, open + 1, a, ")" + rest);
    Past(s, close, ")", rest);
    assert s[open + 1..close + 1] == s[open + 1..close] + [')'];
    M.SplitPrinted(s, open + 1, items);
    M.SplitInside(s, open + 1, 1, open + 1, [], open + 1);
    RawsAre(defs, banned, s, open + 1, args, close);
  }

  /** Each argument is scanned by itself. */
  lemma {:induction false} ArgumentsPassIs(k: Setting, defs: seq<Def>, banned: set<string>, args: seq<Argument>, ms: seq<Macro>, c: Cond,
                                           depth: nat, bound: nat)
    requires Ready(k, defs, ms, banned) && c.skip == 0 && GoodArguments(defs, banned, args)
    requires Room(k.stack, depth + 1, ArgumentsHeight(args)) && forall t :: t in TextsOf(defs, args) ==> |t| < bound
    ensures ArgumentsPass(k, TextsOf(defs, args), ms, c, depth, bound)
      == Expanded.Texts(TextsOf(defs, EvalArguments(defs, k.stack, args)), k.funcs, ms, c)
    decreases Free(defs, k.stack), args, 1
  {
    hide Ready, Scan, TextOf, Eval, Good, Height, Head, Tail, NoComma;
    if args != [] {
      var raws, vals := TextsOf(defs, args), EvalArguments(defs, k.stack, args);
      assert vals[1..] == EvalArguments(defs, k.stack, args[1..]) && raws[1..] == TextsOf(defs, args[1..]);
      assert forall t :: t in raws[1..] ==> t in raws;
      WholeScan(k, defs, banned, args[0].ts, ms, c, depth + 1);
      ArgumentsPassIs(k, defs, banned, args[1..], ms, c, depth, bound);
    }
  }

  /** A whole text. */
  lemma {:induction false} WholeScan(k: Setting, defs: seq<Def>, banned: set<string>, ts: seq<Term>, ms: seq<Macro>, c: Cond, depth: nat)
    requires Ready(k, defs, ms, banned) && c.skip == 0 && Good(defs, banned, ts) && Room(k.stack, depth, Height(ts))
    ensures Scan(k, TextOf(defs, ts), 0, ms, c, depth)
      == Pass(|TextOf(defs, ts)|, k, ms, c, TextOf(defs, Eval(defs, k.stack, ts)))
    decreases Free(defs, k.stack), ts, 1
  {
    hide Ready, Scan, TextOf, Eval, Good, Height;
    var s, u := TextOf(defs, ts), TextOf(defs, Eval(defs, k.stack, ts));
    assert s[0..] == s + "";
    TermsScan(k, defs, banned, s, 0, ts, "", ms, c, depth);
    ScanEnds(k, s, ms, c, depth);
    assert u + "" == u;
  }

  /** The arguments are scanned, put into the replacement text, and this is scanned. */
  lemma {:induction false} ExpandIs(k: Setting, defs: seq<Def>, banned: set<string>, s: string, open: nat, close: nat, fi: nat,
                                    args: seq<Argument>, ms: seq<Macro>, c: Cond, depth: nat)
    requires Ready(k, defs, ms, banned) && c.skip == 0 && GoodTerm(defs, banned, Invoke(fi, args)) && fi !in k.stack
    requires Room(k.stack, depth, 1 + ArgumentsHeight(args)) && open < close < |s| && Stops(s[close + 1..])
    requires forall t :: t in TextsOf(defs, args) ==> |t| < |s| - open
    ensures ExpandPass(k, s, open, TextsOf(defs, args), close, fi, ms, c, depth)
      == Pass(close + 1, k, ms, c, TextOf(defs, EvalTerm(defs, k.stack, Invoke(fi, args))))
    decreases Free(defs, k.stack), args, 2
  {
    hide Scan, TextOf, Eval, EvalArguments, ArgumentsPass, S.Substituted, GoodDefs, GoodArguments, ArgumentsHeight,
      Height, TextsOf, Fill, Flat, S.PartsText, FollowPass;
    var inner, d := Fresh(k.(stack := k.stack + [fi])), defs[fi];
    InvokeParts(defs, banned, fi, args);
    FreeLess(defs, k.stack, fi);
    ArgumentsPassIs(inner, defs, banned, args, ms, c, depth, |s| - open);
    var vals := EvalArguments(defs, inner.stack, args);
    var temp := Fill(d.params, d.body, vals);
    FilledIs(defs, banned, fi, args, vals, k.funcs[fi]) by { EvalArgumentsGood(defs, banned, inner.stack, args); }
    EvalArgumentsHeight(defs, inner.stack, args);
    FillHeight(d.params, d.body, vals);
    WholeScan(inner, defs, banned, temp, ms, c, depth + 1);
    NoFollow(k, s, close, TextOf(defs, Eval(defs, inner.stack, temp)), ms, c, depth);
  }

  /** What is put together is the text of the filled replacement text. */
  lemma {:induction false} FilledIs(defs: seq<Def>, banned: set<string>, fi: nat, args: seq<Argument>, vals: seq<Argument>, f: D.FuncMacro)
    requires GoodDefs(defs, banned) && fi < |defs| && |args| == |vals| == |defs[fi].params| && GoodArguments(defs, banned, vals)
    requires f == MacroOf(defs[fi])
    ensures var d := defs[fi];
      var temp := Fill(d.params, d.body, vals);
      && S.Substituted(f, TextsOf(defs, args), TextsOf(defs, vals)) == TextOf(defs, temp)
      && TextOf(defs, temp) != "" && Good(defs, banned, temp)
  {
    hide GoodArguments, Good, TextOf, S.Substituted, TextsOf, Fill, Flat, S.PartsText, S.Filled, S.UsedAll, GoodBody, Clean, NoBodyComma, I.IsName;
    var d, raws, exps := defs[fi], TextsOf(defs, args), TextsOf(defs, vals);
    assert GoodDef(d, banned);
    forall j | 0 <= j < |exps| ensures exps[j] != "" { GoodArgument(defs, banned, vals, j); }
    UsedAre(raws, exps);
    S.PlainSubstituted(f, raws, exps, Flat(d.body));
    FillText(defs, d.params, d.body, vals);
    FillEnds(defs, banned, d.params, d.body, vals);
    FillGood(defs, banned, d.params, d.body, vals);
  }

  lemma {:induction false} NoFollow(k: Setting, s: string, close: nat, result: string, ms: seq<Macro>, c: Cond, depth: nat)
    requires close < |s| && depth < MAX_LEVEL && Stops(s[close + 1..])
    ensures FollowPass(k, s, close, result, ms, c, depth) == Pass(close + 1, k, ms, c, result)
  {
    hide SkipBlanks, IdEnd, FunctionIndex, M.CloseOf, Scan;
    if close + 1 < |s| { assert s[close + 1..][0] == s[close + 1]; }
  }

  lemma {:induction false} NoMacro(ms: seq<Macro>, n: string)
    requires forall m :: m in ms ==> m.name != n
    ensures Lookup(ms, n) == Missing
    decreases |ms|
  {
    if ms != [] {
      assert ms[0] in ms && forall m :: m in ms[1..] ==> m in ms;
      NoMacro(ms[1..], n);
    }
  }

  /** The name of a macro that is not being expanded, and its arguments. */
  lemma {:induction false} CallScan(k: Setting, defs: seq<Def>, banned: set<string>, s: string, i: nat, fi: nat, args: seq<Argument>,
                                    rest: string, ms: seq<Macro>, c: Cond, depth: nat)
    requires Ready(k, defs, ms, banned) && c.skip == 0 && GoodTerm(defs, banned, Invoke(fi, args)) && fi !in k.stack
    requires Room(k.stack, depth, 1 + ArgumentsHeight(args)) && Stops(rest)
    requires i <= |s| && s[i..] == TermText(defs, Invoke(fi, args)) + rest
    ensures i + |TermText(defs, Invoke(fi, args))| <= |s|
    ensures Scan(k, s, i, ms, c, depth)
      == With(TextOf(defs, EvalTerm(defs, k.stack, Invoke(fi, args))), Scan(k, s, i + |TermText(defs, Invoke(fi, args))|, ms, c, depth))
    decreases Free(defs, k.stack), args, 4
  {
    hide Scan, TextOf, EvalTerm, ArgumentsText, GoodArguments, ArgumentsHeight, GoodDefs, CallPass, OnePass, Stops;
    var n, a := defs[fi].name, ArgumentsText(defs, args);
    var e, tail := i + |n|, "(" + (a + (")" + rest));
    assert s[i..] == n + tail;
    DefIs(defs, banned, fi);
    Past(s, i, n, tail);
    CallIs(k, defs, banned, s, e, fi, args, rest, ms, c, depth);
    NamePassIs(k, defs, banned, s, i, fi, tail, ms, c, depth);
    ScanStep(k, s, i, ms, c, depth);
  }

  lemma {:induction false} NamePassIs(k: Setting, defs: seq<Def>, banned: set<string>, s: string, i: nat, fi: nat, tail: string,
                                      ms: seq<Macro>, c: Cond, depth: nat)
    requires Ready(k, defs, ms, banned) && c.skip == 0 && fi < |defs| && fi !in k.stack && i <= |s|
    requires s[i..] == defs[fi].name + tail && tail != "" && tail[0] == '('
    ensures var e := i + |defs[fi].name|; i < e < |s| && OnePass(k, s, i, ms, c, depth) == CallPass(k, s, e, fi, ms, c, depth)
  {
    hide GoodDefs, CallPass, Scan, FunctionIndex, Lookup, IdEnd, AtLineStart, DirectivePass;
    var n := defs[fi].name;
    DefIs(defs, banned, fi);
    IndexIs(k, defs, ms, banned, fi);
    NoMacro(ms, n);
    Past(s, i, n, tail);
    I.NameEnds(s, i, n, tail);
  }

  lemma {:induction false} CallIs(k: Setting, defs: seq<Def>, banned: set<string>, s: string, open: nat, fi: nat, args: seq<Argument>,
                                  rest: string, ms: seq<Macro>, c: Cond, depth: nat)
    requires Ready(k, defs, ms, banned) && c.skip == 0 && GoodTerm(defs, banned, Invoke(fi, args)) && fi !in k.stack
    requires Room(k.stack, depth, 1 + ArgumentsHeight(args)) && Stops(rest)
    requires open < |s| && s[open..] == "(" + (ArgumentsText(defs, args) + (")" + rest))
    ensures CallPass(k, s, open, fi, ms, c, depth)
      == Pass(open + |ArgumentsText(defs, args)| + 2, k, ms, c, TextOf(defs, EvalTerm(defs, k.stack, Invoke(fi, args))))
    decreases Free(defs, k.stack), args, 3
  {
    hide Scan, TextOf, EvalTerm, ArgumentsText, GoodArguments, ArgumentsHeight, GoodDefs, ExpandPass, M.Split,
      M.ArgumentTexts, TextsOf, ArgumentItems, M.SpansOf;
    InvokeParts(defs, banned, fi, args);
    SplitIs(defs, banned, s, open, args, rest);
    ExpandIs(k, defs, banned, s, open, open + 1 + |ArgumentsText(defs, args)|, fi, args, ms, c, depth);
  }

  // ----- When the text is what C means -----

  /** A text with calls, nested in any way, scans to what C means by it if and only if every
      chain of nested calls vanishes. */
  lemma {:induction false} CallsExactly(k: Setting, defs: seq<Def>, banned: set<string>, ts: seq<Term>, ms: seq<Macro>, c: Cond, depth: nat)
    requires Ready(k, defs, ms, banned) && c.skip == 0 && Good(defs, banned, ts) && Room(k.stack, depth, Height(ts))
    ensures var p := Scan(k, TextOf(defs, ts), 0, ms, c, depth);
      && p.Pass? && p.i == |TextOf(defs, ts)| && p.known == k && p.macros == ms && p.cond == c
      && (p.out == TextOf(defs, Full(defs, ts)) <==> Vanish(defs, k.stack, ts))
  {
    hide Scan, TextOf, Eval, Full, Good, GoodDefs, Height, Vanish;
    WholeScan(k, defs, banned, ts, ms, c, depth);
    MeansExactly(defs, banned, k.stack, ts);
    LeftExactly(defs, banned, k.stack, ts);
  }

  /** As long as no macro is called in its own arguments, however deep, all calls are
      replaced. */
  lemma {:induction false} CallsExpand(k: Setting, defs: seq<Def>, banned: set<string>, ts: seq<Term>, ms: seq<Macro>, c: Cond, depth: nat)
    requires Ready(k, defs, ms, banned) && c.skip == 0 && Good(defs, banned, ts) && Room(k.stack, depth, Height(ts))
    requires forall p, i :: IsPath(defs, ts, p) && 0 <= i < |p| ==> p[i] !in k.stack && p[i] !in p[..i]
    ensures var p := Scan(k, TextOf(defs, ts), 0, ms, c, depth); p.Pass? && p.out == TextOf(defs, Full(defs, ts))
  {
    hide Scan, TextOf, Full, Good, Ready, Height, IsPath, Reduce;
    forall p | IsPath(defs, ts, p) ensures Reduce(k.stack, p) == [] {
      forall i, j | 0 <= i < j < |p| ensures p[i] != p[j] { assert p[..j][i] == p[i]; }
      DifferentVanish(k.stack, p);
    }
    CallsExactly(k, defs, banned, ts, ms, c, depth);
  }

  /** n(n(t)), for a macro n that stands for its only argument, comes out as n(t), where C
      means t. */
  lemma {:induction false} SelfCallStays(n: string, t: string, nest: nat, c: Cond)
    requires I.IsName(n) && n != "__LINE__" && Solid(t, {n, "__LINE__"}) && ',' !in t && Head(t) && Tail(t) && c.skip == 0
    ensures var k := Setting([D.FuncMacro(n, ["x"], false, "x")], nest, [], map[], 1);
      var s := n + ("(" + (n + ("(" + (t + ")")) + ")"));
      Scan(k, s, 0, [], c, 0) == Pass(|s|, k, [], c, n + ("(" + (t + ")")))
    ensures var defs, piece := [Def(n, ["x"], [Leaf(S.Parameter(0))])], Argument("", [Piece(t)], "");
      var call := Argument("", [Invoke(0, [piece])], "");
      && TextOf(defs, [Invoke(0, [call])]) == n + ("(" + (n + ("(" + (t + ")")) + ")"))
      && TextOf(defs, Full(defs, [Invoke(0, [call])])) == t
  {
    hide Scan, Good, GoodDefs, Clean, I.IsName, Height, Full, Eval, TextOf;
    var defs, banned := [Def(n, ["x"], [Leaf(S.Parameter(0))])], {n, "__LINE__"};
    var piece := Argument("", [Piece(t)], "");
    var call := Argument("", [Invoke(0, [piece])], "");
    var ts := [Invoke(0, [call])];
    IdentityGood(n, banned);
    NestGood(defs, banned, t);
    NestTexts(defs, n, t);
    NestEval(defs, t);
    var k := Setting([D.FuncMacro(n, ["x"], false, "x")], nest, [], map[], 1);
    WholeScan(k, defs, banned, ts, [], c, 0);
  }

  lemma {:induction false} IdentityGood(n: string, banned: set<string>)
    requires I.IsName(n) && n in banned && n != "__LINE__"
    ensures var d := Def(n, ["x"], [Leaf(S.Parameter(0))]);
      GoodDefs([d], banned) && MacroOf(d) == D.FuncMacro(n, ["x"], false, "x")
  {
    hide I.IsName;
    var d := Def(n, ["x"], [Leaf(S.Parameter(0))]);
    assert d.body[1..] == [] && Flat(d.body) == [S.Parameter(0)] + Flat([]) == [S.Parameter(0)];
    assert [S.Parameter(0)][1..] == [];
    assert S.PartsText(["x"], [S.Parameter(0)]) == "x" + S.PartsText(["x"], [S.Parameter(0)][1..]) == "x";
    assert S.IsWord("x");
  }

  lemma {:induction false} NestGood(defs: seq<Def>, banned: set<string>, t: string)
    requires GoodDefs(defs, banned) && |defs| == 1 && |defs[0].params| == 1 && Solid(t, banned) && ',' !in t && Head(t) && Tail(t)
    ensures var call := Argument("", [Invoke(0, [Argument("", [Piece(t)], "")])], "");
      Good(defs, banned, [Invoke(0, [call])]) && Height([Invoke(0, [call])]) == 2
  {
    hide GoodDefs, Clean, Solid, Head, Tail;
    var piece := Argument("", [Piece(t)], "");
    var inner := Invoke(0, [piece]);
    var call := Argument("", [inner], "");
    GoodOne(defs, banned, Piece(t));
    assert [piece][1..] == [] && [call][1..] == [];
    assert NoComma(piece.ts) && NoComma(call.ts) && GoodArguments(defs, banned, []);
    assert TextOf(defs, piece.ts) == t;
    assert GoodArguments(defs, banned, [piece]);
    assert GoodTerm(defs, banned, inner);
    GoodOne(defs, banned, inner);
    TermShows(defs, banned, inner);
    assert GoodArguments(defs, banned, [call]);
    assert GoodTerm(defs, banned, Invoke(0, [call]));
    GoodOne(defs, banned, Invoke(0, [call]));
    HeightOne(Piece(t));
    HeightOne(inner);
    HeightOne(Invoke(0, [call]));
    assert ArgumentsHeight([]) == 0 && ArgumentsHeight([piece]) == 0;
    assert TermHeight(inner) == 1;
    assert ArgumentsHeight([call]) == 1;
  }

  lemma {:induction false} NestTexts(defs: seq<Def>, n: string, t: string)
    requires |defs| == 1 && defs[0] == Def(n, ["x"], [Leaf(S.Parameter(0))])
    ensures var inner := Invoke(0, [Argument("", [Piece(t)], "")]);
      && TextOf(defs, [inner]) == n + ("(" + (t + ")"))
      && TextOf(defs, [Invoke(0, [Argument("", [inner], "")])]) == n + ("(" + (n + ("(" + (t + ")")) + ")"))
      && Full(defs, [Invoke(0, [Argument("", [inner], "")])]) == [Piece(t)] && TextOf(defs, [Piece(t)]) == t
  {
    hide TextOf, Full;
    var piece := Argument("", [Piece(t)], "");
    var inner := Invoke(0, [piece]);
    var call := Argument("", [inner], "");
    TextOne(defs, Piece(t));
    TextOne(defs, inner);
    TextOne(defs, Invoke(0, [call]));
    var u := TextOf(defs, [inner]);
    assert ArgumentText(defs, piece) == t && ArgumentText(defs, call) == u;
    assert ArgumentsText(defs, [piece]) == t && ArgumentsText(defs, [call]) == u;
    FullOne(defs, Piece(t));
    assert [piece][1..] == [] && [call][1..] == [];
    FullOne(defs, inner);
    assert defs[0].body[1..] == [] && Fill(["x"], [], [piece]) == [];
    assert FullTerm(defs, inner) == [Piece(t)] + [] == [Piece(t)];
    FullOne(defs, Invoke(0, [call]));
    assert FullTerm(defs, Invoke(0, [call])) == [Piece(t)] + [] == [Piece(t)];
  }

  lemma {:induction false} NestEval(defs: seq<Def>, t: string)
    requires |defs| == 1 && defs[0].params == ["x"] && defs[0].body == [Leaf(S.Parameter(0))]
    ensures var inner := Invoke(0, [Argument("", [Piece(t)], "")]);
      Eval(defs, [], [Invoke(0, [Argument("", [inner], "")])]) == [inner]
  {
    hide Eval;
    var piece := Argument("", [Piece(t)], "");
    var inner := Invoke(0, [piece]);
    var call := Argument("", [inner], "");
    EvalOne(defs, [0], Piece(t));
    EvalOne(defs, [0], inner);
    assert [piece][1..] == [] && [call][1..] == [];
    assert EvalArguments(defs, [0], [piece]) == [piece];
    assert EvalArguments(defs, [0], [call]) == [call];
    assert defs[0].body[1..] == [] && Fill(["x"], [], [call]) == [];
    assert Fill(["x"], defs[0].body, [call]) == [inner] + [] == [inner];
    EvalOne(defs, [], Invoke(0, [call]));
    assert [] + [0] == [0];
  }

  lemma {:induction false} EvalOne(defs: seq<Def>, stack: seq<nat>, x: Term)
    ensures Eval(defs, stack, [x]) == EvalTerm(defs, stack, x)
  {
    hide EvalTerm;
    assert [x][1..] == [];
    assert Eval(defs, stack, [x]) == EvalTerm(defs, stack, x) + Eval(defs, stack, []);
  }
}
