/** Calls of function macros inside each other: texts as terms, what the C standard makes
    of them, what scanning with a stack of macros makes of them, and when both agree. */
module CallTerms {
  import opened IfExpression
  import opened Directives
  import opened Conditionals
  import D = DirectiveReader
  import I = IfPrinting
  import S = Substitution

  /** A replacement text: parameters, words and marks, and groups in parentheses. */
  datatype Body = Leaf(x: S.Part) | Nest(bs: seq<Body>)

  datatype Def = Def(name: string, params: seq<string>, body: seq<Body>)

  /** A text: pieces without function macros, groups in parentheses, and calls. */
  datatype Term = Piece(t: string) | Paren(ts: seq<Term>) | Invoke(fi: nat, args: seq<Argument>)

  /** An argument and the blanks around it. */
  datatype Argument = Argument(left: string, ts: seq<Term>, right: string)

  // ----- Texts -----

  function Flat(bs: seq<Body>): seq<S.Part>
  {
    if bs == [] then []
    else
      (match bs[0]
       case Leaf(x) => [x]
       case Nest(cs) => [S.Mark('(')] + Flat(cs) + [S.Mark(')')])
      + Flat(bs[1..])
  }

  function TextOf(defs: seq<Def>, ts: seq<Term>): string
    decreases ts, 0
  {
    if ts == [] then "" else TermText(defs, ts[0]) + TextOf(defs, ts[1..])
  }

  function Name(defs: seq<Def>, fi: nat): string { if fi < |defs| then defs[fi].name else "" }

  function TermText(defs: seq<Def>, x: Term): string
    decreases x, 1
  {
    match x
    case Piece(t) => t
    case Paren(ts) => "(" + (TextOf(defs, ts) + ")")
    case Invoke(fi, args) => Name(defs, fi) + ("(" + (ArgumentsText(defs, args) + ")"))
  }

  function ArgumentsText(defs: seq<Def>, args: seq<Argument>): string
    decreases args, 0
  {
    if args == [] then ""
    else if |args| == 1 then ArgumentText(defs, args[0])
    else ArgumentText(defs, args[0]) + ("," + ArgumentsText(defs, args[1..]))
  }

  function ArgumentText(defs: seq<Def>, a: Argument): string
    decreases a, 1
  {
    a.left + (TextOf(defs, a.ts) + a.right)
  }

  /** The arguments in the replacement text. */
  function Fill(params: seq<string>, bs: seq<Body>, args: seq<Argument>): seq<Term>
    decreases bs, 0
  {
    if bs == [] then [] else FillPart(params, bs[0], args) + Fill(params, bs[1..], args)
  }

  function FillPart(params: seq<string>, b: Body, args: seq<Argument>): seq<Term>
    decreases b, 1
  {
    match b
    case Nest(cs) => [Paren(Fill(params, cs, args))]
    case Leaf(x) => if x.Parameter? && x.j < |args| then args[x.j].ts else [Piece(S.PartText(params, x))]
  }

  // ----- What C means -----

  /** All calls replaced: arguments first, then the replacement text. */
  function Full(defs: seq<Def>, ts: seq<Term>): seq<Term>
    decreases ts, 0
  {
    if ts == [] then [] else FullTerm(defs, ts[0]) + Full(defs, ts[1..])
  }

  function FullTerm(defs: seq<Def>, x: Term): seq<Term>
    decreases x, 1
  {
    match x
    case Piece(_) => [x]
    case Paren(ts) => [Paren(Full(defs, ts))]
    case Invoke(fi, args) =>
      if fi < |defs| then Fill(defs[fi].params, defs[fi].body, FullArguments(defs, args))
      else [Invoke(fi, FullArguments(defs, args))]
  }

  function FullArguments(defs: seq<Def>, args: seq<Argument>): (r: seq<Argument>)
    ensures |r| == |args|
    decreases args, 0
  {
    if args == [] then [] else [args[0].(ts := Full(defs, args[0].ts))] + FullArguments(defs, args[1..])
  }

  // ----- What the scanner makes of a text -----

  /** The macros that are not being expanded. */
  function Free(defs: seq<Def>, stack: seq<nat>): set<nat> { set j: nat | j < |defs| && j !in stack }

  lemma {:induction false} FreeLess(defs: seq<Def>, stack: seq<nat>, fi: nat)
    requires fi < |defs| && fi !in stack
    ensures Free(defs, stack + [fi]) < Free(defs, stack)
  {
    assert fi in Free(defs, stack) && fi !in Free(defs, stack + [fi]);
  }

  /** A macro on the stack stays; for any other one the arguments and then the replacement
      text are scanned while it is on the stack. */
  function Eval(defs: seq<Def>, stack: seq<nat>, ts: seq<Term>): seq<Term>
    decreases Free(defs, stack), ts, 0
  {
    if ts == [] then [] else EvalTerm(defs, stack, ts[0]) + Eval(defs, stack, ts[1..])
  }

  function EvalTerm(defs: seq<Def>, stack: seq<nat>, x: Term): seq<Term>
    decreases Free(defs, stack), x, 1
  {
    match x
    case Piece(_) => [x]
    case Paren(ts) => [Paren(Eval(defs, stack, ts))]
    case Invoke(fi, args) =>
      if fi < |defs| && fi !in stack then
        FreeLess(defs, stack, fi);
        var inner := stack + [fi];
        Eval(defs, inner, Fill(defs[fi].params, defs[fi].body, EvalArguments(defs, inner, args)))
      else [Invoke(fi, EvalArguments(defs, stack, args))]
  }

  function EvalArguments(defs: seq<Def>, stack: seq<nat>, args: seq<Argument>): (r: seq<Argument>)
    ensures |r| == |args|
    decreases Free(defs, stack), args, 0
  {
    if args == [] then [] else [args[0].(ts := Eval(defs, stack, args[0].ts))] + EvalArguments(defs, stack, args[1..])
  }

  // ----- Lists -----

  lemma {:induction false} TextJoin(defs: seq<Def>, a: seq<Term>, b: seq<Term>)
    ensures TextOf(defs, a + b) == TextOf(defs, a) + TextOf(defs, b)
    decreases |a|
  {
    hide TermText;
    if a == [] {
      assert a + b == b;
    } else {
      assert (a + b)[1..] == a[1..] + b;
      TextJoin(defs, a[1..], b);
    }
  }

  lemma {:induction false} TextOne(defs: seq<Def>, x: Term)
    ensures TextOf(defs, [x]) == TermText(defs, x)
  {
    hide TermText;
    assert [x][1..] == [];
    assert TextOf(defs, [x]) == TermText(defs, x) + TextOf(defs, []);
  }

  lemma {:induction false} FullJoin(defs: seq<Def>, a: seq<Term>, b: seq<Term>)
    ensures Full(defs, a + b) == Full(defs, a) + Full(defs, b)
    decreases |a|
  {
    hide FullTerm;
    if a == [] {
      assert a + b == b;
    } else {
      assert (a + b)[1..] == a[1..] + b;
      FullJoin(defs, a[1..], b);
    }
  }

  lemma {:induction false} FullOne(defs: seq<Def>, x: Term)
    ensures Full(defs, [x]) == FullTerm(defs, x)
  {
    hide FullTerm;
    assert [x][1..] == [];
    assert Full(defs, [x]) == FullTerm(defs, x) + Full(defs, []);
  }

  lemma {:induction false} ArgumentIs(defs: seq<Def>, stack: seq<nat>, args: seq<Argument>, j: nat)
    requires j < |args|
    ensures EvalArguments(defs, stack, args)[j] == args[j].(ts := Eval(defs, stack, args[j].ts))
    ensures FullArguments(defs, args)[j] == args[j].(ts := Full(defs, args[j].ts))
    decreases |args|
  {
    hide Eval, Full;
    if j > 0 { ArgumentIs(defs, stack, args[1..], j - 1); }
  }

  // ----- Scanning keeps what C means -----

  /** Only the arguments themselves matter, not the blanks around them. */
  lemma {:induction false} FullFill(defs: seq<Def>, params: seq<string>, bs: seq<Body>, args: seq<Argument>)
    ensures Full(defs, Fill(params, bs, args)) == Fill(params, bs, FullArguments(defs, args))
    decreases bs, 0
  {
    hide Full, FullTerm, FillPart, FullArguments;
    if bs == [] {
      FullNothing(defs);
    } else {
      FullFillPart(defs, params, bs[0], args);
      FullFill(defs, params, bs[1..], args);
      FullJoin(defs, FillPart(params, bs[0], args), Fill(params, bs[1..], args));
    }
  }

  lemma {:induction false} FullNothing(defs: seq<Def>)
    ensures Full(defs, []) == []
  {
  }

  lemma {:induction false} FullFillPart(defs: seq<Def>, params: seq<string>, b: Body, args: seq<Argument>)
    ensures Full(defs, FillPart(params, b, args)) == FillPart(params, b, FullArguments(defs, args))
    decreases b, 1
  {
    hide Full, FullArguments, Fill;
    match b
    case Nest(cs) =>
      FullOne(defs, Paren(Fill(params, cs, args)));
      FullFill(defs, params, cs, args);
    case Leaf(x) =>
      if x.Parameter? && x.j < |args| {
        ArgumentIs(defs, [], args, x.j);
      } else {
        FullOne(defs, Piece(S.PartText(params, x)));
      }
  }

  /** Whatever the stack holds, scanning does not change what a text means. */
  lemma {:induction false} FullEval(defs: seq<Def>, stack: seq<nat>, ts: seq<Term>)
    ensures Full(defs, Eval(defs, stack, ts)) == Full(defs, ts)
    decreases Free(defs, stack), ts, 0
  {
    hide FullTerm, EvalTerm;
    if ts != [] {
      FullEvalTerm(defs, stack, ts[0]);
      FullEval(defs, stack, ts[1..]);
      FullJoin(defs, EvalTerm(defs, stack, ts[0]), Eval(defs, stack, ts[1..]));
    }
  }

  lemma {:induction false} FullEvalTerm(defs: seq<Def>, stack: seq<nat>, x: Term)
    ensures Full(defs, EvalTerm(defs, stack, x)) == FullTerm(defs, x)
    decreases Free(defs, stack), x, 1
  {
    hide Full, Eval, Fill, FullArguments, EvalArguments;
    match x
    case Piece(_) => FullOne(defs, x);
    case Paren(ts) =>
      FullOne(defs, Paren(Eval(defs, stack, ts)));
      FullEval(defs, stack, ts);
    case Invoke(fi, args) =>
      if fi < |defs| && fi !in stack {
        FreeLess(defs, stack, fi);
        var inner := stack + [fi];
        var vals := EvalArguments(defs, inner, args);
        var d := defs[fi];
        FullEval(defs, inner, Fill(d.params, d.body, vals));
        FullFill(defs, d.params, d.body, vals);
        FullEvalArguments(defs, inner, args);
      } else {
        FullOne(defs, Invoke(fi, EvalArguments(defs, stack, args)));
        FullEvalArguments(defs, stack, args);
      }
  }

  lemma {:induction false} FullEvalArguments(defs: seq<Def>, stack: seq<nat>, args: seq<Argument>)
    ensures FullArguments(defs, EvalArguments(defs, stack, args)) == FullArguments(defs, args)
    decreases Free(defs, stack), args, 0
  {
    hide Full, Eval;
    if args != [] {
      FullEval(defs, stack, args[0].ts);
      FullEvalArguments(defs, stack, args[1..]);
      var r := EvalArguments(defs, stack, args);
      assert r[1..] == EvalArguments(defs, stack, args[1..]);
    }
  }

  // ----- Well-formed texts -----

  /** Text of one line without literals, parentheses and banned names. */
  predicate Solid(t: string, banned: set<string>)
  {
    t != "" && Clean(t, banned) && forall i :: 0 <= i < |t| ==> t[i] != '(' && t[i] != ')' && t[i] != '\''
  }

  predicate Spaces(t: string) { forall i :: 0 <= i < |t| ==> IsSpace(t[i]) }

  /** t begins, or ends, with something. */
  predicate Head(t: string) { t != "" && !IsBlank(t[0]) }
  predicate Tail(t: string) { t != "" && !IsBlank(t[|t| - 1]) }

  /** t neither goes on with a name nor makes a call of it. */
  predicate Stops(t: string) { t == "" || (!IsIdChar(t[0]) && t[0] != '(') }

  /** t can follow x: names do not run into each other, and no call has two lists. */
  predicate Joins(x: Term, t: string)
  {
    match x
    case Piece(p) => Breaks(p, t)
    case Paren(_) => true
    case Invoke(_, _) => Stops(t)
  }

  predicate NoComma(ts: seq<Term>) { forall i :: 0 <= i < |ts| ==> ts[i].Piece? ==> ',' !in ts[i].t }

  predicate Good(defs: seq<Def>, banned: set<string>, ts: seq<Term>)
    decreases ts, 0
  {
    ts == [] || (GoodTerm(defs, banned, ts[0]) && Joins(ts[0], TextOf(defs, ts[1..])) && Good(defs, banned, ts[1..]))
  }

  predicate GoodTerm(defs: seq<Def>, banned: set<string>, x: Term)
    decreases x, 1
  {
    match x
    case Piece(t) => Solid(t, banned)
    case Paren(ts) => Good(defs, banned, ts)
    case Invoke(fi, args) => fi < |defs| && |args| == |defs[fi].params| && GoodArguments(defs, banned, args)
  }

  predicate GoodArguments(defs: seq<Def>, banned: set<string>, args: seq<Argument>)
    decreases args, 0
  {
    args == []
    || (var a := args[0];
      && Spaces(a.left) && Spaces(a.right) && Good(defs, banned, a.ts) && NoComma(a.ts)
      && Head(TextOf(defs, a.ts)) && Tail(TextOf(defs, a.ts)) && GoodArguments(defs, banned, args[1..]))
  }

  // ----- Well-formed macros -----

  predicate IsMark(b: Body) { b.Leaf? && b.x.Mark? }

  /** rest can follow b: a parameter is not followed by a parenthesis. */
  predicate Follows(b: Body, rest: seq<Body>)
  {
    rest != [] && b.Leaf? ==>
      (b.x.Parameter? ==> IsMark(rest[0])) && (b.x.Word? ==> rest[0].Nest? || IsMark(rest[0]))
  }

  predicate GoodBody(params: seq<string>, banned: set<string>, bs: seq<Body>)
    decreases bs, 0
  {
    bs == [] || (GoodPart(params, banned, bs[0]) && Follows(bs[0], bs[1..]) && GoodBody(params, banned, bs[1..]))
  }

  predicate GoodPart(params: seq<string>, banned: set<string>, b: Body)
    decreases b, 1
  {
    match b
    case Nest(cs) => GoodBody(params, banned, cs)
    case Leaf(Parameter(j)) => j < |params|
    case Leaf(Word(w)) => S.IsWord(w) && Solid(w, banned)
    case Leaf(Mark(c)) => Solid([c], banned) && !IsIdChar(c)
    case Leaf(Text(_)) => false
  }

  /** b is no blank, and no comma. */
  predicate Visible(b: Body) { IsMark(b) ==> !IsBlank(b.x.c) }
  predicate NoBodyComma(bs: seq<Body>) { forall i :: 0 <= i < |bs| ==> IsMark(bs[i]) ==> bs[i].x.c != ',' }

  predicate GoodDef(d: Def, banned: set<string>)
  {
    && I.IsName(d.name) && d.name in banned && d.name != "__LINE__"
    && 0 < |d.params| <= D.MAX_ARGS && S.PlainParts(d.params, Flat(d.body))
    && d.body != [] && GoodBody(d.params, banned, d.body) && NoBodyComma(d.body)
    && Visible(d.body[0]) && Visible(d.body[|d.body| - 1])
  }

  predicate GoodDefs(defs: seq<Def>, banned: set<string>)
  {
    && (forall j :: 0 <= j < |defs| ==> GoodDef(defs[j], banned))
    && forall i, j :: 0 <= i < j < |defs| ==> defs[i].name != defs[j].name
  }

  // ----- Replacing keeps texts well-formed -----

  /** A term has a text; only a call starts with a name that is not its own. */
  lemma {:induction false} TermShows(defs: seq<Def>, banned: set<string>, x: Term)
    requires GoodDefs(defs, banned) && GoodTerm(defs, banned, x)
    ensures var t := TermText(defs, x); t != "" && (x.Invoke? ==> IsLetter(t[0]) && Head(t) && Tail(t))
    ensures x.Paren? ==> var t := TermText(defs, x); t[0] == '(' && t[|t| - 1] == ')'
  {
    hide TextOf, ArgumentsText, Good, GoodArguments, S.PlainParts, GoodBody, Clean, NoBodyComma;
    if x.Invoke? {
      assert GoodDef(defs[x.fi], banned);
      var n, t := Name(defs, x.fi), TermText(defs, x);
      assert t[0] == n[0] && t[|t| - 1] == ')';
    }
  }

  lemma {:induction false} GoodJoin(defs: seq<Def>, banned: set<string>, a: seq<Term>, b: seq<Term>)
    requires GoodDefs(defs, banned) && Good(defs, banned, a) && Good(defs, banned, b)
    requires a != [] ==> Joins(a[|a| - 1], TextOf(defs, b))
    ensures Good(defs, banned, a + b) && (NoComma(a) && NoComma(b) ==> NoComma(a + b))
    ensures TextOf(defs, a + b) == TextOf(defs, a) + TextOf(defs, b)
    decreases |a|
  {
    hide GoodDefs, GoodTerm, TermText, Joins;
    TextJoin(defs, a, b);
    if a == [] {
      assert a + b == b;
    } else {
      assert (a + b)[1..] == a[1..] + b;
      TextJoin(defs, a[1..], b);
      GoodJoin(defs, banned, a[1..], b);
      if |a| > 1 {
        assert a[1..][|a| - 2] == a[|a| - 1] && a[1..][0] == a[1];
        TermShows(defs, banned, a[1]);
        JoinsMore(a[0], TextOf(defs, a[1..]), TextOf(defs, b));
      }
    }
  }

  lemma {:induction false} JoinsMore(x: Term, t: string, u: string)
    requires Joins(x, t) && t != ""
    ensures Joins(x, t + u)
  {
  }

  lemma {:induction false} GoodOne(defs: seq<Def>, banned: set<string>, x: Term)
    requires GoodTerm(defs, banned, x)
    ensures Good(defs, banned, [x]) && TextOf(defs, [x]) == TermText(defs, x)
  {
    hide GoodTerm, TermText;
    assert [x][1..] == [];
    TextOne(defs, x);
    assert TextOf(defs, []) == "" && Joins(x, "");
  }

  lemma {:induction false} GoodArgument(defs: seq<Def>, banned: set<string>, args: seq<Argument>, j: nat)
    requires GoodArguments(defs, banned, args) && j < |args|
    ensures var a := args[j];
      && Spaces(a.left) && Spaces(a.right) && Good(defs, banned, a.ts) && NoComma(a.ts) && a.ts != []
      && Head(TextOf(defs, a.ts)) && Tail(TextOf(defs, a.ts))
    decreases |args|
  {
    hide Good, NoComma, TermText;
    if j > 0 { GoodArgument(defs, banned, args[1..], j - 1); }
  }

  lemma {:induction false} PartGood(defs: seq<Def>, banned: set<string>, params: seq<string>, b: Body, args: seq<Argument>)
    requires GoodDefs(defs, banned) && GoodPart(params, banned, b) && GoodArguments(defs, banned, args) && |args| == |params|
    ensures var r := FillPart(params, b, args);
      && r != [] && Good(defs, banned, r)
      && ((IsMark(b) ==> b.x.c != ',') ==> NoComma(r))
      && (b.Leaf? && b.x.Parameter? ==> Head(TextOf(defs, r)) && Tail(TextOf(defs, r)))
      && (b.Leaf? && !b.x.Parameter? ==> TextOf(defs, r) == S.PartText(params, b.x) && r == [Piece(S.PartText(params, b.x))])
      && (b.Nest? ==> r[0].Paren? && |r| == 1 && TextOf(defs, r) != "" && TextOf(defs, r)[0] == '(' && Tail(TextOf(defs, r)))
    decreases b, 1
  {
    hide GoodDefs, Fill, GoodBody, Good, TextOf, GoodArguments, Clean;
    match b
    case Nest(cs) =>
      FillGood(defs, banned, params, cs, args);
      GoodOne(defs, banned, Paren(Fill(params, cs, args)));
      TermShows(defs, banned, Paren(Fill(params, cs, args)));
    case Leaf(Parameter(j)) => GoodArgument(defs, banned, args, j);
    case Leaf(x) => GoodOne(defs, banned, Piece(S.PartText(params, x)));
  }

  lemma {:induction false} StopsJoins(x: Term, t: string)
    requires Stops(t)
    ensures Joins(x, t)
  {
  }

  /** What follows a part in a replacement text can follow what stands for the part. */
  lemma {:induction false} PartJoins(defs: seq<Def>, banned: set<string>, params: seq<string>, bs: seq<Body>, args: seq<Argument>)
    requires bs != [] && GoodDefs(defs, banned) && GoodBody(params, banned, bs) && GoodArguments(defs, banned, args)
    requires |args| == |params|
    ensures var r := FillPart(params, bs[0], args); r != [] && Joins(r[|r| - 1], TextOf(defs, Fill(params, bs[1..], args)))
    decreases bs, 0
  {
    hide GoodDefs, Good, GoodArguments, Clean, TermText, FillPart, NoComma, Head, Tail;
    var r, rest := FillPart(params, bs[0], args), Fill(params, bs[1..], args);
    PartGood(defs, banned, params, bs[0], args);
    if |bs| > 1 {
      PartGood(defs, banned, params, bs[1], args);
      var next := FillPart(params, bs[1], args);
      assert rest == next + Fill(params, bs[1..][1..], args);
      TextJoin(defs, next, Fill(params, bs[1..][1..], args));
      if IsMark(bs[1]) { StopsJoins(r[|r| - 1], TextOf(defs, rest)); }
    } else {
      assert TextOf(defs, rest) == "";
      StopsJoins(r[|r| - 1], "");
    }
  }

  lemma {:induction false} FillGood(defs: seq<Def>, banned: set<string>, params: seq<string>, bs: seq<Body>, args: seq<Argument>)
    requires GoodDefs(defs, banned) && GoodBody(params, banned, bs) && GoodArguments(defs, banned, args) && |args| == |params|
    ensures var r := Fill(params, bs, args); Good(defs, banned, r) && (NoBodyComma(bs) ==> NoComma(r))
    decreases bs, 1
  {
    hide GoodDefs, Good, GoodArguments, FillPart, GoodPart, TextOf, Joins;
    if bs == [] {
      GoodNothing(defs, banned);
    } else {
      PartGood(defs, banned, params, bs[0], args);
      PartJoins(defs, banned, params, bs, args);
      FillGood(defs, banned, params, bs[1..], args);
      GoodJoin(defs, banned, FillPart(params, bs[0], args), Fill(params, bs[1..], args));
    }
  }

  lemma {:induction false} GoodNothing(defs: seq<Def>, banned: set<string>)
    ensures Good(defs, banned, []) && TextOf(defs, []) == ""
  {
  }

  /** A filled replacement text begins and ends with something. */
  lemma {:induction false} FillEnds(defs: seq<Def>, banned: set<string>, params: seq<string>, bs: seq<Body>, args: seq<Argument>)
    requires GoodDefs(defs, banned) && GoodBody(params, banned, bs) && GoodArguments(defs, banned, args) && |args| == |params|
    requires bs != []
    ensures var r := Fill(params, bs, args);
      r != [] && (Visible(bs[0]) ==> Head(TextOf(defs, r))) && (Visible(bs[|bs| - 1]) ==> Tail(TextOf(defs, r)))
    decreases |bs|
  {
    hide GoodDefs, Good, GoodArguments, FillPart, TextOf, NoComma, Clean;
    var r, rest := FillPart(params, bs[0], args), Fill(params, bs[1..], args);
    PartGood(defs, banned, params, bs[0], args);
    TextJoin(defs, r, rest);
    GoodNothing(defs, banned);
    if |bs| > 1 { FillEnds(defs, banned, params, bs[1..], args); }
  }

  // ----- Scanning keeps texts well-formed -----

  /** r can stand where ts stood: it is well-formed and has the same character at the
      beginning, unless that is the name of a call. */
  predicate Replaces(defs: seq<Def>, banned: set<string>, ts: seq<Term>, r: seq<Term>)
  {
    var t, u := TextOf(defs, ts), TextOf(defs, r);
    && Good(defs, banned, r) && (NoComma(ts) ==> NoComma(r)) && (ts != [] ==> r != []) && (ts == [] ==> u == "")
    && (Head(t) ==> Head(u)) && (Tail(t) ==> Tail(u))
    && (t != "" && !IsLetter(t[0]) ==> u != "" && u[0] == t[0])
  }

  lemma {:induction false} EvalGood(defs: seq<Def>, banned: set<string>, stack: seq<nat>, ts: seq<Term>)
    requires GoodDefs(defs, banned) && Good(defs, banned, ts)
    ensures Replaces(defs, banned, ts, Eval(defs, stack, ts))
    decreases Free(defs, stack), ts, 0
  {
    hide GoodDefs, Good, GoodTerm, EvalTerm, TermText, TextOf, Replaces, Joins, NoComma;
    if ts == [] {
      GoodNothing(defs, banned);
      NothingReplaces(defs, banned);
    } else {
      GoodParts(defs, banned, ts);
      EvalTermGood(defs, banned, stack, ts[0]);
      EvalGood(defs, banned, stack, ts[1..]);
      ReplacesJoin(defs, banned, ts[0], EvalTerm(defs, stack, ts[0]), ts[1..], Eval(defs, stack, ts[1..]));
      assert [ts[0]] + ts[1..] == ts;
    }
  }

  lemma {:induction false} NothingReplaces(defs: seq<Def>, banned: set<string>)
    ensures Replaces(defs, banned, [], [])
  {
  }

  lemma {:induction false} GoodParts(defs: seq<Def>, banned: set<string>, ts: seq<Term>)
    requires Good(defs, banned, ts) && ts != []
    ensures GoodTerm(defs, banned, ts[0]) && Joins(ts[0], TextOf(defs, ts[1..])) && Good(defs, banned, ts[1..])
  {
  }

  /** What a term becomes. */
  predicate ReplacesTerm(defs: seq<Def>, banned: set<string>, x: Term, r: seq<Term>)
  {
    var u := TextOf(defs, r);
    && r != [] && Good(defs, banned, r) && ((x.Piece? ==> ',' !in x.t) ==> NoComma(r))
    && (x.Piece? ==> r == [x] && u == x.t)
    && (x.Paren? ==> |r| == 1 && r[0].Paren? && u != "" && u[0] == '(' && Tail(u))
    && (x.Invoke? ==> Head(u) && Tail(u))
  }

  lemma {:induction false} ReplacesJoin(defs: seq<Def>, banned: set<string>, x: Term, a: seq<Term>, rest: seq<Term>, b: seq<Term>)
    requires GoodDefs(defs, banned) && GoodTerm(defs, banned, x) && Joins(x, TextOf(defs, rest)) && Good(defs, banned, rest)
    requires ReplacesTerm(defs, banned, x, a) && Replaces(defs, banned, rest, b)
    ensures Replaces(defs, banned, [x] + rest, a + b)
  {
    hide GoodDefs, Good, GoodTerm, Clean, TermText, TextOf;
    TermShows(defs, banned, x);
    RestShows(defs, banned, rest);
    var t, u := TextOf(defs, rest), TextOf(defs, b);
    GoodJoin(defs, banned, a, b);
    TextOne(defs, x);
    TextJoin(defs, [x], rest);
    if NoComma([x] + rest) { NoCommaParts(x, rest); }
    if x.Piece? { assert GoodTerm(defs, banned, x); }
  }

  lemma {:induction false} NoCommaParts(x: Term, rest: seq<Term>)
    requires NoComma([x] + rest)
    ensures (x.Piece? ==> ',' !in x.t) && NoComma(rest)
  {
    var ts := [x] + rest;
    assert ts[0] == x;
    forall i | 0 <= i < |rest| ensures rest[i].Piece? ==> ',' !in rest[i].t { assert ts[i + 1] == rest[i]; }
  }

  lemma {:induction false} RestShows(defs: seq<Def>, banned: set<string>, ts: seq<Term>)
    requires GoodDefs(defs, banned) && Good(defs, banned, ts)
    ensures ts != [] ==> TextOf(defs, ts) != ""
  {
    hide GoodDefs, GoodTerm, TermText, Joins;
    if ts != [] { TermShows(defs, banned, ts[0]); }
  }

  lemma {:induction false} EvalTermGood(defs: seq<Def>, banned: set<string>, stack: seq<nat>, x: Term)
    requires GoodDefs(defs, banned) && GoodTerm(defs, banned, x)
    ensures ReplacesTerm(defs, banned, x, EvalTerm(defs, stack, x))
    decreases Free(defs, stack), x, 1
  {
    hide GoodDefs, Good, GoodTerm, GoodArguments, TextOf, TermText, Eval, EvalArguments, Fill, Clean, Head, Tail;
    match x
    case Piece(_) => PieceBack(defs, banned, x);
    case Paren(ts) =>
      ParenGood(defs, banned, ts);
      EvalGood(defs, banned, stack, ts);
      ParenBack(defs, banned, Eval(defs, stack, ts));
    case Invoke(fi, args) =>
      InvokeParts(defs, banned, fi, args);
      if fi in stack {
        EvalArgumentsGood(defs, banned, stack, args);
        InvokeBack(defs, banned, fi, EvalArguments(defs, stack, args));
      } else {
        FreeLess(defs, stack, fi);
        var inner, d := stack + [fi], defs[fi];
        EvalArgumentsGood(defs, banned, inner, args);
        var temp := Fill(d.params, d.body, EvalArguments(defs, inner, args));
        FillGood(defs, banned, d.params, d.body, EvalArguments(defs, inner, args));
        FillEnds(defs, banned, d.params, d.body, EvalArguments(defs, inner, args));
        EvalGood(defs, banned, inner, temp);
      }
  }

  lemma {:induction false} ParenGood(defs: seq<Def>, banned: set<string>, ts: seq<Term>)
    requires GoodTerm(defs, banned, Paren(ts))
    ensures Good(defs, banned, ts)
  {
  }

  lemma {:induction false} PieceBack(defs: seq<Def>, banned: set<string>, x: Term)
    requires x.Piece? && GoodTerm(defs, banned, x)
    ensures ReplacesTerm(defs, banned, x, [x])
  {
    hide Good, GoodTerm, TextOf;
    GoodOne(defs, banned, x);
  }

  lemma {:induction false} ParenBack(defs: seq<Def>, banned: set<string>, ts: seq<Term>)
    requires GoodDefs(defs, banned) && Good(defs, banned, ts)
    ensures ReplacesTerm(defs, banned, Paren([]), [Paren(ts)])
  {
    hide GoodDefs, Good, TextOf;
    GoodOne(defs, banned, Paren(ts));
    TermShows(defs, banned, Paren(ts));
  }

  lemma {:induction false} InvokeParts(defs: seq<Def>, banned: set<string>, fi: nat, args: seq<Argument>)
    requires GoodDefs(defs, banned) && GoodTerm(defs, banned, Invoke(fi, args))
    ensures fi < |defs| && GoodDef(defs[fi], banned) && |args| == |defs[fi].params| && GoodArguments(defs, banned, args)
  {
    hide GoodDef;
  }

  lemma {:induction false} InvokeBack(defs: seq<Def>, banned: set<string>, fi: nat, args: seq<Argument>)
    requires GoodDefs(defs, banned) && fi < |defs| && |args| == |defs[fi].params| && GoodArguments(defs, banned, args)
    ensures ReplacesTerm(defs, banned, Invoke(fi, []), [Invoke(fi, args)])
  {
    hide GoodDefs, GoodArguments, TextOf;
    GoodOne(defs, banned, Invoke(fi, args));
    TermShows(defs, banned, Invoke(fi, args));
  }

  lemma {:induction false} EvalArgumentsGood(defs: seq<Def>, banned: set<string>, stack: seq<nat>, args: seq<Argument>)
    requires GoodDefs(defs, banned) && GoodArguments(defs, banned, args)
    ensures GoodArguments(defs, banned, EvalArguments(defs, stack, args))
    decreases Free(defs, stack), args, 0
  {
    hide GoodDefs, Good, Eval, TextOf, Head, Tail, NoComma;
    if args != [] {
      EvalGood(defs, banned, stack, args[0].ts);
      EvalArgumentsGood(defs, banned, stack, args[1..]);
      var r := EvalArguments(defs, stack, args);
      assert r[1..] == EvalArguments(defs, stack, args[1..]);
    }
  }

  // ----- How deep calls are nested -----

  function Max(a: nat, b: nat): nat { if a < b then b else a }

  function Height(ts: seq<Term>): nat
    decreases ts, 0
  {
    if ts == [] then 0 else Max(TermHeight(ts[0]), Height(ts[1..]))
  }

  function TermHeight(x: Term): nat
    decreases x, 1
  {
    match x
    case Piece(_) => 0
    case Paren(ts) => Height(ts)
    case Invoke(_, args) => 1 + ArgumentsHeight(args)
  }

  function ArgumentsHeight(args: seq<Argument>): nat
    decreases args, 0
  {
    if args == [] then 0 else Max(Height(args[0].ts), ArgumentsHeight(args[1..]))
  }

  lemma {:induction false} HeightJoin(a: seq<Term>, b: seq<Term>)
    ensures Height(a + b) == Max(Height(a), Height(b))
    decreases |a|
  {
    hide TermHeight;
    if a == [] {
      assert a + b == b;
    } else {
      assert (a + b)[1..] == a[1..] + b;
      HeightJoin(a[1..], b);
    }
  }

  lemma {:induction false} HeightOne(x: Term)
    ensures Height([x]) == TermHeight(x)
  {
    hide TermHeight;
    assert [x][1..] == [];
    assert Height([x]) == Max(TermHeight(x), Height([]));
  }

  lemma {:induction false} ArgumentHeight(args: seq<Argument>, j: nat)
    requires j < |args|
    ensures Height(args[j].ts) <= ArgumentsHeight(args)
    decreases |args|
  {
    hide Height;
    if j > 0 { ArgumentHeight(args[1..], j - 1); }
  }

  lemma {:induction false} FillHeight(params: seq<string>, bs: seq<Body>, args: seq<Argument>)
    ensures Height(Fill(params, bs, args)) <= ArgumentsHeight(args)
    decreases bs, 0
  {
    hide Height, ArgumentsHeight, FillPart;
    if bs == [] {
      assert Height([]) == 0 by { HeightNothing(); }
    } else {
      PartHeight(params, bs[0], args);
      FillHeight(params, bs[1..], args);
      HeightJoin(FillPart(params, bs[0], args), Fill(params, bs[1..], args));
    }
  }

  lemma {:induction false} HeightNothing()
    ensures Height([]) == 0
  {
  }

  lemma {:induction false} PartHeight(params: seq<string>, b: Body, args: seq<Argument>)
    ensures Height(FillPart(params, b, args)) <= ArgumentsHeight(args)
    decreases b, 1
  {
    hide Height, ArgumentsHeight, Fill;
    match b
    case Nest(cs) =>
      FillHeight(params, cs, args);
      HeightOne(Paren(Fill(params, cs, args)));
    case Leaf(x) =>
      if x.Parameter? && x.j < |args| { ArgumentHeight(args, x.j); } else { HeightOne(Piece(S.PartText(params, x))); }
  }

  /** Scanning does not nest calls deeper, and at the top takes one level away. */
  lemma {:induction false} EvalHeight(defs: seq<Def>, stack: seq<nat>, ts: seq<Term>)
    ensures Height(Eval(defs, stack, ts)) <= Height(ts)
    decreases Free(defs, stack), ts, 0
  {
    hide TermHeight, EvalTerm;
    if ts != [] {
      EvalTermHeight(defs, stack, ts[0]);
      EvalHeight(defs, stack, ts[1..]);
      HeightJoin(EvalTerm(defs, stack, ts[0]), Eval(defs, stack, ts[1..]));
    }
  }

  lemma {:induction false} EvalTermHeight(defs: seq<Def>, stack: seq<nat>, x: Term)
    ensures Height(EvalTerm(defs, stack, x)) <= TermHeight(x)
    decreases Free(defs, stack), x, 1
  {
    hide Height, ArgumentsHeight, Eval, EvalArguments, Fill;
    match x
    case Piece(_) => HeightOne(x);
    case Paren(ts) =>
      EvalHeight(defs, stack, ts);
      HeightOne(Paren(Eval(defs, stack, ts)));
    case Invoke(fi, args) =>
      if fi < |defs| && fi !in stack {
        FreeLess(defs, stack, fi);
        var inner, d := stack + [fi], defs[fi];
        EvalArgumentsHeight(defs, inner, args);
        FillHeight(d.params, d.body, EvalArguments(defs, inner, args));
        EvalHeight(defs, inner, Fill(d.params, d.body, EvalArguments(defs, inner, args)));
      } else {
        EvalArgumentsHeight(defs, stack, args);
        HeightOne(Invoke(fi, EvalArguments(defs, stack, args)));
      }
  }

  lemma {:induction false} EvalArgumentsHeight(defs: seq<Def>, stack: seq<nat>, args: seq<Argument>)
    ensures ArgumentsHeight(EvalArguments(defs, stack, args)) <= ArgumentsHeight(args)
    decreases Free(defs, stack), args, 0
  {
    hide Height, Eval;
    if args != [] {
      EvalHeight(defs, stack, args[0].ts);
      EvalArgumentsHeight(defs, stack, args[1..]);
      var r := EvalArguments(defs, stack, args);
      assert r[1..] == EvalArguments(defs, stack, args[1..]);
    }
  }

  /** A scan with an empty stack takes one level away. */
  lemma {:induction false} TopHeight(defs: seq<Def>, banned: set<string>, ts: seq<Term>)
    requires GoodDefs(defs, banned) && Good(defs, banned, ts)
    ensures Height(Eval(defs, [], ts)) <= if Height(ts) == 0 then 0 else Height(ts) - 1
    decreases ts, 0
  {
    hide GoodDefs, TermHeight, EvalTerm, GoodTerm, Joins;
    if ts != [] {
      TopTermHeight(defs, banned, ts[0]);
      TopHeight(defs, banned, ts[1..]);
      HeightJoin(EvalTerm(defs, [], ts[0]), Eval(defs, [], ts[1..]));
    }
  }

  lemma {:induction false} TopTermHeight(defs: seq<Def>, banned: set<string>, x: Term)
    requires GoodDefs(defs, banned) && GoodTerm(defs, banned, x)
    ensures Height(EvalTerm(defs, [], x)) <= if TermHeight(x) == 0 then 0 else TermHeight(x) - 1
    decreases x, 1
  {
    hide Height, ArgumentsHeight, Eval, EvalArguments, Fill, GoodDefs, Good, GoodArguments;
    match x
    case Piece(_) => HeightOne(x);
    case Paren(ts) =>
      TopHeight(defs, banned, ts);
      HeightOne(Paren(Eval(defs, [], ts)));
    case Invoke(fi, args) =>
      var inner, d := [] + [fi], defs[fi];
      EvalArgumentsHeight(defs, inner, args);
      FillHeight(d.params, d.body, EvalArguments(defs, inner, args));
      EvalHeight(defs, inner, Fill(d.params, d.body, EvalArguments(defs, inner, args)));
  }

  lemma {:induction false} FlatFull(defs: seq<Def>, ts: seq<Term>)
    requires Height(ts) == 0
    ensures Full(defs, ts) == ts
    decreases ts
  {
    if ts != [] {
      FlatFull(defs, ts[1..]);
      if ts[0].Paren? { FlatFull(defs, ts[0].ts); }
      assert FullTerm(defs, ts[0]) == [ts[0]];
    }
  }

  /** When all calls are replaced, none is left. */
  lemma {:induction false} FullSettled(defs: seq<Def>, banned: set<string>, ts: seq<Term>)
    requires GoodDefs(defs, banned) && Good(defs, banned, ts)
    ensures Good(defs, banned, Full(defs, ts)) && Height(Full(defs, ts)) == 0
    decreases Height(ts)
  {
    hide GoodDefs, Good, Eval, Full, Height, TextOf;
    if Height(ts) == 0 {
      FlatFull(defs, ts);
    } else {
      TopHeight(defs, banned, ts);
      EvalGood(defs, banned, [], ts);
      FullEval(defs, [], ts);
      FullSettled(defs, banned, Eval(defs, [], ts));
    }
  }

  // ----- Left-over calls show in the text -----

  lemma {:induction false} CleanJoin(a: string, b: string, banned: set<string>)
    requires Breaks(a, b)
    ensures Clean(a + b, banned) <==> Clean(a, banned) && Clean(b, banned)
    decreases |a|
  {
    if a == "" {
      assert a + b == b;
    } else {
      var e := FirstPiece(a);
      BreaksOn(a, b);
      PieceJoin(a, b);
      assert (a + b)[e..] == a[e..] + b && (a + b)[..e] == a[..e];
      CleanJoin(a[e..], b, banned);
    }
  }

  lemma {:induction false} PieceJoin(a: string, b: string)
    requires a != "" && (IsLetter(a[0]) && FirstPiece(a) == |a| && b != "" ==> !IsIdChar(b[0]))
    ensures FirstPiece(a + b) == FirstPiece(a)
  {
    hide IdEnd;
    if IsLetter(a[0]) {
      var e := FirstPiece(a);
      NameChars(a, 0);
      assert (a + b)[0..] == a[..e] + (a[e..] + b);
      if a[e..] + b != "" { assert (a[e..] + b)[0] == if e < |a| then a[e] else b[0]; }
      I.NameEnds(a + b, 0, a[..e], a[e..] + b);
    }
  }

  lemma {:induction false} NameNotClean(n: string, t: string, banned: set<string>)
    requires I.IsName(n) && n in banned && t != "" && !IsIdChar(t[0])
    ensures !Clean(n + t, banned)
  {
    hide IdEnd;
    assert (n + t)[0..] == n + t;
    I.NameEnds(n + t, 0, n, t);
    assert (n + t)[..|n|] == n;
  }

  /** A well-formed text is clean if and only if it has no call. */
  lemma {:induction false} CleanExactly(defs: seq<Def>, banned: set<string>, ts: seq<Term>)
    requires GoodDefs(defs, banned) && Good(defs, banned, ts)
    ensures Clean(TextOf(defs, ts), banned) <==> Height(ts) == 0
    decreases ts, 0
  {
    hide GoodDefs, GoodTerm, Clean, TermText, TermHeight;
    if ts == [] {
      assert Clean("", banned) by { NothingClean(banned); }
    } else {
      var t := TermText(defs, ts[0]);
      TermShows(defs, banned, ts[0]);
      CleanTerm(defs, banned, ts[0]);
      assert Breaks(t, TextOf(defs, ts[1..])) by { TermBreaks(defs, banned, ts[0], TextOf(defs, ts[1..])); }
      CleanJoin(t, TextOf(defs, ts[1..]), banned);
      CleanExactly(defs, banned, ts[1..]);
    }
  }

  lemma {:induction false} NothingClean(banned: set<string>)
    ensures Clean("", banned)
  {
  }

  lemma {:induction false} TermBreaks(defs: seq<Def>, banned: set<string>, x: Term, t: string)
    requires GoodDefs(defs, banned) && GoodTerm(defs, banned, x) && Joins(x, t)
    ensures Breaks(TermText(defs, x), t)
  {
    hide GoodDefs, GoodTerm, TextOf, ArgumentsText;
    TermShows(defs, banned, x);
    if x.Invoke? {
      var u := TermText(defs, x);
      assert u[|u| - 1] == ')';
    }
  }

  lemma {:induction false} CleanTerm(defs: seq<Def>, banned: set<string>, x: Term)
    requires GoodDefs(defs, banned) && GoodTerm(defs, banned, x)
    ensures Clean(TermText(defs, x), banned) <==> TermHeight(x) == 0
    decreases x, 1
  {
    hide GoodDefs, Good, TextOf, Clean, Height, ArgumentsText, ArgumentsHeight, GoodArguments;
    match x
    case Piece(_) =>
    case Paren(ts) =>
      CleanExactly(defs, banned, ts);
      CleanJoin("(", TextOf(defs, ts) + ")", banned);
      CleanJoin(TextOf(defs, ts), ")", banned);
      OneClean('(', banned);
      OneClean(')', banned);
    case Invoke(fi, args) =>
      InvokeParts(defs, banned, fi, args);
      NameNotClean(defs[fi].name, "(" + (ArgumentsText(defs, args) + ")"), banned);
  }

  lemma {:induction false} OneClean(c: char, banned: set<string>)
    requires !IsLetter(c) && c != '#' && c != '"' && c != '\n' && c != '\r'
    ensures Clean([c], banned)
  {
    assert [c][1..] == "";
    NothingClean(banned);
  }

  /** The text behind a scan is what C means if and only if no call is left in it. */
  lemma {:induction false} MeansExactly(defs: seq<Def>, banned: set<string>, stack: seq<nat>, ts: seq<Term>)
    requires GoodDefs(defs, banned) && Good(defs, banned, ts)
    ensures TextOf(defs, Eval(defs, stack, ts)) == TextOf(defs, Full(defs, ts)) <==> Height(Eval(defs, stack, ts)) == 0
  {
    hide GoodDefs, Good, Eval, Full, Height, TextOf, Clean;
    var r := Eval(defs, stack, ts);
    EvalGood(defs, banned, stack, ts);
    FullEval(defs, stack, ts);
    FullSettled(defs, banned, ts);
    CleanExactly(defs, banned, r);
    CleanExactly(defs, banned, Full(defs, ts));
    if Height(r) == 0 { FlatFull(defs, r); }
  }
}
