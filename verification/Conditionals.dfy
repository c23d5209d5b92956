/** Conditional compilation: the preprocessor keeps a stack of flags and a counter;
    what it emits is what the nesting of the conditionals says. */
module Conditionals {
  import opened IfExpression

  /** The flags of the open conditionals (is this branch the chosen one?) and how many
      of them are false. */
  datatype Cond = Cond(emit: seq<bool>, skip: nat)

  function Zeros(emit: seq<bool>): (n: nat)
    ensures n <= |emit|
  {
    if emit == [] then 0 else Zeros(emit[..|emit| - 1]) + if emit[|emit| - 1] then 0 else 1
  }

  predicate Counted(c: Cond) { c.skip == Zeros(c.emit) }

  /** Every enclosing branch is the chosen one. */
  predicate Emitting(c: Cond) { forall i :: 0 <= i < |c.emit| ==> c.emit[i] }

  lemma {:induction false} ZerosNone(emit: seq<bool>)
    ensures Zeros(emit) == 0 <==> forall i :: 0 <= i < |emit| ==> emit[i]
    decreases |emit|
  {
    if emit != [] { ZerosNone(emit[..|emit| - 1]); }
  }

  /** The counter tells exactly whether text is emitted. */
  lemma {:induction false} SkipMeans(c: Cond)
    requires Counted(c)
    ensures c.skip == 0 <==> Emitting(c)
  {
    ZerosNone(c.emit);
  }

  function OnIf(c: Cond, chosen: bool): Cond { Cond(c.emit + [chosen], c.skip + if chosen then 0 else 1) }

  function OnElse(c: Cond): Cond
  {
    if c.emit == [] then c
    else
      var k := |c.emit| - 1;
      if c.emit[k] then Cond(c.emit[k := false], c.skip + 1)
      else Cond(c.emit[k := true], if c.skip > 0 then c.skip - 1 else 0)
  }

  function OnEndif(c: Cond): Cond
  {
    if c.emit == [] then c
    else
      var k := |c.emit| - 1;
      Cond(c.emit[..k], if !c.emit[k] && c.skip > 0 then c.skip - 1 else c.skip)
  }

  /** Every directive keeps the counter right. */
  lemma {:induction false} StepsCounted(c: Cond, chosen: bool)
    requires Counted(c)
    ensures Counted(OnIf(c, chosen)) && Counted(OnElse(c)) && Counted(OnEndif(c))
  {
    var a := OnIf(c, chosen).emit;
    assert a[..|a| - 1] == c.emit;
    if c.emit != [] {
      var k := |c.emit| - 1;
      var e := OnElse(c).emit;
      assert e[..k] == c.emit[..k];
    }
  }

  // ----- Object macros -----

  const MAX_LEVEL: nat := 64

  /** The levels left; from level 64 on it stays at 1. */
  function Levels(depth: nat): (m: nat)
    ensures m >= 1
  {
    if depth < MAX_LEVEL then MAX_LEVEL - depth + 1 else 1
  }

  /** The length of the first name, or one character. */
  function FirstPiece(t: string): (e: nat)
    requires t != ""
    ensures 1 <= e <= |t|
  {
    if IsLetter(t[0]) then IdEnd(t, 0) else 1
  }

  /** The text with every object macro replaced by its value, which is expanded in turn one
      level deeper; at level 64 values are left as they are. */
  function Expand(ms: seq<Macro>, t: string, depth: nat): string
    decreases Levels(depth), |t|
  {
    if t == "" then ""
    else
      var e := FirstPiece(t);
      var r := if IsLetter(t[0]) then Lookup(ms, t[..e]) else Missing;
      (match r
       case Missing => t[..e]
       case Has(text) => if depth >= MAX_LEVEL then text else Expand(ms, text, depth + 1))
      + Expand(ms, t[e..], depth)
  }

  /** Macros are nested at most n deep in the text. */
  predicate Nested(ms: seq<Macro>, t: string, n: nat)
    decreases n, |t|
  {
    if t == "" then true
    else
      var e := FirstPiece(t);
      var r := if IsLetter(t[0]) then Lookup(ms, t[..e]) else Missing;
      (r.Has? ==> n > 0 && Nested(ms, r.text, n - 1)) && Nested(ms, t[e..], n)
  }

  /** The text with all macros replaced to the end. */
  function Replaced(ms: seq<Macro>, t: string, n: nat): string
    requires Nested(ms, t, n)
    decreases n, |t|
  {
    if t == "" then ""
    else
      var e := FirstPiece(t);
      var r := if IsLetter(t[0]) then Lookup(ms, t[..e]) else Missing;
      (if r.Has? then Replaced(ms, r.text, n - 1) else t[..e]) + Replaced(ms, t[e..], n)
  }

  /** As long as they are not nested too deep, all macros are replaced. */
  lemma {:induction false} ExpandsAll(ms: seq<Macro>, t: string, n: nat, depth: nat)
    requires Nested(ms, t, n) && depth + n <= MAX_LEVEL
    ensures Expand(ms, t, depth) == Replaced(ms, t, n)
    decreases n, |t|
  {
    hide FirstPiece, Lookup;
    if t != "" {
      var e := FirstPiece(t);
      var r := if IsLetter(t[0]) then Lookup(ms, t[..e]) else Missing;
      if r.Has? { ExpandsAll(ms, r.text, n - 1, depth + 1); }
      ExpandsAll(ms, t[e..], n, depth);
    }
  }

  // ----- Lines -----

  datatype Test = IfDef(name: string) | IfNDef(name: string) | If(text: string)

  datatype Line = Text(text: string) | Define(name: string, value: string) | Undef(name: string)
    | IfLine(test: Test) | ElseLine | EndifLine

  /** What has been emitted, which macros are defined, and how deep the text is nested in
      macros and included files. */
  datatype Content = Content(macros: seq<Macro>, out: seq<string>, depth: nat)

  /** The preprocessor between two lines. */
  datatype State = State(content: Content, cond: Cond)

  /** Whether the test of a conditional holds; the expression of #if is not looked at
      while text is skipped. */
  predicate Chosen(ms: seq<Macro>, t: Test, skipping: bool, nest: nat)
  {
    match t
    case IfDef(n) => n != "" && Lookup(ms, n).Has?
    case IfNDef(n) => n == "" || Lookup(ms, n).Missing?
    case If(e) => !skipping && Holds(ms, e, nest)
  }

  /** Removes the first macro of that name; the last one takes its place. */
  function Undefined(ms: seq<Macro>, name: string, i: nat): seq<Macro>
    decreases |ms| - i
  {
    if i >= |ms| then ms
    else if ms[i].name == name then ms[i := ms[|ms| - 1]][..|ms| - 1]
    else Undefined(ms, name, i + 1)
  }

  /** A line of text, a definition or its removal. */
  function Act(c: Content, l: Line): Content
  {
    match l
    case Text(t) => c.(out := c.out + [Expand(c.macros, t, c.depth)])
    case Define(n, v) => c.(macros := c.macros + [Macro(n, v)])
    case Undef(n) => c.(macros := Undefined(c.macros, n, 0))
    case _ => c
  }

  function Step(st: State, l: Line, nest: nat): State
  {
    match l
    case IfLine(t) => st.(cond := OnIf(st.cond, Chosen(st.content.macros, t, st.cond.skip > 0, nest)))
    case ElseLine => st.(cond := OnElse(st.cond))
    case EndifLine => st.(cond := OnEndif(st.cond))
    case _ => if st.cond.skip > 0 then st else st.(content := Act(st.content, l))
  }

  function Run(st: State, ls: seq<Line>, nest: nat): State
    decreases |ls|
  {
    if ls == [] then st else Run(Step(st, ls[0], nest), ls[1..], nest)
  }

  lemma {:induction false} RunParts(st: State, a: seq<Line>, b: seq<Line>, nest: nat)
    ensures Run(st, a + b, nest) == Run(Run(st, a, nest), b, nest)
    decreases |a|
  {
    hide Step;
    if a == [] {
      assert a + b == b;
    } else {
      assert (a + b)[0] == a[0] && (a + b)[1..] == a[1..] + b;
      RunParts(Step(st, a[0], nest), a[1..], b, nest);
    }
  }

  lemma {:induction false} RunOne(st: State, l: Line, nest: nat)
    ensures Run(st, [l], nest) == Step(st, l, nest)
  {
    hide Step;
    assert [l][1..] == [];
  }

  /** In any run the counter is the number of false flags. */
  lemma {:induction false} RunCounted(st: State, ls: seq<Line>, nest: nat)
    requires Counted(st.cond)
    ensures Counted(Run(st, ls, nest).cond)
    decreases |ls|
  {
    hide Chosen;
    if ls != [] {
      var l := ls[0];
      StepsCounted(st.cond, l.IfLine? && Chosen(st.content.macros, l.test, st.cond.skip > 0, nest));
      RunCounted(Step(st, l, nest), ls[1..], nest);
    }
  }

  // ----- Blocks -----

  /** Text with conditionals as they are nested. */
  datatype Block = Plain(line: Line) | Conditional(test: Test, yes: seq<Block>, hasElse: bool, no: seq<Block>)

  predicate PlainLines(bs: seq<Block>)
  {
    forall b :: b in bs ==> PlainBlock(b)
  }

  predicate PlainBlock(b: Block)
  {
    match b
    case Plain(l) => !l.IfLine? && !l.ElseLine? && !l.EndifLine?
    case Conditional(_, yes, _, no) => PlainLines(yes) && PlainLines(no)
  }

  /** How the blocks are written. */
  function LinesOf(bs: seq<Block>): seq<Line>
  {
    if bs == [] then [] else BlockLines(bs[0]) + LinesOf(bs[1..])
  }

  function BlockLines(b: Block): seq<Line>
  {
    match b
    case Plain(l) => [l]
    case Conditional(t, yes, hasElse, no) =>
      [IfLine(t)] + LinesOf(yes) + (if hasElse then [ElseLine] + LinesOf(no) else []) + [EndifLine]
  }

  /** What the blocks mean: the chosen branch of each conditional, with the macros that
      are defined when its test is reached. */
  function Meaning(c: Content, bs: seq<Block>, nest: nat): Content
    decreases bs
  {
    if bs == [] then c else Meaning(BlockMeaning(c, bs[0], nest), bs[1..], nest)
  }

  function BlockMeaning(c: Content, b: Block, nest: nat): Content
    decreases b
  {
    match b
    case Plain(l) => Act(c, l)
    case Conditional(t, yes, hasElse, no) =>
      if Chosen(c.macros, t, false, nest) then Meaning(c, yes, nest) else if hasElse then Meaning(c, no, nest) else c
  }

  /** The lines of nested blocks, run one after the other, do what the nesting says:
      in emitted text the chosen branches and nothing else, in skipped text nothing;
      the flags and the counter are afterwards what they were before. */
  lemma {:induction false} FollowsBlocks(st: State, bs: seq<Block>, nest: nat)
    requires PlainLines(bs) && Counted(st.cond)
    ensures Run(st, LinesOf(bs), nest) == if st.cond.skip > 0 then st else st.(content := Meaning(st.content, bs, nest))
    decreases bs
  {
    hide Chosen, Undefined, Step, Run, BlockLines, BlockMeaning, Zeros;
    if bs == [] {
      RunNone(st, nest);
    } else {
      var rest := bs[1..];
      assert bs[0] in bs && forall b :: b in rest ==> b in bs;
      RunParts(st, BlockLines(bs[0]), LinesOf(rest), nest);
      FollowsBlock(st, bs[0], nest);
      FollowsBlocks(Run(st, BlockLines(bs[0]), nest), rest, nest);
    }
  }

  lemma {:induction false} RunNone(st: State, nest: nat)
    ensures Run(st, [], nest) == st
  {
  }

  lemma {:induction false} FollowsBlock(st: State, b: Block, nest: nat)
    requires PlainBlock(b) && Counted(st.cond)
    ensures Run(st, BlockLines(b), nest) == if st.cond.skip > 0 then st else st.(content := BlockMeaning(st.content, b, nest))
    decreases b
  {
    hide Chosen, Undefined, LinesOf, Run, Zeros, Meaning, PlainLines, Act;
    match b
    case Plain(l) => RunOne(st, l, nest);
    case Conditional(t, yes, hasElse, no) =>
      var chosen := Chosen(st.content.macros, t, st.cond.skip > 0, nest);
      var middle := if hasElse then [ElseLine] + LinesOf(no) else [];
      var a := st.(cond := OnIf(st.cond, chosen));
      RunParts(st, [IfLine(t)] + LinesOf(yes) + middle, [EndifLine], nest);
      RunParts(st, [IfLine(t)] + LinesOf(yes), middle, nest);
      RunParts(st, [IfLine(t)], LinesOf(yes), nest);
      RunOne(st, IfLine(t), nest);
      StepsCounted(st.cond, chosen);
      FollowsBlocks(a, yes, nest);
      var y := Run(a, LinesOf(yes), nest);
      if hasElse {
        RunParts(y, [ElseLine], LinesOf(no), nest);
        RunOne(y, ElseLine, nest);
        StepsCounted(a.cond, true);
        FollowsBlocks(y.(cond := OnElse(y.cond)), no, nest);
      } else {
        RunNone(y, nest);
      }
      var n := Run(y, middle, nest);
      RunOne(n, EndifLine, nest);
      ClosesWell(st.cond, chosen);
  }

  /** Opening, perhaps turning, and closing a conditional restores flags and counter. */
  lemma {:induction false} ClosesWell(c: Cond, chosen: bool)
    ensures OnEndif(OnIf(c, chosen)) == c && OnEndif(OnElse(OnIf(c, chosen))) == c
    ensures OnElse(OnIf(c, chosen)).skip == c.skip + if chosen then 1 else 0
  {
    var a := OnIf(c, chosen);
    assert a.emit[..|a.emit| - 1] == c.emit;
    assert OnElse(a).emit[..|a.emit| - 1] == c.emit;
  }
}
