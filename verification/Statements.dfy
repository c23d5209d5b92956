/** Pieces of the statement proof: what a statement's code must achieve, the
    dispatch code of a switch, and the frame of a function. */
module Statements {
  import opened Words
  import opened X86
  import opened CSource
  import opened CodeGen
  import opened Blocks
  import opened Frames
  import opened Snippets
  import opened Arguments

  /** Where break and continue lead, and the label numbers of goto names. */
  datatype Ctx = Ctx(brk: int, cont: int, gotos: map<string, int>)

  /** The offset of label id. */
  function LabelPos(v: Env, id: int): int { if id in v.L then v.L[id] else -1 }

  ghost predicate Continues(v: Env, m: M, n: nat, m': M, at: int, st: Store)
  {
    Reach(v, m, n, m') && m'.pc == at && Good(m', st) && Kept(m, m', |st|)
  }

  /** The frame is popped and control is back at the return address. */
  ghost predicate Left(v: Env, m: M, n: nat, m': M)
  {
    && Reach(v, m, n, m') && m'.pc == Rd64(m.mem, m.rbp + 8) && m'.rbp == Rd64(m.mem, m.rbp) && m'.rsp == m.rbp + 16
    && SameFrom(m, m', m.rbp)
  }

  /** What the code of a statement does, by the outcome of the statement. */
  ghost predicate StmtDone(v: Env, c: Ctx, m: M, n: nat, m': M, end: int, fuel: nat, o: Out)
  {
    match o
    case Normal(st) => Continues(v, m, n, m', end, st)
    case Broke(st) => Continues(v, m, n, m', LabelPos(v, c.brk), st)
    case Continued(st) => n >= 1 && Continues(v, m, n, m', LabelPos(v, c.cont), st)
    case Jumped(l, st) => n >= 1 && l in c.gotos && Continues(v, m, n, m', LabelPos(v, c.gotos[l]), st)
    case Returned(sv) => Left(v, m, n, m') && (sv.Set? ==> U32(m'.rax) == U32(sv.v))
    case Stopped(h) => HaltDone(v, m, n, m', fuel, h)
  }

  lemma {:induction false} ContinuesLater(v: Env, m: M, a: nat, m1: M, b: nat, m2: M, at: int, st: Store)
    requires Reach(v, m, a, m1) && Kept(m, m1, |st|) && Continues(v, m1, b, m2, at, st)
    ensures Continues(v, m, a + b, m2, at, st)
  {
    hide Reach, Kept, Good;
    Then(v, m, a, m1, b, m2);
    KeptThen(m, m1, m2, |st|);
  }

  lemma {:induction false} LeftLater(v: Env, m: M, a: nat, m1: M, b: nat, m2: M, st: Store)
    requires Reach(v, m, a, m1) && Good(m, st) && Kept(m, m1, |st|) && Left(v, m1, b, m2)
    ensures Left(v, m, a + b, m2)
  {
    hide Reach, Aligned;
    Then(v, m, a, m1, b, m2);
    forall d {:trigger Rd(m2.mem, d)} | d >= m.rbp ensures Rd(m2.mem, d) == Rd(m.mem, d) {
      assert Outside(m, |st|, d);
      assert Rd(m1.mem, d) == Rd(m.mem, d);
    }
    assert Outside(m, |st|, m.rbp) && Outside(m, |st|, m.rbp + 4);
    assert Outside(m, |st|, m.rbp + 8) && Outside(m, |st|, m.rbp + 12);
  }

  /** A statement that follows other code; fuel may grow by what that code paid. */
  lemma {:induction false} StmtLater(v: Env, c: Ctx, m: M, a: nat, m1: M, b: nat, m2: M, end: int, fuel1: nat, fuel: nat,
                                     o: Out, st: Store)
    requires Reach(v, m, a, m1) && Good(m, st) && Kept(m, m1, |st|) && Sane(o, |st|) && fuel <= fuel1 + a
    requires StmtDone(v, c, m1, b, m2, end, fuel1, o)
    ensures StmtDone(v, c, m, a + b, m2, end, fuel, o)
  {
    hide Reach, Good, Kept, Left, Continues, U32;
    match o {
      case Normal(st1) => ContinuesLater(v, m, a, m1, b, m2, end, st1);
      case Broke(st1) => ContinuesLater(v, m, a, m1, b, m2, LabelPos(v, c.brk), st1);
      case Continued(st1) => ContinuesLater(v, m, a, m1, b, m2, LabelPos(v, c.cont), st1);
      case Jumped(l, st1) => ContinuesLater(v, m, a, m1, b, m2, LabelPos(v, c.gotos[l]), st1);
      case Returned(sv) => LeftLater(v, m, a, m1, b, m2, st);
      case Stopped(h) => if h.Trap? || h.Timeout? { Then(v, m, a, m1, b, m2); }
    }
  }

  lemma {:induction false} StayHere(v: Env, m: M, st: Store)
    requires Good(m, st)
    ensures Continues(v, m, 0, m, m.pc, st)
  {
    HereReach(v, m);
    KeptSame(m, m, st);
  }

  lemma {:induction false} JumpDone(v: Env, m: M, l: int, st: Store) returns (n: nat, m': M)
    requires Place(v, m.pc, JmpL(l)).InPlace? && Good(m, st)
    ensures n >= 1 && Continues(v, m, n, m', LabelPos(v, l), st)
  {
    m' := m.(pc := v.L[l]);
    n := Jump(v, m, l);
    KeptSame(m, m', st);
  }

  lemma {:induction false} LabelHere(v: Env, pos: int, l: int)
    requires Place(v, pos, Lab(l)).InPlace?
    ensures LabelPos(v, l) == pos
  {
  }

  lemma {:induction false} Sizes(l: int, cc: Cc)
    ensures Size(Lab(l)) == 0 && Size(JmpL(l)) == 5 && Size(JccL(cc, l)) == 6 && Size(Nil) == 0
  {
  }

  ghost predicate Extends(big: map<string, int>, small: map<string, int>)
  {
    forall k {:trigger small[k]} :: k in small ==> k in big && big[k] == small[k]
  }

  /** Numbers and goto names are only added, and new names get new numbers. */
  ghost predicate Grows(g: G, g': G)
  {
    && g.next <= g'.next && Extends(g'.gotos, g.gotos)
    && forall k {:trigger g'.gotos[k]} :: k in g'.gotos ==> k in g.gotos || g.next <= g'.gotos[k]
  }

  /** The code of s is at pos, with break, continue and goto leading where c says. */
  ghost function StmtAt(v: Env, c: Ctx, s: Stmt, g: G, pos: int, inB: bool, inC: bool): Placement
  {
    var r := SCode(s, c.brk, c.cont, g);
    Check(Place(v, pos, r.code).InPlace? && Extends(c.gotos, r.g.gotos) && FaithfulStmt(s, inB, inC)
      && (inB ==> c.brk >= 0) && (inC ==> c.cont >= 0) && g.next >= 0)
  }

  /** The labels a loop uses: n its start, n + 1 its end, cont for continue; g numbers its body. */
  datatype Loop = Loop(n: int, cont: int, g: G)

  function LoopCtx(c: Ctx, lp: Loop): Ctx { Ctx(lp.n + 1, lp.cont, c.gotos) }

  function LoopBody(cond: OptExpr, lp: Loop, top: int): int { top + Size(OptTest(cond, lp.n + 1)) }

  function LoopStep(cond: OptExpr, b: Stmt, lp: Loop, top: int): int
  {
    LoopBody(cond, lp, top) + Size(SCode(b, lp.n + 1, lp.cont, lp.g).code)
  }

  function LoopEnd(cond: OptExpr, step: OptExpr, b: Stmt, lp: Loop, top: int): int
  {
    LoopStep(cond, b, lp, top) + Size(OptCode(step)) + 5
  }

  /** The test of a loop is at top, followed by its body, its step and the jump back. */
  ghost function LoopAt(v: Env, c: Ctx, cond: OptExpr, step: OptExpr, b: Stmt, lp: Loop, top: int): Placement
  {
    var spos := LoopStep(cond, b, lp, top);
    Check(Place(v, top, OptTest(cond, lp.n + 1)).InPlace?
      && StmtAt(v, LoopCtx(c, lp), b, lp.g, LoopBody(cond, lp, top), true, true).InPlace?
      && Place(v, spos, OptCode(step)).InPlace? && Place(v, spos + Size(OptCode(step)), JmpL(lp.n)).InPlace?
      && LabelPos(v, lp.n) == top && LabelPos(v, lp.n + 1) == LoopEnd(cond, step, b, lp, top)
      && (LabelPos(v, lp.cont) == spos || (step.NoExpr? && LabelPos(v, lp.cont) == top))
      && FaithfulOpt(step) && (cond.SomeExpr? ==> FaithfulTest(cond.e)))
  }

  ghost function ListAt(v: Env, c: Ctx, ss: Stmts, g: G, pos: int, inB: bool, inC: bool): Placement
  {
    var r := ListCode(ss, c.brk, c.cont, g);
    Check(Place(v, pos, r.code).InPlace? && Extends(c.gotos, r.g.gotos) && FaithfulList(ss, inB, inC)
      && (inB ==> c.brk >= 0) && (inC ==> c.cont >= 0) && g.next >= 0)
  }

  ghost function ItemsAt(v: Env, c: Ctx, items: Items, l: int, g: G, pos: int, inC: bool): Placement
  {
    var r := ItemCode(items, l, c.brk, c.cont, g);
    Check(Place(v, pos, r.code).InPlace? && Extends(c.gotos, r.g.gotos) && FaithfulItems(items, inC)
      && c.brk >= 0 && (inC ==> c.cont >= 0) && g.next >= 0)
  }

  /** Where the run enters a switch body that is at pos. */
  ghost predicate StartsItem(v: Env, c: Ctx, items: Items, g: G, from: ItemEntry, pc: int, pos: int)
  {
    match from
    case Skip(k) => pc == ItemAt(items, c.brk, c.cont, g, pos, k)
    case ToLabel(l) => l in c.gotos && pc == LabelPos(v, c.gotos[l])
  }

  /** Where the run enters code that is at pos. */
  ghost predicate Starts(v: Env, c: Ctx, from: Entry, pc: int, pos: int)
  {
    match from
    case Top => pc == pos
    case AtLabel(l) => l in c.gotos && pc == LabelPos(v, c.gotos[l])
  }

  /** A statement followed by a jump to end. */
  lemma {:induction false} ThenJump(v: Env, c: Ctx, m: M, a: nat, m1: M, at: int, fuel: nat, o: Out, l: int, end: int)
    returns (n: nat, m': M)
    requires StmtDone(v, c, m, a, m1, at, fuel, o)
    requires o.Normal? ==> Place(v, at, JmpL(l)).InPlace? && LabelPos(v, l) == end
    ensures StmtDone(v, c, m, n, m', end, fuel, o)
  {
    hide Reach, Good, Kept, Left, Place, U32;
    n, m' := a, m1;
    if o.Normal? {
      var b, m2 := JumpDone(v, m1, l, o.st);
      ContinuesLater(v, m, a, m1, b, m2, end, o.st);
      n, m' := a + b, m2;
    }
  }

  // ----- Tests -----

  /** After the value of a condition: the test and the jump taken on cc. */
  lemma {:induction false} BranchSteps(v: Env, m: M, w: bool, cc: Cc, l: int, x: int, st: Store) returns (n: nat, m': M)
    requires Place(v, m.pc, I(TestRax(w))).InPlace? && Place(v, m.pc + Len(TestRax(w)), JccL(cc, l)).InPlace?
    requires Good(m, st) && IsInt(x) && U32(m.rax) == U32(x) && (w ==> m.rax == Ext(x)) && (cc.Eq? || cc.Ne?)
    ensures n >= 1
    ensures Continues(v, m, n, m', if cc.Eq? == (x == 0) then LabelPos(v, l) else m.pc + Len(TestRax(w)) + 6, st)
  {
    hide Good, Kept, U32, Reach;
    var a, m1 := TestStep(v, m, w, x);
    var b := Branch(v, m1, cc, l);
    m' := if Holds(cc, m1.fl) then m1.(pc := v.L[l]) else m1.(pc := m1.pc + 6);
    Then(v, m, a, m1, b, m');
    n := a + b;
    KeptSame(m, m', st);
  }

  // ----- Switch dispatch -----

  /** The label number of item j when the labels of items are numbered from l. */
  function LabelOf(items: Items, l: int, j: nat): int
  {
    match items
    case INil => l
    case ICase(_, _, rest) => if j == 0 then l else LabelOf(rest, l + 1, j - 1)
    case IDefault(rest) => if j == 0 then l else LabelOf(rest, l + 1, j - 1)
    case IStmt(_, rest) => if j == 0 then l else LabelOf(rest, l, j - 1)
  }

  ghost predicate Jumps(v: Env, m: M, n: nat, m': M, at: int)
  {
    Reach(v, m, n, m') && SameStack(m, m') && m'.rax == m.rax && m'.pc == at
  }

  lemma {:induction false} JumpsThen(v: Env, m: M, a: nat, m1: M, b: nat, m2: M, at: int, at1: int)
    requires Jumps(v, m, a, m1, at1) && Jumps(v, m1, b, m2, at)
    ensures Jumps(v, m, a + b, m2, at)
  {
    hide Reach;
    Then(v, m, a, m1, b, m2);
  }

  lemma {:induction false} CompareStep(v: Env, m: M, imm: int, cc: Cc, l: int, x: int) returns (n: nat, m': M)
    requires Place(v, m.pc, I(CmpEaxImm(imm))).InPlace? && Place(v, m.pc + 5, JccL(cc, l)).InPlace?
    requires IsInt(x) && IsInt(imm) && U32(m.rax) == U32(x)
    ensures Jumps(v, m, n, m', if Compare(cc, x, imm) then LabelPos(v, l) else m.pc + 11)
  {
    hide Reach, Place, U32;
    var m1 := Do(CmpEaxImm(imm), m).m;
    var a := One(v, m, CmpEaxImm(imm), m1);
    SignedOperand(false, m.rax, x); SignedOperand(false, imm, imm);
    CmpMeaning(false, m.rax, imm, cc);
    var b := Branch(v, m1, cc, l);
    JccPlace(v, m1.pc, cc, l);
    m' := if Holds(cc, m1.fl) then m1.(pc := v.L[l]) else m1.(pc := m1.pc + 6);
    Then(v, m, a, m1, b, m');
    n := a + b;
  }

  lemma {:induction false} JccPlace(v: Env, pos: int, cc: Cc, l: int)
    requires Place(v, pos, JccL(cc, l)).InPlace?
    ensures l in v.L
  {
  }

  lemma {:induction false} RangeShape(v: Env, pos: int, lo: int, hi: int, l: int, k: int)
    ensures Size(RangeTest(lo, hi, l, k)) == 27
    ensures Place(v, pos, RangeTest(lo, hi, l, k)).InPlace? ==>
      Place(v, pos, I(CmpEaxImm(lo))).InPlace? && Place(v, pos + 5, JccL(Lt, k)).InPlace?
      && Place(v, pos + 11, I(CmpEaxImm(hi))).InPlace? && Place(v, pos + 16, JccL(Gt, k)).InPlace?
      && Place(v, pos + 22, JmpL(l)).InPlace? && Place(v, pos + 27, Lab(k)).InPlace?
  {
    hide Place, Size;
    SizeI(CmpEaxImm(lo)); SizeI(CmpEaxImm(hi)); Sizes(k, Lt); Sizes(k, Gt); Sizes(l, Gt);
    Parts5(v, pos, I(CmpEaxImm(lo)), JccL(Lt, k), I(CmpEaxImm(hi)), JccL(Gt, k), Cat(JmpL(l), Lab(k)));
    Parts2(v, pos + 22, JmpL(l), Lab(k));
  }

  /** A range test jumps to l exactly when the value is in the range. */
  lemma {:induction false} RangeSteps(v: Env, m: M, lo: int, hi: int, l: int, k: int, x: int) returns (n: nat, m': M)
    requires Place(v, m.pc, RangeTest(lo, hi, l, k)).InPlace? && IsInt(x) && IsInt(lo) && IsInt(hi) && U32(m.rax) == U32(x)
    ensures Jumps(v, m, n, m', if lo <= x <= hi then LabelPos(v, l) else m.pc + 27)
  {
    hide Place, Size, U32, Reach;
    RangeShape(v, m.pc, lo, hi, l, k);
    LabelHere(v, m.pc + 27, k);
    n, m' := CompareStep(v, m, lo, Lt, k, x);
    if lo <= x {
      var b, m2 := CompareStep(v, m', hi, Gt, k, x);
      JumpsThen(v, m, n, m', b, m2, m2.pc, m'.pc);
      n, m' := n + b, m2;
      if x <= hi {
        var m3 := m'.(pc := LabelPos(v, l));
        var d := JumpTo(v, m', l);
        JumpsThen(v, m, n, m', d, m3, m3.pc, m'.pc);
        n, m' := n + d, m3;
      }
    }
  }

  lemma {:induction false} JumpTo(v: Env, m: M, l: int) returns (n: nat)
    requires Place(v, m.pc, JmpL(l)).InPlace?
    ensures n >= 1 && Reach(v, m, n, m.(pc := LabelPos(v, l)))
  {
    n := Jump(v, m, l);
  }

  predicate IntCases(items: Items)
  {
    match items
    case INil => true
    case ICase(lo, hi, rest) => IsInt(lo) && IsInt(hi) && IntCases(rest)
    case IDefault(rest) => IntCases(rest)
    case IStmt(_, rest) => IntCases(rest)
  }

  /** The comparisons lead to the label of the first matching case, or past the code. */
  lemma {:induction false} DispatchSteps(v: Env, m: M, items: Items, l: int, k: int, x: int) returns (n: nat, m': M)
    requires Place(v, m.pc, Dispatch(items, l, k)).InPlace? && IsInt(x) && U32(m.rax) == U32(x) && IntCases(items)
    ensures Jumps(v, m, n, m', match FirstCase(items, x)
      case Item(j) => LabelPos(v, LabelOf(items, l, j))
      case NoItem => m.pc + Size(Dispatch(items, l, k)))
    decreases items
  {
    hide Place, U32, Reach, Size;
    match items {
      case INil =>
        HereReach(v, m); SizeNil();
        n, m' := 0, m;
      case ICase(lo, hi, rest) =>
        var head := if lo != hi then RangeTest(lo, hi, l, k) else CaseTest(lo, l);
        var k' := if lo != hi then k + 1 else k;
        Parts2(v, m.pc, head, Dispatch(rest, l + 1, k'));
        if lo != hi {
          RangeShape(v, m.pc, lo, hi, l, k);
          n, m' := RangeSteps(v, m, lo, hi, l, k, x);
        } else {
          SizeI(CmpEaxImm(lo)); Sizes(l, Eq);
          Parts2(v, m.pc, I(CmpEaxImm(lo)), JccL(Eq, l));
          n, m' := CompareStep(v, m, lo, Eq, l, x);
        }
        if !(lo <= x <= hi) {
          var b, m2 := DispatchSteps(v, m', rest, l + 1, k', x);
          JumpsThen(v, m, n, m', b, m2, m2.pc, m'.pc);
          n, m' := n + b, m2;
        }
      case IDefault(rest) => n, m' := DispatchSteps(v, m, rest, l + 1, k, x);
      case IStmt(_, rest) => n, m' := DispatchSteps(v, m, rest, l, k, x);
    }
  }

  lemma {:induction false} DefaultIs(items: Items, l: int)
    requires l >= 0
    ensures match LastDefault(items)
      case Item(j) => DefaultLabel(items, l) == LabelOf(items, l, j) && DefaultLabel(items, l) >= 0
      case NoItem => DefaultLabel(items, l) == -1
    decreases items
  {
    match items {
      case INil =>
      case ICase(_, _, rest) => DefaultIs(rest, l + 1);
      case IDefault(rest) => DefaultIs(rest, l + 1);
      case IStmt(_, rest) => DefaultIs(rest, l);
    }
  }

  /** Dispatch as a whole: to the label of the target, or past the code. */
  lemma {:induction false} SelectSteps(v: Env, m: M, items: Items, l: int, k: int, x: int) returns (n: nat, m': M)
    requires Place(v, m.pc, Cat(Dispatch(items, l, k), DefaultJump(items, l))).InPlace? && l >= 0
    requires IsInt(x) && U32(m.rax) == U32(x) && IntCases(items)
    ensures Jumps(v, m, n, m', match Target(items, x)
      case Item(j) => LabelPos(v, LabelOf(items, l, j))
      case NoItem => m.pc + Size(Cat(Dispatch(items, l, k), DefaultJump(items, l))))
  {
    hide Place, U32, Reach, Size, Dispatch, FirstCase, LastDefault, LabelOf, DefaultLabel;
    Parts2(v, m.pc, Dispatch(items, l, k), DefaultJump(items, l));
    n, m' := DispatchSteps(v, m, items, l, k, x);
    DefaultIs(items, l);
    if FirstCase(items, x).NoItem? {
      if LastDefault(items).Item? {
        var m2 := m'.(pc := LabelPos(v, DefaultLabel(items, l)));
        var b := JumpTo(v, m', DefaultLabel(items, l));
        JumpsThen(v, m, n, m', b, m2, m2.pc, m'.pc);
        n, m' := n + b, m2;
      } else {
        SizeNil();
      }
    }
  }

  /** Where item j of a switch body starts. */
  function ItemAt(items: Items, brk: int, cont: int, g: G, pos: int, j: nat): int
  {
    if j == 0 then pos
    else match items
      case INil => pos
      case ICase(_, _, rest) => ItemAt(rest, brk, cont, g, pos, j - 1)
      case IDefault(rest) => ItemAt(rest, brk, cont, g, pos, j - 1)
      case IStmt(s, rest) =>
        var s' := SCode(s, brk, cont, g);
        ItemAt(rest, brk, cont, s'.g, pos + Size(s'.code), j - 1)
  }

  predicate IsLabelItem(items: Items, j: nat)
  {
    match items
    case INil => false
    case ICase(_, _, rest) => j == 0 || IsLabelItem(rest, j - 1)
    case IDefault(rest) => j == 0 || IsLabelItem(rest, j - 1)
    case IStmt(_, rest) => j > 0 && IsLabelItem(rest, j - 1)
  }

  lemma {:induction false} TargetIsLabel(items: Items, x: int)
    ensures FirstCase(items, x).Item? ==> IsLabelItem(items, FirstCase(items, x).k)
    ensures LastDefault(items).Item? ==> IsLabelItem(items, LastDefault(items).k)
    decreases items
  {
    match items {
      case INil =>
      case ICase(_, _, rest) => TargetIsLabel(rest, x);
      case IDefault(rest) => TargetIsLabel(rest, x);
      case IStmt(_, rest) => TargetIsLabel(rest, x);
    }
  }

  /** The label of a case or default is where its item starts. */
  lemma {:induction false} ItemLabelAt(v: Env, items: Items, l: int, brk: int, cont: int, g: G, pos: int, j: nat)
    requires Place(v, pos, ItemCode(items, l, brk, cont, g).code).InPlace? && IsLabelItem(items, j)
    ensures LabelPos(v, LabelOf(items, l, j)) == ItemAt(items, brk, cont, g, pos, j)
    decreases items
  {
    hide Place, Size, SCode, LabelPos;
    match items {
      case ICase(_, _, rest) =>
        Parts2(v, pos, Lab(l), ItemCode(rest, l + 1, brk, cont, g).code); Sizes(l, Eq);
        LabelHere(v, pos, l);
        if j > 0 { ItemLabelAt(v, rest, l + 1, brk, cont, g, pos, j - 1); }
      case IDefault(rest) =>
        Parts2(v, pos, Lab(l), ItemCode(rest, l + 1, brk, cont, g).code); Sizes(l, Eq);
        LabelHere(v, pos, l);
        if j > 0 { ItemLabelAt(v, rest, l + 1, brk, cont, g, pos, j - 1); }
      case IStmt(s, rest) =>
        var s' := SCode(s, brk, cont, g);
        Parts2(v, pos, s'.code, ItemCode(rest, l, brk, cont, s'.g).code);
        ItemLabelAt(v, rest, l, brk, cont, s'.g, pos + Size(s'.code), j - 1);
    }
  }

  // ----- Label numbers only grow -----

  lemma {:induction false} GrowsThen(g: G, g1: G, g2: G)
    requires Grows(g, g1) && Grows(g1, g2)
    ensures Grows(g, g2)
  {
    forall k {:trigger g2.gotos[k]} | k in g2.gotos ensures k in g.gotos || g.next <= g2.gotos[k] {
      if k in g1.gotos { assert g2.gotos[k] == g1.gotos[k]; }
    }
  }

  /** Numbers may be skipped. */
  lemma {:induction false} GrowsSkip(g: G, n: int, g': G)
    requires Grows(g.(next := n), g') && g.next <= n
    ensures Grows(g, g')
  {
  }

  lemma {:induction false} GrowsSelf(g: G, n: int)
    requires g.next <= n
    ensures Grows(g, g.(next := n))
  {
  }

  lemma {:induction false} GotoGrows(g: G, l: string)
    ensures Grows(g, GotoId(g, l).1)
  {
  }

  lemma {:induction false} ExtendsThen(big: map<string, int>, g: G, g': G)
    requires Extends(big, g'.gotos) && Grows(g, g')
    ensures Extends(big, g.gotos)
  {
  }

  lemma {:induction false} SCodeGrows(s: Stmt, brk: int, cont: int, g: G)
    ensures Grows(g, SCode(s, brk, cont, g).g)
    decreases s, 1
  {
    hide Size, ECode, CallCode, Dispatch, Grows, GotoId;
    var n := g.next;
    GrowsSelf(g, n);
    assert g.(next := n) == g;
    match s {
      case If(c, t) =>
        SCodeGrows(t, brk, cont, g.(next := n + 2));
        GrowsSkip(g, n + 2, SCode(s, brk, cont, g).g);
      case IfElse(_, _, _) => IfElseGrows(s, brk, cont, g);
      case While(c, b) =>
        SCodeGrows(b, n + 1, n, g.(next := n + 2));
        GrowsSkip(g, n + 2, SCode(s, brk, cont, g).g);
      case DoWhile(b, c) =>
        SCodeGrows(b, n + 1, n, g.(next := n + 2));
        GrowsSkip(g, n + 2, SCode(s, brk, cont, g).g);
      case For(_, _, _, b) =>
        SCodeGrows(b, n + 1, n + 2, g.(next := n + 3));
        GrowsSkip(g, n + 3, SCode(s, brk, cont, g).g);
      case Block(ss) => ListGrows(ss, brk, cont, g);
      case Switch(_, _) => SwitchGrows(s, brk, cont, g);
      case Goto(l) => GotoGrows(g, l);
      case Label(l) => GotoGrows(g, l);
      case ExprStmt(_) =>
      case CallStmt(_, _) =>
      case Null =>
      case Break =>
      case Continue =>
      case Return(_) =>
    }
  }

  lemma {:induction false} IfElseGrows(s: Stmt, brk: int, cont: int, g: G)
    requires s.IfElse?
    ensures Grows(g, SCode(s, brk, cont, g).g)
    decreases s, 0
  {
    hide Size, ECode, CallCode, Grows, GotoId;
    var n := g.next;
    var t' := SCode(s.thn, brk, cont, g.(next := n + 2));
    SCodeGrows(s.thn, brk, cont, g.(next := n + 2));
    SCodeGrows(s.els, brk, cont, t'.g);
    GrowsSkip(g, n + 2, t'.g);
    GrowsThen(g, t'.g, SCode(s.els, brk, cont, t'.g).g);
  }

  lemma {:induction false} SwitchGrows(s: Stmt, brk: int, cont: int, g: G)
    requires s.Switch?
    ensures Grows(g, SCode(s, brk, cont, g).g)
    decreases s, 0
  {
    hide Size, ECode, CallCode, Dispatch, Grows, GotoId;
    var n := g.next;
    var k := LabelCount(s.items);
    var g1 := g.(next := n + k + 2);
    var body := ItemCode(s.items, n, n + k + 1, cont, g1);
    ItemsGrow(s.items, n, n + k + 1, cont, g1);
    GrowsSkip(g, n + k + 2, body.g);
    GrowsSelf(body.g, body.g.next + RangeCount(s.items));
    GrowsThen(g, body.g, body.g.(next := body.g.next + RangeCount(s.items)));
  }

  lemma {:induction false} ListGrows(ss: Stmts, brk: int, cont: int, g: G)
    ensures Grows(g, ListCode(ss, brk, cont, g).g)
    decreases ss
  {
    hide Grows, SCode;
    match ss {
      case SNil =>
        GrowsSelf(g, g.next);
        assert g.(next := g.next) == g;
      case SCons(s, rest) =>
        var g1 := SCode(s, brk, cont, g).g;
        SCodeGrows(s, brk, cont, g);
        ListGrows(rest, brk, cont, g1);
        GrowsThen(g, g1, ListCode(rest, brk, cont, g1).g);
    }
  }

  lemma {:induction false} ItemsGrow(items: Items, l: int, brk: int, cont: int, g: G)
    ensures Grows(g, ItemCode(items, l, brk, cont, g).g)
    decreases items
  {
    hide Grows, SCode;
    match items {
      case INil =>
        GrowsSelf(g, g.next);
        assert g.(next := g.next) == g;
      case ICase(_, _, rest) => ItemsGrow(rest, l + 1, brk, cont, g);
      case IDefault(rest) => ItemsGrow(rest, l + 1, brk, cont, g);
      case IStmt(s, rest) =>
        var g1 := SCode(s, brk, cont, g).g;
        SCodeGrows(s, brk, cont, g);
        ItemsGrow(rest, l, brk, cont, g1);
        GrowsThen(g, g1, ItemCode(rest, l, brk, cont, g1).g);
    }
  }
}
