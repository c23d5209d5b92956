/** Pieces of expression code: what the code of an expression must achieve, and each
    construct achieving it when its operands do. */
module Snippets {
  import opened Words
  import opened X86
  import opened CSource
  import opened CodeGen
  import opened Blocks
  import opened Frames

  // ----- What has to be shown of an expression -----

  /** A run that stops: at a division by zero, or not before fuel steps. */
  ghost predicate HaltDone(v: Env, m: M, n: nat, m': M, fuel: nat, h: Halt)
  {
    match h
    case Trap => Reach(v, m, n, m') && DividesByZero(v.prog, m')
    case Timeout => Reach(v, m, n, m') && n >= fuel
    case _ => true
  }

  /** The low half of rax is x, and the upper half is as f says. */
  predicate Filled(f: Fill, rax: int, x: int)
  {
    match f
    case Loose => true
    case SignExt => rax == Ext(x)
    case ZeroExt => rax == U32(x)
    case NegSign => rax == U64(if x == INT_MIN then -x else x)
    case NegZero => rax == U64(if x > 0 then x - 0x1_0000_0000 else x)
  }

  /** The value is in eax, the store in the frame, and the stack is as before. */
  ghost predicate ValueDone(v: Env, f: Fill, m: M, n: nat, m': M, end: int, x: int, st: Store)
  {
    && Reach(v, m, n, m') && m'.pc == end
    && U32(m'.rax) == U32(x) && Filled(f, m'.rax, x)
    && Good(m', st) && Kept(m, m', |st|)
  }

  ghost predicate ExprDone(v: Env, f: Fill, m: M, n: nat, m': M, end: int, fuel: nat, r: Res)
  {
    match r
    case Value(x, st) => ValueDone(v, f, m, n, m', end, x, st)
    case Halted(h) => HaltDone(v, m, n, m', fuel, h)
  }

  lemma {:induction false} HaltLater(v: Env, m: M, a: nat, m1: M, b: nat, m2: M, fuel: nat, h: Halt)
    requires Reach(v, m, a, m1) && HaltDone(v, m1, b, m2, fuel, h)
    ensures HaltDone(v, m, a + b, m2, fuel, h)
  {
    if h.Trap? || h.Timeout? { Then(v, m, a, m1, b, m2); }
  }

  lemma {:induction false} ValueLater(v: Env, f: Fill, m: M, a: nat, m1: M, b: nat, m2: M, end: int, x: int, st: Store)
    requires Reach(v, m, a, m1) && Kept(m, m1, |st|) && ValueDone(v, f, m1, b, m2, end, x, st)
    ensures ValueDone(v, f, m, a + b, m2, end, x, st)
  {
    Then(v, m, a, m1, b, m2);
    KeptThen(m, m1, m2, |st|);
  }

  lemma {:induction false} ExprLater(v: Env, f: Fill, m: M, a: nat, m1: M, b: nat, m2: M, end: int, fuel: nat, r: Res)
    requires Reach(v, m, a, m1) && (r.Value? ==> Kept(m, m1, |r.st|)) && ExprDone(v, f, m1, b, m2, end, fuel, r)
    ensures ExprDone(v, f, m, a + b, m2, end, fuel, r)
  {
    match r {
      case Value(x, st) => ValueLater(v, f, m, a, m1, b, m2, end, x, st);
      case Halted(h) => HaltLater(v, m, a, m1, b, m2, fuel, h);
    }
  }

  // ----- Small steps used by several cases -----

  lemma {:induction false} TestStep(v: Env, m: M, w: bool, x: int) returns (n: nat, m': M)
    requires Place(v, m.pc, I(TestRax(w))).InPlace? && IsInt(x) && U32(m.rax) == U32(x) && (w ==> m.rax == Ext(x))
    ensures n >= 1 && Reach(v, m, n, m') && SameStack(m, m') && m'.pc == m.pc + Len(TestRax(w)) && m'.rax == m.rax
    ensures m'.fl.Flags? && m'.fl.zf == (x == 0)
  {
    m' := Do(TestRax(w), m).m;
    n := One(v, m, TestRax(w), m');
    SignedOperand(w, m.rax, x);
    if w { ExtFacts(x); }
  }

  lemma {:induction false} JccStep(v: Env, m: M, cc: Cc, d: int) returns (n: nat, m': M)
    requires Place(v, m.pc, I(Jcc(cc, d))).InPlace? && m.fl.Flags?
    ensures n >= 1 && Reach(v, m, n, m') && SameStack(m, m') && m'.rax == m.rax
    ensures m'.pc == m.pc + 6 + (if Holds(cc, m.fl) then d else 0)
  {
    m' := Do(Jcc(cc, d), m).m;
    n := One(v, m, Jcc(cc, d), m');
  }

  lemma {:induction false} JmpStep(v: Env, m: M, d: int) returns (n: nat, m': M)
    requires Place(v, m.pc, I(Jmp(d))).InPlace?
    ensures n >= 1 && Reach(v, m, n, m') && m' == m.(pc := m.pc + 5 + d)
  {
    m' := Do(Jmp(d), m).m;
    n := One(v, m, Jmp(d), m');
  }

  lemma {:induction false} ImmStep(v: Env, m: M, c: int) returns (n: nat, m': M)
    requires Place(v, m.pc, I(MovEaxImm(c))).InPlace?
    ensures n >= 1 && Reach(v, m, n, m') && SameStack(m, m') && m'.pc == m.pc + 5 && m'.rax == U32(c)
  {
    m' := Do(MovEaxImm(c), m).m;
    n := One(v, m, MovEaxImm(c), m');
  }

  /** A step that changes only registers, after which eax holds x. */
  lemma {:induction false} RegisterValue(v: Env, f: Fill, m: M, n: nat, m': M, end: int, x: int, st: Store)
    requires Reach(v, m, n, m') && SameStack(m, m') && Good(m, st) && m'.pc == end
    requires U32(m'.rax) == U32(x) && Filled(f, m'.rax, x)
    ensures ValueDone(v, f, m, n, m', end, x, st)
  {
    KeptSame(m, m', st);
  }

  // ----- Leaves -----

  lemma {:induction false} SimConst(v: Env, m: M, st: Store, c: int) returns (n: nat, m': M)
    requires Place(v, m.pc, ConstCode(c)).InPlace? && Good(m, st) && IsInt(c)
    ensures ValueDone(v, SignExt, m, n, m', m.pc + Size(ConstCode(c)), c, st)
  {
    U32OfInt(c); ExtFacts(c); U32OfU32(c);
    if c < 0 {
      Split(v, m.pc, I(MovEaxImm(c)), I(Movsxd));
      var a, m1 := ImmStep(v, m, c);
      m' := Do(Movsxd, m1).m;
      n := One(v, m1, Movsxd, m');
      S32Unique(m1.rax, c);
      Then(v, m, a, m1, n, m');
      n := a + n;
      assert Size(ConstCode(c)) == Size(I(MovEaxImm(c))) + Size(I(Movsxd));
    } else {
      n, m' := ImmStep(v, m, c);
    }
    RegisterValue(v, SignExt, m, n, m', m.pc + Size(ConstCode(c)), c, st);
  }

  lemma {:induction false} SimVar(v: Env, m: M, st: Store, x: nat) returns (n: nat, m': M)
    requires Place(v, m.pc, I(LoadEax(Off(x)))).InPlace? && Good(m, st) && x < |st| && st[x].Set?
    ensures ValueDone(v, ZeroExt, m, n, m', m.pc + Size(I(LoadEax(Off(x)))), Wrap(st[x].v), st)
  {
    n, m' := LoadStep(v, m, st, x);
    U32OfU32(st[x].v);
    RegisterValue(v, ZeroExt, m, n, m', m.pc + Size(I(LoadEax(Off(x)))), Wrap(st[x].v), st);
  }

  // ----- Binary operators -----

  /** The parts of a binary operation, and its size. */
  lemma {:induction false} BinShape(v: Env, pos: int, l: Code, r: Code, op: Code)
    ensures Size(BinCode(l, r, op)) == Size(l) + 1 + Size(r) + 1 + Size(op)
    ensures Place(v, pos, BinCode(l, r, op)).InPlace? ==>
      Place(v, pos, l).InPlace? && Place(v, pos + Size(l), I(PushRax)).InPlace?
      && Place(v, pos + Size(l) + 1, r).InPlace? && Place(v, pos + Size(l) + 1 + Size(r), Cat(I(PopRcx), op)).InPlace?
  {
    hide Place, Size;
    SizeI(PushRax); SizeI(PopRcx);
    Parts4(v, pos, l, I(PushRax), r, Cat(I(PopRcx), op));
    Parts2(v, pos, I(PopRcx), op);
  }

  /** From m2, with the left operand pushed over m, the operation ends at m'. */
  ghost predicate BinEnded(v: Env, m: M, m2: M, n: nat, m': M, op: BinOp, w: bool, end: int, st: Store, r: OpRes)
  {
    match r
    case OpHalt(h) => h == Trap ==> Reach(v, m2, n, m') && DividesByZero(v.prog, m')
    case Result(x) =>
      Reach(v, m2, n, m') && m'.pc == end && Good(m', st) && Kept(m, m', |st|)
      && U32(m'.rax) == U32(x) && (op.Cmp? ==> m'.rax == x) && (!w ==> m'.rax == U32(x))
  }

  /** The right operand has been computed and the left one is on the stack over m. */
  lemma {:induction false} SimBinEnd(v: Env, m: M, m1: M, m2: M, op: BinOp, w: bool, a: int, b: int, st0: Store, st: Store)
    returns (n: nat, m': M)
    requires Place(v, m2.pc, Cat(I(PopRcx), OpCode(op, w))).InPlace?
    requires Pushed(m, m1, m.rax) && Kept(m1, m2, |st|) && Good(m2, st) && Good(m, st0) && |st0| == |st|
    requires IsInt(a) && IsInt(b) && U32(m.rax) == U32(a) && U32(m2.rax) == U32(b)
    requires w && NeedsHigh(op) ==> m.rax == Ext(a) && m2.rax == Ext(b)
    ensures BinEnded(v, m, m2, n, m', op, w, m2.pc + 1 + Size(OpCode(op, w)), st, Apply(op, a, b))
  {
    Split(v, m2.pc, I(PopRcx), OpCode(op, w));
    var k, m3 := PopRcxStep(v, m, m1, m2, m.rax, st0, st);
    var j, m4 := OpSteps(v, m3, op, w, a, b);
    n, m' := k + j, m4;
    ApplyHalts(op, a, b);
    match Apply(op, a, b) {
      case Result(x) =>
        Then(v, m2, k, m3, j, m4);
        KeptSame(m3, m4, st);
        KeptThen(m, m3, m4, |st|);
      case OpHalt(h) => if h == Trap { Then(v, m2, k, m3, j, m4); }
    }
  }

  lemma {:induction false} ApplyHalts(op: BinOp, a: int, b: int)
    ensures Apply(op, a, b).OpHalt? ==> Apply(op, a, b).h == Trap || Apply(op, a, b).h == Undef
    ensures op.Cmp? ==> Apply(op, a, b).Result? && 0 <= Apply(op, a, b).v <= 1
  {
  }

  // ----- && and || -----

  /** The value computed by the tail, entered at its start or at its last instruction. */
  lemma {:induction false} LogicTailSteps(v: Env, m: M, pos: int, c: int, jumped: bool, st: Store) returns (n: nat, m': M)
    requires Place(v, pos, LogicTail(c)).InPlace? && 0 <= c <= 1 && Good(m, st)
    requires m.pc == (if jumped then pos + 10 else pos)
    ensures ValueDone(v, SignExt, m, n, m', pos + 15, if jumped then 1 - c else c, st)
  {
    Split(v, pos, I(MovEaxImm(c)), Cat(I(Jmp(5)), I(MovEaxImm(1 - c))));
    Split(v, pos + 5, I(Jmp(5)), I(MovEaxImm(1 - c)));
    if jumped {
      n, m' := ImmStep(v, m, 1 - c);
    } else {
      var a, m1 := ImmStep(v, m, c);
      var b, m2 := JmpStep(v, m1, 5);
      Then(v, m, a, m1, b, m2);
      n, m' := a + b, m2;
    }
    RegisterValue(v, SignExt, m, n, m', pos + 15, if jumped then 1 - c else c, st);
  }

  lemma {:induction false} LogicEndSteps(v: Env, m: M, cc: Cc, c: int, b: int, st: Store) returns (n: nat, m': M)
    requires Place(v, m.pc, LogicEnd(cc, c)).InPlace? && Good(m, st) && IsInt(b) && U32(m.rax) == U32(b)
    requires (cc.Eq? && c == 1) || (cc.Ne? && c == 0)
    ensures ValueDone(v, SignExt, m, n, m', m.pc + 23, BoolInt(b != 0), st)
  {
    Split(v, m.pc, I(TestRax(false)), Cat(I(Jcc(cc, 10)), LogicTail(c)));
    Split(v, m.pc + 2, I(Jcc(cc, 10)), LogicTail(c));
    var k, m1 := TestStep(v, m, false, b);
    var j, m2 := JccStep(v, m1, cc, 10);
    Then(v, m, k, m1, j, m2);
    KeptSame(m, m2, st);
    n, m' := LogicTailSteps(v, m2, m.pc + 8, c, Holds(cc, m1.fl), st);
    ValueLater(v, SignExt, m, k + j, m2, n, m', m.pc + 23, BoolInt(b != 0), st);
    n := k + j + n;
  }

  /** After the left operand: the test and the jump over the right one. */
  lemma {:induction false} LogicTest(v: Env, m1: M, r: Code, cc: Cc, c: int, a: int, st: Store) returns (n: nat, m2: M)
    requires Place(v, m1.pc, LogicMid(r, cc, c)).InPlace?
    requires Good(m1, st) && IsInt(a) && U32(m1.rax) == U32(a) && (cc.Eq? || cc.Ne?)
    ensures n >= 1 && Reach(v, m1, n, m2) && Good(m2, st) && Kept(m1, m2, |st|)
    ensures m2.pc == m1.pc + 8 + (if cc.Eq? == (a == 0) then Size(r) + 18 else 0)
  {
    hide Place, Size, Reach, LogicEnd, U32;
    var d := Size(r) + 18;
    Head(v, m1.pc, TestRax(false), Cat(I(Jcc(cc, d)), Cat(r, LogicEnd(cc, c))));
    Head(v, m1.pc + 2, Jcc(cc, d), Cat(r, LogicEnd(cc, c)));
    var k, mt := TestStep(v, m1, false, a);
    var j, mj := JccStep(v, mt, cc, d);
    Then(v, m1, k, mt, j, mj);
    n, m2 := k + j, mj;
    KeptSame(m1, m2, st);
  }

  /** The parts of && and ||, and their sizes. */
  lemma {:induction false} LogicShape(v: Env, pos: int, l: Code, r: Code, cc: Cc, c: int)
    ensures Size(LogicCode(l, r, cc, c)) == Size(l) + 8 + Size(r) + 23
    ensures Place(v, pos, LogicCode(l, r, cc, c)).InPlace? ==>
      Place(v, pos, l).InPlace? && Place(v, pos + Size(l), LogicMid(r, cc, c)).InPlace?
      && Place(v, pos + Size(l) + 8, r).InPlace? && Place(v, pos + Size(l) + 8 + Size(r), LogicEnd(cc, c)).InPlace?
  {
    hide Place, Size;
    LogicEndSize(v, pos, cc, c);
    SizeI(TestRax(false)); SizeI(Jcc(cc, Size(r) + 18));
    Parts2(v, pos, l, LogicMid(r, cc, c));
    Parts4(v, pos + Size(l), I(TestRax(false)), I(Jcc(cc, Size(r) + 18)), r, LogicEnd(cc, c));
  }

  lemma {:induction false} LogicTailPlace(v: Env, pos: int, cc: Cc, c: int)
    requires Place(v, pos, LogicEnd(cc, c)).InPlace?
    ensures Place(v, pos + 8, LogicTail(c)).InPlace?
  {
    Split(v, pos, I(TestRax(false)), Cat(I(Jcc(cc, 10)), LogicTail(c)));
    Split(v, pos + 2, I(Jcc(cc, 10)), LogicTail(c));
  }

  lemma {:induction false} LogicEndSize(v: Env, pos: int, cc: Cc, c: int)
    ensures Size(LogicEnd(cc, c)) == 23
  {
    hide Place, Size;
    SizeI(MovEaxImm(c)); SizeI(Jmp(5)); SizeI(MovEaxImm(1 - c)); SizeI(TestRax(false)); SizeI(Jcc(cc, 10));
    Parts3(v, pos, I(MovEaxImm(c)), I(Jmp(5)), I(MovEaxImm(1 - c)));
    Parts3(v, pos, I(TestRax(false)), I(Jcc(cc, 10)), LogicTail(c));
  }

  // ----- The conditional operator -----

  lemma {:induction false} CondShape(v: Env, pos: int, c: Code, t: Code, f: Code)
    ensures Size(CondCode(c, t, f)) == Size(c) + 8 + Size(t) + 6 + Size(f) + 2
    ensures Place(v, pos, CondCode(c, t, f)).InPlace? ==>
      Place(v, pos, c).InPlace? && Place(v, pos + Size(c), I(TestRax(false))).InPlace?
      && Place(v, pos + Size(c) + 2, I(Jcc(Eq, Size(t) + 6))).InPlace?
      && Place(v, pos + Size(c) + 8, t).InPlace? && Place(v, pos + Size(c) + 8 + Size(t), CondElse(f)).InPlace?
  {
    hide Place, Size;
    SizeI(TestRax(false)); SizeI(Jcc(Eq, Size(t) + 6));
    Parts5(v, pos, c, I(TestRax(false)), I(Jcc(Eq, Size(t) + 6)), t, CondElse(f));
    CondElseShape(v, pos + Size(c) + 8 + Size(t), f);
  }

  lemma {:induction false} CondElseShape(v: Env, pos: int, f: Code)
    ensures Size(CondElse(f)) == 6 + Size(f) + 2
    ensures Place(v, pos, CondElse(f)).InPlace? ==>
      Place(v, pos, I(PushRax)).InPlace? && Place(v, pos + 1, I(Jmp(Size(f) + 1))).InPlace?
      && Place(v, pos + 6, f).InPlace? && Place(v, pos + 6 + Size(f), I(PushRax)).InPlace?
      && Place(v, pos + 6 + Size(f) + 1, I(PopRax)).InPlace?
  {
    hide Place, Size;
    SizeI(PushRax); SizeI(PopRax); SizeI(Jmp(Size(f) + 1));
    Parts5(v, pos, I(PushRax), I(Jmp(Size(f) + 1)), f, I(PushRax), I(PopRax));
  }

  /** The test picks the arm. */
  lemma {:induction false} CondTest(v: Env, m: M, t: Code, a: int, st: Store) returns (n: nat, m': M)
    requires Place(v, m.pc, I(TestRax(false))).InPlace? && Place(v, m.pc + 2, I(Jcc(Eq, Size(t) + 6))).InPlace?
    requires Good(m, st) && IsInt(a) && U32(m.rax) == U32(a)
    ensures Reach(v, m, n, m') && Good(m', st) && Kept(m, m', |st|)
    ensures m'.pc == m.pc + 8 + (if a == 0 then Size(t) + 6 else 0)
  {
    hide Place, Size, Good, Kept, Reach, U32;
    var k, mt := TestStep(v, m, false, a);
    var j, mj := JccStep(v, mt, Eq, Size(t) + 6);
    Then(v, m, k, mt, j, mj);
    n, m' := k + j, mj;
    KeptSame(m, m', st);
  }

  /** The value of the first arm is pushed, and the jump leads to the pop. */
  lemma {:induction false} CondThenEnd(v: Env, m: M, f: Code, st: Store) returns (n: nat, m': M)
    requires Place(v, m.pc, CondElse(f)).InPlace? && Good(m, st)
    ensures Reach(v, m, n, m') && m'.pc == m.pc + 6 + Size(f) + 2 && m'.rax == m.rax
    ensures Good(m', st) && Kept(m, m', |st|)
  {
    hide Place, Size, Good, Kept, Pushed, Reach;
    CondElseShape(v, m.pc, f);
    var a, m1 := PushStep(v, m, st);
    var b, m2 := JmpStep(v, m1, Size(f) + 1);
    KeptSame(m1, m2, st);
    var c, m3 := PopRaxStep(v, m, m1, m2, m.rax, st, st);
    Then(v, m, a, m1, b, m2);
    Then(v, m, a + b, m2, c, m3);
    n, m' := a + b + c, m3;
  }

  /** The value of the second arm is pushed and popped. */
  lemma {:induction false} CondElseEnd(v: Env, m: M, st: Store) returns (n: nat, m': M)
    requires Place(v, m.pc, I(PushRax)).InPlace? && Place(v, m.pc + 1, I(PopRax)).InPlace? && Good(m, st)
    ensures Reach(v, m, n, m') && m'.pc == m.pc + 2 && m'.rax == m.rax
    ensures Good(m', st) && Kept(m, m', |st|)
  {
    hide Place, Size, Good, Kept, Pushed, Reach;
    var a, m1 := PushStep(v, m, st);
    KeptSame(m1, m1, st);
    var c, m3 := PopRaxStep(v, m, m1, m1, m.rax, st, st);
    Then(v, m, a, m1, c, m3);
    n, m' := a + c, m3;
  }

  // ----- Unary operators and assignment -----

  lemma {:induction false} NegStep(v: Env, f: Fill, m: M, a: int, st: Store) returns (n: nat, m': M)
    requires Place(v, m.pc, I(NegRax)).InPlace? && Good(m, st) && IsInt(a) && U32(m.rax) == U32(a) && Filled(f, m.rax, a)
    ensures ValueDone(v, Negated(f), m, n, m', m.pc + 3, Wrap(-a), st)
    ensures f.SignExt? && a > INT_MIN ==> ValueDone(v, SignExt, m, n, m', m.pc + 3, Wrap(-a), st)
  {
    hide Place, Good, Kept, Reach, Filled, Wrap, U32;
    m' := Do(NegRax, m).m;
    n := One(v, m, NegRax, m');
    U32OfU64(-m.rax);
    U32Add(0, m.rax, 0, a);
    assert 0 - m.rax == -m.rax && 0 - a == -a;
    NegFill(f, m.rax, a);
    RegisterValue(v, Negated(f), m, n, m', m.pc + 3, Wrap(-a), st);
    if f.SignExt? && a > INT_MIN { RegisterValue(v, SignExt, m, n, m', m.pc + 3, Wrap(-a), st); }
  }

  lemma {:induction false} NegFill(f: Fill, rax: int, a: int)
    requires IsInt(a) && Filled(f, rax, a)
    ensures Filled(Negated(f), U64(-rax), Wrap(-a))
    ensures f.SignExt? && a > INT_MIN ==> Filled(SignExt, U64(-rax), Wrap(-a))
  {
    hide U32, Wrap;
    NegatedInt(a);
    match f
    case Loose =>
    case SignExt => NegWord(a);
    case ZeroExt => U32OfSign(a);
    case NegSign => NegWord(if a == INT_MIN then -a else a);
    case NegZero => NegWord(if a > 0 then a - 0x1_0000_0000 else a); U32OfSign(Wrap(-a)); SmallWord(U32(Wrap(-a)));
  }

  lemma {:induction false} SmallWord(u: int)
    requires 0 <= u < 0x1_0000_0000
    ensures U64(u) == u
  {
  }

  lemma {:induction false} NegatedInt(a: int)
    requires IsInt(a)
    ensures Wrap(-a) == if a == INT_MIN then a else -a
  {
    if a == INT_MIN {
      Reduced(a, 1, 0x1_0000_0000);
      S32Unique(-a, a);
      WrapInt(a);
    } else {
      WrapInt(-a);
    }
  }

  lemma {:induction false} U32OfSign(a: int)
    requires IsInt(a)
    ensures U32(a) == if a < 0 then a + 0x1_0000_0000 else a
  {
    U32OfInt(a);
    Reduced(a, 1, 0x1_0000_0000);
  }

  lemma {:induction false} NegWord(a: int)
    ensures U64(-U64(a)) == U64(-a)
  {
    IsMod(a, 0x1_0000_0000_0000_0000);
    var q := a / 0x1_0000_0000_0000_0000;
    assert -U64(a) == -a + q * 0x1_0000_0000_0000_0000;
    Reduced(-a, q, 0x1_0000_0000_0000_0000);
  }

  lemma {:induction false} BitNotStep(v: Env, m: M, w: bool, a: int, st: Store) returns (n: nat, m': M)
    requires Place(v, m.pc, I(NotRax(w))).InPlace? && Good(m, st) && IsInt(a) && U32(m.rax) == U32(a)
    ensures ValueDone(v, if w then Loose else ZeroExt, m, n, m', m.pc + Len(NotRax(w)), Wrap(-1 - a), st)
  {
    hide Place, Good, Kept, Reach;
    m' := Do(NotRax(w), m).m;
    n := One(v, m, NotRax(w), m');
    TruncLow(w, -1 - m.rax);
    U32Add(-1, m.rax, -1, a);
    RegisterValue(v, if w then Loose else ZeroExt, m, n, m', m.pc + Len(NotRax(w)), Wrap(-1 - a), st);
  }

  lemma {:induction false} NotSteps(v: Env, m: M, w: bool, a: int, st: Store) returns (n: nat, m': M)
    requires Place(v, m.pc, I(TestRax(w))).InPlace? && Place(v, m.pc + Len(TestRax(w)), SetCode(Eq)).InPlace?
    requires Good(m, st) && IsInt(a) && U32(m.rax) == U32(a) && (w ==> m.rax == Ext(a))
    ensures ValueDone(v, SignExt, m, n, m', m.pc + Len(TestRax(w)) + 6, BoolInt(a == 0), st)
  {
    hide Place, Good, Kept, Reach, U32;
    var k, m1 := TestStep(v, m, w, a);
    var j, m2 := SetSteps(v, m1, Eq, a == 0);
    Then(v, m, k, m1, j, m2);
    n, m' := k + j, m2;
    ExtFacts(BoolInt(a == 0));
    RegisterValue(v, SignExt, m, n, m', m.pc + Len(TestRax(w)) + 6, BoolInt(a == 0), st);
  }

  // ----- ++ and -- -----

  /** The address of slot x goes to rcx by way of the stack. */
  lemma {:induction false} AddressSteps(v: Env, m: M, st: Store, x: nat) returns (n: nat, m': M)
    requires Place(v, m.pc, AddressCode(x)).InPlace? && Good(m, st)
    ensures Reach(v, m, n, m') && m'.pc == m.pc + Size(AddressCode(x)) && m'.rcx == SlotAddr(m.rbp, x)
    ensures Good(m', st) && Kept(m, m', |st|)
  {
    Split(v, m.pc, I(LeaRax(Off(x))), Cat(I(PushRax), I(PopRcx)));
    var m1 := Do(LeaRax(Off(x)), m).m;
    var a := One(v, m, LeaRax(Off(x)), m1);
    KeptSame(m, m1, st);
    Split(v, m1.pc, I(PushRax), I(PopRcx));
    var b, m2 := PushStep(v, m1, st);
    KeptSame(m2, m2, st);
    var c, m3 := PopRcxStep(v, m1, m2, m2, m1.rax, st, st);
    Then(v, m, a, m1, b, m2);
    Then(v, m, a + b, m2, c, m3);
    KeptThen(m, m1, m3, |st|);
    n, m' := a + b + c, m3;
    assert Size(Cat(I(PushRax), I(PopRcx))) == 2;
  }

  lemma {:induction false} IndirectLoad(v: Env, m: M, st: Store, x: nat) returns (n: nat, m': M)
    requires Place(v, m.pc, I(LoadEaxRcx)).InPlace? && Good(m, st) && x < |st| && st[x].Set? && m.rcx == SlotAddr(m.rbp, x)
    ensures Reach(v, m, n, m') && SameStack(m, m') && m'.pc == m.pc + 2 && m'.rcx == m.rcx && m'.rax == U32(st[x].v)
  {
    U32OfU32(st[x].v);
    AlignedBy(m.rbp, -(x + 1));
    m' := Do(LoadEaxRcx, m).m;
    n := One(v, m, LoadEaxRcx, m');
  }

  function Bump(x: int, up: bool): int { if up then x + 1 else x - 1 }

  /** Step eax by one and store it through rcx. */
  lemma {:induction false} BumpSteps(v: Env, m: M, st: Store, x: nat, up: bool, new_: int) returns (n: nat, m': M)
    requires Place(v, m.pc, BumpCode(up)).InPlace? && Good(m, st) && x < |st| && m.rcx == SlotAddr(m.rbp, x)
    requires U32(Bump(m.rax, up)) == U32(new_)
    ensures ValueDone(v, ZeroExt, m, n, m', m.pc + 5, new_, st[x := Set(new_)])
  {
    var i := if up then IncEax else DecEax;
    Split(v, m.pc, I(i), I(StoreEaxRcx));
    var m1 := Do(i, m).m;
    assert m1.rax == U32(new_);
    var a := One(v, m, i, m1);
    AlignedBy(m.rbp, -(x + 1));
    m' := Do(StoreEaxRcx, m1).m;
    n := One(v, m1, StoreEaxRcx, m');
    Then(v, m, a, m1, n, m');
    n := a + n;
    SlotWritten(m, m', st, x, new_);
  }

  lemma {:induction false} PrefixSteps(v: Env, m: M, st: Store, x: nat, up: bool, new_: int) returns (n: nat, m': M)
    requires Place(v, m.pc, Cat(I(LoadEaxRcx), BumpCode(up))).InPlace? && Good(m, st)
    requires x < |st| && st[x].Set? && m.rcx == SlotAddr(m.rbp, x) && U32(Bump(U32(st[x].v), up)) == U32(new_)
    ensures ValueDone(v, ZeroExt, m, n, m', m.pc + 7, new_, st[x := Set(new_)])
  {
    Split(v, m.pc, I(LoadEaxRcx), BumpCode(up));
    var a, m1 := IndirectLoad(v, m, st, x);
    KeptSame(m, m1, st);
    n, m' := BumpSteps(v, m1, st, x, up, new_);
    ValueLater(v, ZeroExt, m, a, m1, n, m', m.pc + 7, new_, st[x := Set(new_)]);
    n := a + n;
  }

  /** Loading the old value and saving it. */
  lemma {:induction false} PostfixSave(v: Env, m: M, st: Store, x: nat) returns (n: nat, m1: M, m2: M)
    requires Place(v, m.pc, I(LoadEaxRcx)).InPlace? && Place(v, m.pc + 2, I(PushRax)).InPlace? && Good(m, st)
    requires x < |st| && st[x].Set? && m.rcx == SlotAddr(m.rbp, x)
    ensures Reach(v, m, n, m2) && m2.pc == m.pc + 3 && m2.rcx == m.rcx && Good(m2, st)
    ensures SameStack(m, m1) && Good(m1, st) && Pushed(m1, m2, U32(st[x].v))
  {
    var a, ma := IndirectLoad(v, m, st, x);
    KeptSame(m, ma, st);
    var b, mb := PushStep(v, ma, st);
    Then(v, m, a, ma, b, mb);
    n, m1, m2 := a + b, ma, mb;
  }

  lemma {:induction false} PostfixRestore(v: Env, m: M, m1: M, m2: M, st: Store, x: nat, up: bool, old_: int, new_: int) returns (n: nat, m': M)
    requires Place(v, m2.pc, Cat(I(LoadEaxRcx), BumpCode(up))).InPlace? && Place(v, m2.pc + 7, I(PopRax)).InPlace?
    requires SameStack(m, m1) && Pushed(m1, m2, old_) && Good(m, st) && Good(m1, st) && Good(m2, st) && m2.rcx == SlotAddr(m.rbp, x)
    requires x < |st| && st[x].Set? && U32(Bump(U32(st[x].v), up)) == U32(new_)
    ensures Reach(v, m2, n, m') && m'.pc == m2.pc + 8 && m'.rax == old_
    ensures Good(m', st[x := Set(new_)]) && Kept(m, m', |st|)
  {
    var c, m3 := PrefixSteps(v, m2, st, x, up, new_);
    var d, m4 := PopRaxStep(v, m1, m2, m3, old_, st, st[x := Set(new_)]);
    Then(v, m2, c, m3, d, m4);
    n, m' := c + d, m4;
  }

  lemma {:induction false} PostfixPlaces(v: Env, pos: int, pre: Code)
    requires Place(v, pos, Cat(I(LoadEaxRcx), Cat(I(PushRax), Cat(pre, I(PopRax))))).InPlace? && Size(pre) == 7
    ensures Place(v, pos, I(LoadEaxRcx)).InPlace? && Place(v, pos + 2, I(PushRax)).InPlace?
    ensures Place(v, pos + 3, pre).InPlace? && Place(v, pos + 10, I(PopRax)).InPlace?
  {
    Split(v, pos, I(LoadEaxRcx), Cat(I(PushRax), Cat(pre, I(PopRax))));
    Split(v, pos + 2, I(PushRax), Cat(pre, I(PopRax)));
    Split(v, pos + 3, pre, I(PopRax));
  }

  /** The old value is saved over the update and popped as the result. */
  lemma {:induction false} PostfixSteps(v: Env, m: M, st: Store, x: nat, up: bool, new_: int) returns (n: nat, m': M)
    requires Place(v, m.pc, PostfixCode(up)).InPlace? && Good(m, st)
    requires x < |st| && st[x].Set? && m.rcx == SlotAddr(m.rbp, x) && U32(Bump(U32(st[x].v), up)) == U32(new_)
    ensures Reach(v, m, n, m') && m'.pc == m.pc + 11 && m'.rax == U32(st[x].v)
    ensures Good(m', st[x := Set(new_)]) && Kept(m, m', |st|)
  {
    PrefixSize(up);
    PostfixPlaces(v, m.pc, Cat(I(LoadEaxRcx), BumpCode(up)));
    var b, m1, m2 := PostfixSave(v, m, st, x);
    var d, m4 := PostfixRestore(v, m, m1, m2, st, x, up, U32(st[x].v), new_);
    Then(v, m, b, m2, d, m4);
    n, m' := b + d, m4;
  }

  lemma {:induction false} PrefixSize(up: bool)
    ensures Size(Cat(I(LoadEaxRcx), BumpCode(up))) == 7
  {
    assert Size(BumpCode(up)) == 5;
  }

  lemma {:induction false} IncDecShape(v: Env, pos: int, x: nat, tail: Code)
    ensures Size(AddressCode(x)) == Len(LeaRax(Off(x))) + 2
    ensures Size(Cat(I(LoadEax(Off(x))), Cat(AddressCode(x), tail)))
      == Len(LoadEax(Off(x))) + Size(AddressCode(x)) + Size(tail)
    ensures Place(v, pos, Cat(I(LoadEax(Off(x))), Cat(AddressCode(x), tail))).InPlace? ==>
      Place(v, pos, I(LoadEax(Off(x)))).InPlace? && Place(v, pos + Len(LoadEax(Off(x))), AddressCode(x)).InPlace?
      && Place(v, pos + Len(LoadEax(Off(x))) + Size(AddressCode(x)), tail).InPlace?
  {
    hide Place, Size;
    SizeI(LoadEax(Off(x))); SizeI(LeaRax(Off(x))); SizeI(PushRax); SizeI(PopRcx);
    Parts3(v, pos, I(LeaRax(Off(x))), I(PushRax), I(PopRcx));
    Parts3(v, pos, I(LoadEax(Off(x))), AddressCode(x), tail);
  }

  lemma {:induction false} IncDecTailSize(v: Env, up: bool)
    ensures Size(PostfixCode(up)) == 11
  {
    hide Place, Size;
    PrefixSize(up);
    SizeI(LoadEaxRcx); SizeI(PushRax); SizeI(PopRax);
    Parts4(v, 0, I(LoadEaxRcx), I(PushRax), Cat(I(LoadEaxRcx), BumpCode(up)), I(PopRax));
  }

  /** Loading x and taking its address. */
  lemma {:induction false} IncDecStart(v: Env, m: M, st: Store, x: nat, tail: Code) returns (n: nat, m': M)
    requires Place(v, m.pc, Cat(I(LoadEax(Off(x))), Cat(AddressCode(x), tail))).InPlace?
    requires Good(m, st) && x < |st| && st[x].Set?
    ensures Reach(v, m, n, m') && m'.rcx == SlotAddr(m'.rbp, x) && Good(m', st) && Kept(m, m', |st|)
    ensures m'.pc == m.pc + Len(LoadEax(Off(x))) + Size(AddressCode(x)) && Place(v, m'.pc, tail).InPlace?
  {
    hide Place, Size, Good, Reach, U32;
    IncDecShape(v, m.pc, x, tail);
    var a, m1 := LoadStep(v, m, st, x);
    KeptSame(m, m1, st);
    var b, m2 := AddressSteps(v, m1, st, x);
    Then(v, m, a, m1, b, m2);
    KeptThen(m, m1, m2, |st|);
    n, m' := a + b, m2;
  }

  lemma {:induction false} BumpValue(x: int, up: bool)
    ensures U32(Bump(U32(x), up)) == U32(Wrap(Bump(Wrap(x), up)))
    ensures U32(U32(x)) == U32(Wrap(x))
  {
    U32OfU32(x);
    U32Add(U32(x), 1, Wrap(x), 1);
  }

  lemma {:induction false} SimIncDec(v: Env, m: M, st: Store, x: nat, up: bool, postfix: bool) returns (n: nat, m': M)
    requires Place(v, m.pc, IncDecCode(x, up, postfix)).InPlace? && Good(m, st)
    ensures x < |st| && st[x].Set? ==>
      ValueDone(v, ZeroExt, m, n, m', m.pc + Size(IncDecCode(x, up, postfix)),
        if postfix then Wrap(st[x].v) else Wrap(Bump(Wrap(st[x].v), up)), st[x := Set(Wrap(Bump(Wrap(st[x].v), up)))])
  {
    hide Place, Size, Good, Kept, Reach, U32, Wrap;
    n, m' := 0, m;
    if x < |st| && st[x].Set? {
      var tail := if postfix then PostfixCode(up) else Cat(I(LoadEaxRcx), BumpCode(up));
      var new_ := Wrap(Bump(Wrap(st[x].v), up));
      var st' := st[x := Set(new_)];
      IncDecShape(v, m.pc, x, tail);
      var a, m1 := IncDecStart(v, m, st, x, tail);
      BumpValue(st[x].v, up);
      PrefixSize(up); IncDecTailSize(v, up);
      var end := m.pc + Size(IncDecCode(x, up, postfix));
      if postfix {
        var b, m2 := PostfixSteps(v, m1, st, x, up, new_);
        ValueLater(v, ZeroExt, m, a, m1, b, m2, end, Wrap(st[x].v), st');
        n, m' := a + b, m2;
      } else {
        var b, m2 := PrefixSteps(v, m1, st, x, up, new_);
        ValueLater(v, ZeroExt, m, a, m1, b, m2, end, new_, st');
        n, m' := a + b, m2;
      }
    }
  }
}
