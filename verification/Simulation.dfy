/** The simulation theorem: by induction on fuel and on syntax, generated code
    ends where and how the source program ends. */
module Simulation {
  import opened Words
  import opened X86
  import opened CSource
  import opened CodeGen
  import opened Blocks
  import opened Frames
  import opened Snippets
  import opened Arguments
  import opened Statements
  import opened Activation

  // ----- Expressions -----

  lemma {:induction false} SimExpr(v: Env, p: Program, nx: seq<int>, fuel: nat, st: Store, e: Expr, m: M) returns (n: nat, m': M)
    requires Loaded(v, p, nx).InPlace? && Place(v, m.pc, ECode(e)).InPlace? && Faithful(e) && Good(m, st)
    ensures ExprDone(v, FillOf(e), m, n, m', m.pc + Size(ECode(e)), fuel, Eval(p, fuel, st, e))
    decreases fuel, 0, e, 1
  {
    hide Place, Size, Good, Kept, Reach, U32, Ext, Wide;
    match e {
      case Const(c) =>
        WrapInt(c);
        n, m' := SimConst(v, m, st, c);
      case Var(x) =>
        n, m' := 0, m;
        if x < |st| && st[x].Set? { n, m' := SimVar(v, m, st, x); }
      case Bin(op, l, r) => n, m' := SimBin(v, p, nx, fuel, st, op, l, r, m);
      case LAnd(l, r) => n, m' := SimLogic(v, p, nx, fuel, st, true, l, r, e, m);
      case LOr(l, r) => n, m' := SimLogic(v, p, nx, fuel, st, false, l, r, e, m);
      case Comma(l, r) => n, m' := SimComma(v, p, nx, fuel, st, l, r, m);
      case Cond(c, t, f) => n, m' := SimCond(v, p, nx, fuel, st, c, t, f, m);
      case Neg(e1) => n, m' := SimNeg(v, p, nx, fuel, st, e1, m);
      case BitNot(e1) => n, m' := SimBitNot(v, p, nx, fuel, st, e1, m);
      case Not(e1) => n, m' := SimNot(v, p, nx, fuel, st, e1, m);
      case Assign(x, e1) => n, m' := SimAssign(v, p, nx, fuel, st, x, e1, m);
      case IncDec(x, up, postfix) => n, m' := SimIncDec(v, m, st, x, up, postfix);
      case Call(fn, args) => n, m' := SimCall(v, p, nx, fuel, st, fn, args, m);
    }
  }

  lemma {:induction false} SimBin(v: Env, p: Program, nx: seq<int>, fuel: nat, st: Store, op: BinOp, l: Expr, r: Expr, m: M)
    returns (n: nat, m': M)
    requires Loaded(v, p, nx).InPlace? && Place(v, m.pc, ECode(Bin(op, l, r))).InPlace?
    requires Faithful(Bin(op, l, r)) && Good(m, st)
    ensures ExprDone(v, FillOf(Bin(op, l, r)), m, n, m', m.pc + Size(ECode(Bin(op, l, r))), fuel, Eval(p, fuel, st, Bin(op, l, r)))
    decreases fuel, 0, Bin(op, l, r), 0
  {
    hide Place, Size, Good, Kept, Pushed, Reach, U32, Ext, Apply, Wide, Extended, OpCode, Loaded, HaltDone;
    ExtendedFill(l); ExtendedFill(r);
    var w := Wide(l) || Wide(r);
    BinShape(v, m.pc, ECode(l), ECode(r), OpCode(op, w));
    var a, m1 := SimExpr(v, p, nx, fuel, st, l, m);
    n, m' := a, m1;
    match Eval(p, fuel, st, l) {
      case Halted(h) =>
      case Value(x, st1) =>
        var b, m2 := PushStep(v, m1, st1);
        var c, m3 := SimExpr(v, p, nx, fuel, st1, r, m2);
        Then(v, m, a, m1, b, m2);
        match Eval(p, fuel, st1, r) {
          case Halted(h) =>
            HaltLater(v, m, a + b, m2, c, m3, fuel, h);
            n, m' := a + b + c, m3;
          case Value(y, st2) =>
            Then(v, m, a + b, m2, c, m3);
            var d, m4 := SimBinEnd(v, m1, m2, m3, op, w, x, y, st1, st2);
            n, m' := BinFinish(v, m, a + b + c, m1, m3, d, m4, op, w, x, y, st2, m3.pc + 1 + Size(OpCode(op, w)), fuel);
        }
    }
  }

  function BinFill(op: BinOp, w: bool): Fill { if op.Cmp? then SignExt else if w then Loose else ZeroExt }

  lemma {:induction false} BinFinish(v: Env, m: M, a: nat, m1: M, m3: M, d: nat, m4: M, op: BinOp, w: bool, x: int, y: int, st: Store, end: int,
                  fuel: nat)
    returns (n: nat, m': M)
    requires Reach(v, m, a, m3) && Kept(m, m1, |st|)
    requires BinEnded(v, m1, m3, d, m4, op, w, end, st, Apply(op, x, y))
    ensures match Apply(op, x, y)
      case OpHalt(h) => HaltDone(v, m, n, m', fuel, h)
      case Result(z) => ValueDone(v, BinFill(op, w), m, n, m', end, z, st)
  {
    ApplyHalts(op, x, y);
    n, m' := a + d, m4;
    match Apply(op, x, y) {
      case OpHalt(h) => HaltLater(v, m, a, m3, d, m4, fuel, h);
      case Result(z) =>
        if op.Cmp? { ExtFacts(z); }
        Then(v, m, a, m3, d, m4);
        KeptThen(m, m1, m4, |st|);
    }
  }

  lemma {:induction false} SimLogic(v: Env, p: Program, nx: seq<int>, fuel: nat, st: Store, conj: bool, l: Expr, r: Expr,
                                    e: Expr, m: M)
    returns (n: nat, m': M)
    requires e == if conj then LAnd(l, r) else LOr(l, r)
    requires Loaded(v, p, nx).InPlace? && Place(v, m.pc, ECode(e)).InPlace? && Faithful(e) && Good(m, st)
    ensures ExprDone(v, SignExt, m, n, m', m.pc + Size(ECode(e)), fuel, Eval(p, fuel, st, e))
    decreases fuel, 0, e, 0
  {
    hide Place, Size, Good, Kept, Pushed, Reach, U32, Ext, Extended, Loaded, HaltDone;
    var cc, c := if conj then Eq else Ne, if conj then 1 else 0;
    LogicShape(v, m.pc, ECode(l), ECode(r), cc, c);
    var a, m1 := SimExpr(v, p, nx, fuel, st, l, m);
    n, m' := a, m1;
    match Eval(p, fuel, st, l) {
      case Halted(h) =>
      case Value(x, st1) =>
        var b, m2 := LogicTest(v, m1, ECode(r), cc, c, x, st1);
        Then(v, m, a, m1, b, m2);
        KeptThen(m, m1, m2, |st1|);
        if conj == (x == 0) {
          LogicTailPlace(v, m1.pc + 8 + Size(ECode(r)), cc, c);
          var d, m3 := LogicTailSteps(v, m2, m1.pc + 8 + Size(ECode(r)) + 8, c, true, st1);
          ValueLater(v, SignExt, m, a + b, m2, d, m3, m.pc + Size(ECode(e)), 1 - c, st1);
          n, m' := a + b + d, m3;
        } else {
          var d, m3 := SimExpr(v, p, nx, fuel, st1, r, m2);
          n, m' := LogicFinish(v, m, a + b, m2, d, m3, cc, c, FillOf(r), fuel, m1.pc + 8 + Size(ECode(r)),
                               m.pc + Size(ECode(e)), Eval(p, fuel, st1, r));
        }
    }
  }

  /** The value of && or || once the right operand has run. */
  lemma {:induction false} LogicFinish(v: Env, m: M, a: nat, m2: M, d: nat, m3: M, cc: Cc, c: int, f: Fill, fuel: nat,
                                       at: int, end: int, r: Res)
    returns (n: nat, m': M)
    requires Reach(v, m, a, m2) && (r.Value? ==> IsInt(r.v) && Kept(m, m2, |r.st|))
    requires ExprDone(v, f, m2, d, m3, at, fuel, r)
    requires Place(v, at, LogicEnd(cc, c)).InPlace? && end == at + 23
    requires (cc.Eq? && c == 1) || (cc.Ne? && c == 0)
    ensures ExprDone(v, SignExt, m, n, m', end, fuel,
      match r case Halted(h) => Halted(h) case Value(y, st) => Value(BoolInt(y != 0), st))
  {
    hide Place, Size, Good, Kept, Reach, U32, Ext;
    match r {
      case Halted(h) =>
        HaltLater(v, m, a, m2, d, m3, fuel, h);
        n, m' := a + d, m3;
      case Value(y, st) =>
        Then(v, m, a, m2, d, m3);
        KeptThen(m, m2, m3, |st|);
        var b, m4 := LogicEndSteps(v, m3, cc, c, y, st);
        ValueLater(v, SignExt, m, a + d, m3, b, m4, end, BoolInt(y != 0), st);
        n, m' := a + d + b, m4;
    }
  }

  lemma {:induction false} SimComma(v: Env, p: Program, nx: seq<int>, fuel: nat, st: Store, l: Expr, r: Expr, m: M)
    returns (n: nat, m': M)
    requires Loaded(v, p, nx).InPlace? && Place(v, m.pc, ECode(Comma(l, r))).InPlace?
    requires Faithful(l) && Faithful(r) && Good(m, st)
    ensures ExprDone(v, FillOf(r), m, n, m', m.pc + Size(ECode(Comma(l, r))), fuel, Eval(p, fuel, st, Comma(l, r)))
    decreases fuel, 0, Comma(l, r), 0
  {
    hide Place, Size, Good, Kept, Reach, U32, Ext, Extended, Faithful, Loaded, HaltDone;
    Parts2(v, m.pc, ECode(l), ECode(r));
    var a, m1 := SimExpr(v, p, nx, fuel, st, l, m);
    n, m' := a, m1;
    match Eval(p, fuel, st, l) {
      case Halted(h) =>
      case Value(x, st1) =>
        var b, m2 := SimExpr(v, p, nx, fuel, st1, r, m1);
        ExprLater(v, FillOf(r), m, a, m1, b, m2, m1.pc + Size(ECode(r)), fuel, Eval(p, fuel, st1, r));
        n, m' := a + b, m2;
    }
  }

  lemma {:induction false} SimCond(v: Env, p: Program, nx: seq<int>, fuel: nat, st: Store, c: Expr, t: Expr, f: Expr, m: M)
    returns (n: nat, m': M)
    requires Loaded(v, p, nx).InPlace? && Place(v, m.pc, ECode(Cond(c, t, f))).InPlace?
    requires Faithful(c) && Faithful(t) && Faithful(f) && Good(m, st)
    ensures ExprDone(v, FillOf(Cond(c, t, f)), m, n, m', m.pc + Size(ECode(Cond(c, t, f))), fuel,
      Eval(p, fuel, st, Cond(c, t, f)))
    decreases fuel, 0, Cond(c, t, f), 0
  {
    hide Place, Size, Good, Kept, Reach, U32, Ext, Extended, Faithful, Loaded, HaltDone;
    CondShape(v, m.pc, ECode(c), ECode(t), ECode(f));
    var a, m1 := SimExpr(v, p, nx, fuel, st, c, m);
    n, m' := a, m1;
    match Eval(p, fuel, st, c) {
      case Halted(h) =>
      case Value(x, st1) =>
        var b, m2 := CondTest(v, m1, ECode(t), x, st1);
        Then(v, m, a, m1, b, m2);
        KeptThen(m, m1, m2, |st1|);
        var end := m.pc + Size(ECode(Cond(c, t, f)));
        var fill := FillOf(Cond(c, t, f));
        CondElseShape(v, m1.pc + 8 + Size(ECode(t)), ECode(f));
        if x != 0 {
          var d, m3 := SimExpr(v, p, nx, fuel, st1, t, m2);
          n, m' := CondFinish(v, m, a + b, m2, d, m3, true, ECode(f), FillOf(t), fill, fuel, m3.pc, end, Eval(p, fuel, st1, t));
        } else {
          var d, m3 := SimExpr(v, p, nx, fuel, st1, f, m2);
          n, m' := CondFinish(v, m, a + b, m2, d, m3, false, ECode(f), FillOf(f), fill, fuel, m3.pc, end, Eval(p, fuel, st1, f));
        }
    }
  }

  /** The end of either arm. */
  lemma {:induction false} CondFinish(v: Env, m: M, a: nat, m2: M, d: nat, m3: M, first: bool, f: Code, fill1: Fill,
                                      fill: Fill, fuel: nat, at: int, end: int, r: Res)
    returns (n: nat, m': M)
    requires Reach(v, m, a, m2) && (r.Value? ==> Kept(m, m2, |r.st|)) && ExprDone(v, fill1, m2, d, m3, at, fuel, r)
    requires fill == fill1 || fill.Loose?
    requires r.Value? && first ==> Place(v, at, CondElse(f)).InPlace? && end == at + 6 + Size(f) + 2
    requires r.Value? && !first ==>
      Place(v, at, I(PushRax)).InPlace? && Place(v, at + 1, I(PopRax)).InPlace? && end == at + 2
    ensures ExprDone(v, fill, m, n, m', end, fuel, r)
  {
    hide Place, Size, Good, Kept, Reach, U32, Ext;
    match r {
      case Halted(h) =>
        HaltLater(v, m, a, m2, d, m3, fuel, h);
        n, m' := a + d, m3;
      case Value(y, st) =>
        var b, m4 := 0, m3;
        if first { b, m4 := CondThenEnd(v, m3, f, st); } else { b, m4 := CondElseEnd(v, m3, st); }
        ValueLater(v, fill1, m, a, m2, d, m3, at, y, st);
        Then(v, m, a + d, m3, b, m4);
        KeptThen(m, m3, m4, |st|);
        n, m' := a + d + b, m4;
    }
  }

  /** Code that follows a computed value and computes another one from it. */
  lemma {:induction false} SimThen(v: Env, f: Fill, m: M, a: nat, m1: M, b: nat, m2: M, end: int, x: int, st: Store,
                                   f1: Fill, x1: int, at: int)
    requires ValueDone(v, f1, m, a, m1, at, x1, st) && ValueDone(v, f, m1, b, m2, end, x, st)
    ensures ValueDone(v, f, m, a + b, m2, end, x, st)
  {
    ValueLater(v, f, m, a, m1, b, m2, end, x, st);
  }

  lemma {:induction false} SimNeg(v: Env, p: Program, nx: seq<int>, fuel: nat, st: Store, e: Expr, m: M)
    returns (n: nat, m': M)
    requires Loaded(v, p, nx).InPlace? && Place(v, m.pc, ECode(Neg(e))).InPlace? && Faithful(e) && Good(m, st)
    ensures ExprDone(v, FillOf(Neg(e)), m, n, m', m.pc + Size(ECode(Neg(e))), fuel, Eval(p, fuel, st, Neg(e)))
    decreases fuel, 0, Neg(e), 0
  {
    hide Place, Size, Good, Kept, Reach, U32, Ext, Faithful, Loaded, HaltDone, Wrap, Wide;
    Parts2(v, m.pc, ECode(e), I(NegRax)); SizeI(NegRax);
    var a, m1 := SimExpr(v, p, nx, fuel, st, e, m);
    n, m' := a, m1;
    match Eval(p, fuel, st, e) {
      case Halted(h) =>
      case Value(x, st1) =>
        if e.Const? && IsInt(e.c) { WrapInt(e.c); }
        var b, m2 := NegStep(v, FillOf(e), m1, x, st1);
        SimThen(v, FillOf(Neg(e)), m, a, m1, b, m2, m1.pc + 3, Wrap(-x), st1, FillOf(e), x, m1.pc);
        n, m' := a + b, m2;
    }
  }

  lemma {:induction false} SimBitNot(v: Env, p: Program, nx: seq<int>, fuel: nat, st: Store, e: Expr, m: M)
    returns (n: nat, m': M)
    requires Loaded(v, p, nx).InPlace? && Place(v, m.pc, ECode(BitNot(e))).InPlace? && Faithful(e) && Good(m, st)
    ensures ExprDone(v, FillOf(BitNot(e)), m, n, m', m.pc + Size(ECode(BitNot(e))), fuel, Eval(p, fuel, st, BitNot(e)))
    decreases fuel, 0, BitNot(e), 0
  {
    hide Place, Size, Good, Kept, Reach, U32, Ext, Faithful, Wide, Extended, Loaded, HaltDone;
    Parts2(v, m.pc, ECode(e), I(NotRax(Wide(e)))); SizeI(NotRax(Wide(e)));
    var a, m1 := SimExpr(v, p, nx, fuel, st, e, m);
    n, m' := a, m1;
    match Eval(p, fuel, st, e) {
      case Halted(h) =>
      case Value(x, st1) =>
        var b, m2 := BitNotStep(v, m1, Wide(e), x, st1);
        SimThen(v, FillOf(BitNot(e)), m, a, m1, b, m2, m1.pc + Len(NotRax(Wide(e))), Wrap(-1 - x), st1, FillOf(e), x, m1.pc);
        n, m' := a + b, m2;
    }
  }

  lemma {:induction false} SimNot(v: Env, p: Program, nx: seq<int>, fuel: nat, st: Store, e: Expr, m: M)
    returns (n: nat, m': M)
    requires Loaded(v, p, nx).InPlace? && Place(v, m.pc, ECode(Not(e))).InPlace? && FaithfulTest(e) && Good(m, st)
    ensures ExprDone(v, SignExt, m, n, m', m.pc + Size(ECode(Not(e))), fuel, Eval(p, fuel, st, Not(e)))
    decreases fuel, 0, Not(e), 0
  {
    hide Place, Size, Good, Kept, Reach, U32, Ext, Faithful, Wide, Extended, Loaded, HaltDone;
    var t := TestRax(Wide(e));
    Parts3(v, m.pc, ECode(e), I(t), SetCode(Eq)); SizeI(t);
    Parts2(v, 0, I(Setcc(Eq)), I(MovzxAl)); SizeI(Setcc(Eq)); SizeI(MovzxAl);
    var a, m1 := SimExpr(v, p, nx, fuel, st, e, m);
    n, m' := a, m1;
    match Eval(p, fuel, st, e) {
      case Halted(h) =>
      case Value(x, st1) =>
        ExtendedFill(e);
        var b, m2 := NotSteps(v, m1, Wide(e), x, st1);
        SimThen(v, SignExt, m, a, m1, b, m2, m1.pc + Len(t) + 6, BoolInt(x == 0), st1, FillOf(e), x, m1.pc);
        n, m' := a + b, m2;
    }
  }

  lemma {:induction false} SimAssign(v: Env, p: Program, nx: seq<int>, fuel: nat, st: Store, x: nat, e: Expr, m: M)
    returns (n: nat, m': M)
    requires Loaded(v, p, nx).InPlace? && Place(v, m.pc, ECode(Assign(x, e))).InPlace? && Faithful(e) && Good(m, st)
    ensures ExprDone(v, FillOf(e), m, n, m', m.pc + Size(ECode(Assign(x, e))), fuel, Eval(p, fuel, st, Assign(x, e)))
    decreases fuel, 0, Assign(x, e), 0
  {
    hide Place, Size, Good, Kept, Reach, U32, Ext, Faithful, Wide, Extended, Loaded;
    Parts2(v, m.pc, ECode(e), I(StoreEax(Off(x)))); SizeI(StoreEax(Off(x)));
    var a, m1 := SimExpr(v, p, nx, fuel, st, e, m);
    n, m' := a, m1;
    match Eval(p, fuel, st, e) {
      case Halted(h) =>
      case Value(y, st1) =>
        if x < |st1| {
          var b, m2 := StoreStep(v, m1, st1, x, y);
          Then(v, m, a, m1, b, m2);
          KeptThen(m, m1, m2, |st1|);
          n, m' := a + b, m2;
        }
    }
  }

  // ----- Arguments -----

  lemma {:induction false} SimLate(v: Env, p: Program, nx: seq<int>, fuel: nat, st: Store, args: Args, k: nat, m: M)
    returns (n: nat, m': M)
    requires Loaded(v, p, nx).InPlace? && Place(v, m.pc, PushLate(args, k)).InPlace? && FaithfulArgs(args) && Good(m, st)
    ensures LateDone(v, m, n, m', m.pc + Size(PushLate(args, k)), fuel, EvalStack(p, fuel, st, args, k))
    decreases fuel, 0, args, 0
  {
    hide Place, Good, Kept, Reach, U32, Ext, Faithful, Extended, Grown, Ascending, Eval, Size, ECode, Loaded, Descending, HaltDone;
    SizeNil(); SizeI(PushRax);
    match args {
      case ANil =>
        NothingPushed(v, m, st);
        n, m' := 0, m;
      case ACons(a, tl) =>
        Parts2(v, m.pc, PushLate(tl, k + 1), if k < 6 then Nil else Cat(ECode(a), I(PushRax)));
        var s1, m1 := SimLate(v, p, nx, fuel, st, tl, k + 1, m);
        n, m' := s1, m1;
        match EvalStack(p, fuel, st, tl, k + 1) {
          case ArgsHalted(h) =>
          case Values(vs, st1) =>
            if k >= 6 {
              Parts2(v, m1.pc, ECode(a), I(PushRax));
              var s2, m2 := SimExpr(v, p, nx, fuel, st1, a, m1);
              match Eval(p, fuel, st1, a) {
                case Halted(h) =>
                  HaltLater(v, m, s1, m1, s2, m2, fuel, h);
                  n, m' := s1 + s2, m2;
                case Value(x, st2) =>
                  n, m' := LatePush(v, m, s1, m1, s2, m2, m1.pc + Size(ECode(a)), FillOf(a), vs, x, st, st1, st2);
              }
            }
        }
    }
  }

  lemma {:induction false} SimEarly(v: Env, p: Program, nx: seq<int>, fuel: nat, st: Store, args: Args, k: nat, m: M)
    returns (n: nat, m': M)
    requires Loaded(v, p, nx).InPlace? && Place(v, m.pc, PushEarly(args, k)).InPlace? && FaithfulArgs(args) && Good(m, st)
    ensures EarlyDone(v, m, n, m', m.pc + Size(PushEarly(args, k)), fuel, EvalRegs(p, fuel, st, args, k))
    decreases fuel, 0, args, 0
  {
    hide Place, Good, Kept, Reach, U32, Ext, Faithful, Extended, Eval, Pushed, Size, Grown, Descending, HaltDone, ECode, Loaded;
    if args.ANil? || k >= 6 {
      SizeNil();
      NothingPushed(v, m, st);
      n, m' := 0, m;
    } else {
      var a, tl := args.hd, args.tl;
      Parts3(v, m.pc, ECode(a), I(PushRax), PushEarly(tl, k + 1)); SizeI(PushRax);
      var s1, m1 := SimExpr(v, p, nx, fuel, st, a, m);
      n, m' := s1, m1;
      match Eval(p, fuel, st, a) {
        case Halted(h) =>
        case Value(x, st1) =>
          var s2, m2 := PushStep(v, m1, st1);
          var s3, m3 := SimEarly(v, p, nx, fuel, st1, tl, k + 1, m2);
          EarlyNext(v, m, s1, m1, s2, m2, s3, m3, FillOf(a), m1.pc, m.pc + Size(PushEarly(args, k)), x, fuel, st, st1,
                    EvalRegs(p, fuel, st1, tl, k + 1));
          n, m' := s1 + s2 + s3, m3;
      }
    }
  }

  // ----- Calls -----

  lemma {:induction false} SimCall(v: Env, p: Program, nx: seq<int>, fuel: nat, st: Store, fn: nat, args: Args, m: M)
    returns (n: nat, m': M)
    requires Loaded(v, p, nx).InPlace? && Place(v, m.pc, ECode(Call(fn, args))).InPlace?
    requires Count(args) <= 14 && FaithfulArgs(args) && Good(m, st)
    ensures ExprDone(v, SignExt, m, n, m', m.pc + Size(ECode(Call(fn, args))), fuel, Eval(p, fuel, st, Call(fn, args)))
    decreases fuel, 0, Call(fn, args), 0
  {
    hide Place, Size, Good, Kept, Reach, CallFn, CallCode;
    n, m' := SimCallFn(v, p, nx, fuel, st, fn, args, m);
    match CallFn(p, fuel, st, fn, args) {
      case CallHalted(h) =>
      case Called(sv, st1) => if sv.Set? { ExtFacts(sv.v); }
    }
  }

  lemma {:induction false} SimCallFn(v: Env, p: Program, nx: seq<int>, fuel: nat, st: Store, fn: nat, args: Args, m: M)
    returns (n: nat, m': M)
    requires Loaded(v, p, nx).InPlace? && Place(v, m.pc, CallCode(fn, args)).InPlace?
    requires Count(args) <= 14 && FaithfulArgs(args) && Good(m, st)
    ensures CallDone(v, m, n, m', m.pc + Size(CallCode(fn, args)), fuel, CallFn(p, fuel, st, fn, args))
    decreases fuel, 0, args, 1
  {
    hide Place, Size, Good, Kept, Reach, U32, Ext, Faithful, FaithfulArgs, Grown, Ascending, Descending, EvalStack, EvalRegs,
      PushLate, PushEarly, DropCode, RunFunction, EntryStore;
    var c := Count(args);
    var k := if c < 6 then c else 6;
    CallShape(v, m.pc, PushLate(args, 0), PushEarly(args, 0), k, fn, c);
    var s1, m1 := SimLate(v, p, nx, fuel, st, args, 0, m);
    n, m' := s1, m1;
    match EvalStack(p, fuel, st, args, 0) {
      case ArgsHalted(h) =>
      case Values(late, st1) =>
        var s2, m2 := SimEarly(v, p, nx, fuel, st1, args, 0, m1);
        match EvalRegs(p, fuel, st1, args, 0) {
          case ArgsHalted(h) =>
            HaltLater(v, m, s1, m1, s2, m2, fuel, h);
            n, m' := s1 + s2, m2;
          case Values(early, st2) =>
            ArgCounts(p, fuel, st, args, 0);
            ArgCounts(p, fuel, st1, args, 0);
            Then(v, m, s1, m1, s2, m2);
            n, m' := SimCallBody(v, p, nx, fuel, st, st2, fn, args, early, late, m, s1 + s2, m1, m2,
                                 m.pc + Size(CallCode(fn, args)));
        }
    }
  }

  /** The arguments are on the stack; pop the first ones, call, clean up. */
  lemma {:induction false} SimCallBody(v: Env, p: Program, nx: seq<int>, fuel: nat, st0: Store, st: Store, fn: nat, args: Args,
                                       early: seq<int>, late: seq<int>, m: M, a: nat, m1: M, m2: M, end: int)
    returns (n: nat, m': M)
    requires Loaded(v, p, nx).InPlace? && Good(m, st0) && |st0| == |st| && Good(m2, st) && Reach(v, m, a, m2)
    requires Grown(m, m1, |late|, |st|) && Ascending(m1, late) && Grown(m1, m2, |early|, |st|) && Descending(m2, early)
    requires |early| == (if Count(args) < 6 then Count(args) else 6)
    requires |late| == (if Count(args) <= 6 then 0 else Count(args) - 6)
    requires Place(v, m2.pc, PopArgs(|early|)).InPlace? && Place(v, m2.pc + 4 * |early|, CallF(fn)).InPlace?
    requires Place(v, m2.pc + 4 * |early| + 5, DropCode(Count(args))).InPlace?
    requires Place(v, m2.pc + 4 * |early| + 5 + Size(DropCode(Count(args))), I(Movsxd)).InPlace?
    requires end == m2.pc + 4 * |early| + 5 + Size(DropCode(Count(args))) + 3
    ensures CallDone(v, m, n, m', end, fuel, Invoke(p, fuel, st, fn, early + late))
    decreases fuel, 0, args, 0
  {
    hide Place, Size, Good, Kept, Reach, U32, Ext, Grown, Ascending, Descending, DropCode, RunFunction, EntryStore, Rd64, S32,
      ArgsReady, SameFrom, Aligned;
    n, m' := a, m2;
    if fn < |p| && |early + late| == p[fn].nparams <= p[fn].slots && fuel > 0 {
      var b, m4 := CallEnter(v, m, m1, m2, fn, early, late, st0, st);
      Then(v, m, a, m2, b, m4);
      EntryAt(v, p, nx, fn);
      var c, m5 := SimFunction(v, p, nx, fuel - 1, fn, early + late, m4);
      var o := RunFunction(p, fuel - 1, fn, EntryStore(p[fn], early + late));
      n, m' := a + b + c, m5;
      if o.Stopped? {
        HaltPaid(v, m, a + b, m4, c, m5, fuel, o.h);
      } else if o.Returned? || o.Normal? {
        var d, m6 := DropSteps(v, m5, Count(args));
        Then(v, m, a + b, m4, c, m5);
        Then(v, m, a + b + c, m5, d, m6);
        GrownRsp(m, m1, |late|, |st|);
        ReturnStack(v, m4, c, m5);
        CallStack(m, m1, m2, m4, m5, m6, |early|, |late|, st0, st);
        if o.Returned? && o.v.Set? { ValueBack(m5.rax, o.v.v); }
        n, m' := a + b + c + d, m6;
      }
    }
  }

  lemma {:induction false} EntryAt(v: Env, p: Program, nx: seq<int>, fn: nat)
    requires Loaded(v, p, nx).InPlace? && fn < |p|
    ensures |v.entry| == |p| == |nx| && FunctionOk(v, p[fn], v.entry[fn], nx[fn])
  {
    hide FunctionOk;
  }

  lemma {:induction false} HaltPaid(v: Env, m: M, a: nat, m1: M, b: nat, m2: M, fuel: nat, h: Halt)
    requires Reach(v, m, a, m1) && fuel > 0 && a >= 1 && HaltDone(v, m1, b, m2, fuel - 1, h)
    ensures HaltDone(v, m, a + b, m2, fuel, h)
  {
    hide Reach;
    if h.Trap? || h.Timeout? { Then(v, m, a, m1, b, m2); }
  }

  lemma {:induction false} ReturnStack(v: Env, m: M, n: nat, m': M)
    requires ReturnedTo(v, m, n, m')
    ensures SameFrom(m, m', m.rsp)
  {
  }

  lemma {:induction false} ValueBack(rax: int, x: int)
    requires IsInt(x) && U32(rax) == U32(x)
    ensures Ext(S32(rax)) == Ext(x)
  {
    S32Unique(rax, x);
    U32OfInt(x);
  }

  // ----- Functions -----

  function GotosOf(f: Func, next: int): map<string, int> { BodyCode(f, next).g.gotos }

  function BodyCtx(f: Func, next: int): Ctx { Ctx(-1, -1, GotosOf(f, next)) }

  lemma {:induction false} SimFunction(v: Env, p: Program, nx: seq<int>, fuel: nat, fn: nat, vals: seq<int>, m: M)
    returns (n: nat, m': M)
    requires Loaded(v, p, nx).InPlace? && fn < |p| && |vals| == p[fn].nparams <= p[fn].slots
    requires m.pc == v.entry[fn] && Aligned(m.rsp) && ArgsReady(m, vals)
    ensures FunctionDone(v, m, n, m', fuel, RunFunction(p, fuel, fn, EntryStore(p[fn], vals)))
    decreases fuel, 3
  {
    hide Place, Size, Good, Kept, Reach, U32, RunBody, EntryStore, ArgsReady, Aligned, PrologueCode, SCode, EndsInC3,
      Left, ReturnedTo, InFrame, EPILOGUE;
    EntryAt(v, p, nx, fn);
    var f, next := p[fn], nx[fn];
    var body := BodyCode(f, next).code;
    var main := Cat(PrologueCode(f), body);
    var tail := if EndsInC3(main) then Nil else EPILOGUE;
    Parts2(v, m.pc, main, tail);
    Parts2(v, m.pc, PrologueCode(f), body);
    var a, m1 := PrologueSteps(v, m, f, vals);
    var st := EntryStore(f, vals);
    var b, m2 := SimRun(v, p, nx, fuel, fn, Top, st, m1, m1.pc);
    var o := RunBody(p, fuel, fn, Top, st);
    n, m' := a + b, m2;
    match o {
      case Returned(sv) => LeftReturns(v, m, a, m1, b, m2);
      case Stopped(h) => HaltLater(v, m, a, m1, b, m2, fuel, h);
      case Normal(st2) =>
        if f.sealed {
          var d, m3 := EpilogueSteps(v, m2, st2);
          LeftLater(v, m1, b, m2, d, m3, st);
          LeftReturns(v, m, a, m1, b + d, m3);
          n, m' := a + b + d, m3;
        }
      case Broke(_) =>
      case Continued(_) =>
      case Jumped(_, _) =>
    }
  }

  /** A body that ends in a return or a goto on every path needs no return behind it. */
  lemma {:induction false} RunNeverNormal(p: Program, fuel: nat, fn: nat, from: Entry, st: Store)
    requires fn < |p| && NeverEnds(p[fn].body) && (from.AtLabel? ==> HasLabel(p[fn].body, from.l))
    ensures !RunBody(p, fuel, fn, from, st).Normal?
    decreases fuel
  {
    hide Exec, NeverEnds, HasLabel;
    NeverEndsNormal(p, fuel, p[fn].body, from, st);
    match Exec(p, fuel, p[fn].body, from, st) {
      case Jumped(l, st1) =>
        if fuel > 0 && HasLabel(p[fn].body, l) { RunNeverNormal(p, fuel - 1, fn, AtLabel(l), st1); }
      case Normal(_) =>
      case Broke(_) =>
      case Continued(_) =>
      case Returned(_) =>
      case Stopped(_) =>
    }
  }

  /** The body, from its start or from a label, through any number of gotos. */
  lemma {:induction false} SimRun(v: Env, p: Program, nx: seq<int>, fuel: nat, fn: nat, from: Entry, st: Store, m: M, pos: int)
    returns (n: nat, m': M)
    requires Loaded(v, p, nx).InPlace? && fn < |p| && |nx| == |p| && Good(m, st)
    requires Place(v, pos, BodyCode(p[fn], nx[fn]).code).InPlace?
    requires Starts(v, BodyCtx(p[fn], nx[fn]), from, m.pc, pos) && (from.AtLabel? ==> HasLabel(p[fn].body, from.l))
    ensures StmtDone(v, BodyCtx(p[fn], nx[fn]), m, n, m', pos + Size(BodyCode(p[fn], nx[fn]).code), fuel,
      RunBody(p, fuel, fn, from, st))
    decreases fuel, 2
  {
    hide Place, Size, Good, Kept, Reach, U32, Exec, SCode, HasLabel, Left, FaithfulStmt, EndsInC3;
    EntryAt(v, p, nx, fn);
    var f, next := p[fn], nx[fn];
    var c := BodyCtx(f, next);
    BodyAt(v, f, next, pos);
    var a, m1 := SimStmt(v, p, nx, fuel, c, f.body, G(next, map[]), pos, false, false, from, st, m);
    n, m' := a, m1;
    match Exec(p, fuel, f.body, from, st) {
      case Jumped(l, st1) =>
        if HasLabel(f.body, l) {
          if fuel > 0 {
            var b, m2 := SimRun(v, p, nx, fuel - 1, fn, AtLabel(l), st1, m1, pos);
            StmtLater(v, c, m, a, m1, b, m2, pos + Size(BodyCode(f, next).code), fuel - 1, fuel,
                      RunBody(p, fuel - 1, fn, AtLabel(l), st1), st);
            n, m' := a + b, m2;
          }
        }
      case Normal(_) =>
      case Broke(_) =>
      case Continued(_) =>
      case Returned(_) =>
      case Stopped(_) =>
    }
  }

  lemma {:induction false} BodyAt(v: Env, f: Func, next: int, pos: int)
    requires Place(v, pos, BodyCode(f, next).code).InPlace? && FaithfulStmt(f.body, false, false) && next >= 0
    ensures StmtAt(v, BodyCtx(f, next), f.body, G(next, map[]), pos, false, false).InPlace?
  {
    hide Place, SCode, FaithfulStmt;
  }

  // ----- Statements -----

  lemma {:induction false} SimStmt(v: Env, p: Program, nx: seq<int>, fuel: nat, c: Ctx, s: Stmt, g: G, pos: int,
                                   inB: bool, inC: bool, from: Entry, st: Store, m: M)
    returns (n: nat, m': M)
    requires Loaded(v, p, nx).InPlace? && StmtAt(v, c, s, g, pos, inB, inC).InPlace? && Good(m, st)
    requires Starts(v, c, from, m.pc, pos) && (from.AtLabel? ==> HasLabel(s, from.l))
    ensures StmtDone(v, c, m, n, m', pos + Size(SCode(s, c.brk, c.cont, g).code), fuel, Exec(p, fuel, s, from, st))
    decreases fuel, 1, s, 1
  {
    hide Place, Size, Good, Kept, Reach, U32, Ext, Extends, Left, EPILOGUE, ECode, CallCode, CallFn, Eval;
    match s {
      case ExprStmt(e) =>
        n, m' := SimExpr(v, p, nx, fuel, st, e, m);
      case CallStmt(fn, args) => n, m' := SimCallFn(v, p, nx, fuel, st, fn, args, m);
      case Null =>
        SizeNil(); StayHere(v, m, st);
        n, m' := 0, m;
      case If(e, t) => n, m' := SimIf(v, p, nx, fuel, c, e, t, g, pos, inB, inC, from, st, m);
      case IfElse(e, t, f) => n, m' := SimIfElse(v, p, nx, fuel, c, e, t, f, g, pos, inB, inC, from, st, m);
      case While(e, b) => n, m' := SimWhile(v, p, nx, fuel, c, e, b, g, pos, inB, inC, from, st, m);
      case DoWhile(b, e) => n, m' := SimDoWhile(v, p, nx, fuel, c, b, e, g, pos, inB, inC, from, st, m);
      case For(init, cond, step, b) =>
        n, m' := SimFor(v, p, nx, fuel, c, init, cond, step, b, g, pos, inB, inC, from, st, m);
      case Block(ss) => n, m' := SimList(v, p, nx, fuel, c, ss, g, pos, inB, inC, from, st, m);
      case Switch(e, items) => n, m' := SimSwitch(v, p, nx, fuel, c, e, items, g, pos, inB, inC, from, st, m);
      case Break => n, m' := JumpDone(v, m, c.brk, st);
      case Continue => n, m' := JumpDone(v, m, c.cont, st);
      case Goto(l) =>
        GotoKnown(c.gotos, g, l);
        n, m' := JumpDone(v, m, c.gotos[l], st);
      case Label(l) =>
        GotoKnown(c.gotos, g, l);
        LabelHere(v, pos, c.gotos[l]); Sizes(c.gotos[l], Eq);
        StayHere(v, m, st);
        n, m' := 0, m;
      case Return(e) => n, m' := SimReturn(v, p, nx, fuel, c, e, pos, st, m);
    }
  }

  lemma {:induction false} GotoKnown(gotos: map<string, int>, g: G, l: string)
    requires Extends(gotos, GotoId(g, l).1.gotos)
    ensures l in gotos && gotos[l] == GotoId(g, l).0
  {
    var small := GotoId(g, l).1.gotos;
    assert small[l] == GotoId(g, l).0;
  }

  lemma {:induction false} SimReturn(v: Env, p: Program, nx: seq<int>, fuel: nat, c: Ctx, e: OptExpr, pos: int, st: Store, m: M)
    returns (n: nat, m': M)
    requires Loaded(v, p, nx).InPlace? && Good(m, st) && m.pc == pos && FaithfulOpt(e)
    requires Place(v, pos, Cat(OptCode(e), EPILOGUE)).InPlace?
    ensures StmtDone(v, c, m, n, m', pos + Size(Cat(OptCode(e), EPILOGUE)), fuel, Exec(p, fuel, Return(e), Top, st))
    decreases fuel, 1, Return(e), 0
  {
    hide Place, Size, Good, Kept, Reach, U32, Ext, Left, EPILOGUE, ECode, Eval;
    Parts2(v, pos, OptCode(e), EPILOGUE); SizeNil();
    match e {
      case NoExpr => n, m' := EpilogueSteps(v, m, st);
      case SomeExpr(e1) =>
        var a, m1 := SimExpr(v, p, nx, fuel, st, e1, m);
        n, m' := a, m1;
        match Eval(p, fuel, st, e1) {
          case Halted(h) =>
          case Value(x, st1) =>
            var b, m2 := EpilogueSteps(v, m1, st1);
            LeftLater(v, m, a, m1, b, m2, st);
            n, m' := a + b, m2;
        }
    }
  }

  /** A condition and its jump. */
  lemma {:induction false} SimTest(v: Env, p: Program, nx: seq<int>, fuel: nat, e: Expr, cc: Cc, l: int, st: Store, m: M)
    returns (n: nat, m': M)
    requires Loaded(v, p, nx).InPlace? && Place(v, m.pc, TestCode(e, cc, l)).InPlace? && FaithfulTest(e) && Good(m, st)
    requires cc.Eq? || cc.Ne?
    ensures match Eval(p, fuel, st, e)
      case Halted(h) => HaltDone(v, m, n, m', fuel, h)
      case Value(x, st1) =>
        n >= 1 && Continues(v, m, n, m', if cc.Eq? == (x == 0) then LabelPos(v, l) else m.pc + Size(TestCode(e, cc, l)), st1)
    decreases fuel, 0, e, 2
  {
    hide Place, Size, Good, Kept, Reach, U32, Ext, Faithful, ECode, Eval, Wide, Extended;
    var t := TestRax(Wide(e));
    Parts3(v, m.pc, ECode(e), I(t), JccL(cc, l)); SizeI(t); Sizes(l, cc);
    var a, m1 := SimExpr(v, p, nx, fuel, st, e, m);
    n, m' := a, m1;
    match Eval(p, fuel, st, e) {
      case Halted(h) =>
      case Value(x, st1) =>
        ExtendedFill(e);
        var b, m2 := BranchSteps(v, m1, Wide(e), cc, l, x, st1);
        ContinuesLater(v, m, a, m1, b, m2, m2.pc, st1);
        n, m' := a + b, m2;
    }
  }

  lemma {:induction false} SimIf(v: Env, p: Program, nx: seq<int>, fuel: nat, c: Ctx, e: Expr, t: Stmt, g: G, pos: int,
                                 inB: bool, inC: bool, from: Entry, st: Store, m: M)
    returns (n: nat, m': M)
    requires Loaded(v, p, nx).InPlace? && StmtAt(v, c, If(e, t), g, pos, inB, inC).InPlace? && Good(m, st)
    requires Starts(v, c, from, m.pc, pos) && (from.AtLabel? ==> HasLabel(t, from.l))
    ensures StmtDone(v, c, m, n, m', pos + Size(SCode(If(e, t), c.brk, c.cont, g).code), fuel, Exec(p, fuel, If(e, t), from, st))
    decreases fuel, 1, If(e, t), 0
  {
    hide Place, Size, Good, Kept, Reach, U32, Ext, Left, ECode, Eval, TestCode, FaithfulTest, Starts, HasLabel, Loaded;
    var l := g.next;
    var g1 := g.(next := l + 2);
    var t' := SCode(t, c.brk, c.cont, g1);
    var test := TestCode(e, Eq, l);
    Parts3(v, pos, test, t'.code, Lab(l)); Sizes(l, Eq);
    LabelHere(v, pos + Size(test) + Size(t'.code), l);
    var end := pos + Size(test) + Size(t'.code);
    if from.AtLabel? {
      StartsIn(v, c, from, m.pc, pos, pos + Size(test));
      n, m' := SimStmt(v, p, nx, fuel, c, t, g1, pos + Size(test), inB, inC, from, st, m);
    } else {
      StartsTop(v, c, m.pc, pos);
      var a, m1 := SimTest(v, p, nx, fuel, e, Eq, l, st, m);
      n, m' := a, m1;
      match Eval(p, fuel, st, e) {
        case Halted(h) =>
        case Value(x, st1) =>
          if x != 0 {
            StartsTop(v, c, m1.pc, m1.pc);
            var b, m2 := SimStmt(v, p, nx, fuel, c, t, g1, pos + Size(test), inB, inC, Top, st1, m1);
            StmtLater(v, c, m, a, m1, b, m2, end, fuel, fuel, Exec(p, fuel, t, Top, st1), st);
            n, m' := a + b, m2;
          }
      }
    }
  }

  lemma {:induction false} StartsIn(v: Env, c: Ctx, from: Entry, pc: int, pos: int, pos1: int)
    requires Starts(v, c, from, pc, pos) && from.AtLabel?
    ensures Starts(v, c, from, pc, pos1)
  {
  }

  lemma {:induction false} StartsTop(v: Env, c: Ctx, pc: int, pos: int)
    ensures Starts(v, c, Top, pc, pos) <==> pc == pos
  {
  }

  lemma {:induction false} SimIfElse(v: Env, p: Program, nx: seq<int>, fuel: nat, c: Ctx, e: Expr, t: Stmt, f: Stmt, g: G,
                                     pos: int, inB: bool, inC: bool, from: Entry, st: Store, m: M)
    returns (n: nat, m': M)
    requires Loaded(v, p, nx).InPlace? && StmtAt(v, c, IfElse(e, t, f), g, pos, inB, inC).InPlace? && Good(m, st)
    requires Starts(v, c, from, m.pc, pos) && (from.AtLabel? ==> HasLabel(t, from.l) || HasLabel(f, from.l))
    ensures StmtDone(v, c, m, n, m', pos + Size(SCode(IfElse(e, t, f), c.brk, c.cont, g).code), fuel,
      Exec(p, fuel, IfElse(e, t, f), from, st))
    decreases fuel, 1, IfElse(e, t, f), 0
  {
    hide Place, Size, Good, Kept, Reach, U32, Ext, Left, ECode, Eval, TestCode, FaithfulTest, Starts, HasLabel, Loaded, HaltDone;
    var l := g.next;
    var g1 := g.(next := l + 2);
    var t' := SCode(t, c.brk, c.cont, g1);
    var f' := SCode(f, c.brk, c.cont, t'.g);
    var test := TestCode(e, Eq, l);
    var tpos := pos + Size(test);
    var jpos := tpos + Size(t'.code);
    Parts5(v, pos, test, t'.code, JmpL(l + 1), Lab(l), Cat(f'.code, Lab(l + 1)));
    Parts2(v, jpos + 5, f'.code, Lab(l + 1));
    Sizes(l, Eq); Sizes(l + 1, Eq);
    var end := jpos + 5 + Size(f'.code);
    LabelHere(v, jpos + 5, l); LabelHere(v, end, l + 1);
    SCodeGrows(t, c.brk, c.cont, g1);
    SCodeGrows(f, c.brk, c.cont, t'.g);
    ExtendsThen(c.gotos, t'.g, f'.g);
    if from.AtLabel? {
      if HasLabel(t, from.l) {
        StartsIn(v, c, from, m.pc, pos, tpos);
        var b, m2 := SimStmt(v, p, nx, fuel, c, t, g1, tpos, inB, inC, from, st, m);
        n, m' := ThenJump(v, c, m, b, m2, jpos, fuel, Exec(p, fuel, t, from, st), l + 1, end);
      } else {
        StartsIn(v, c, from, m.pc, pos, jpos + 5);
        n, m' := SimStmt(v, p, nx, fuel, c, f, t'.g, jpos + 5, inB, inC, from, st, m);
      }
    } else {
      StartsTop(v, c, m.pc, pos);
      var a, m1 := SimTest(v, p, nx, fuel, e, Eq, l, st, m);
      n, m' := a, m1;
      match Eval(p, fuel, st, e) {
        case Halted(h) =>
        case Value(x, st1) =>
          StartsTop(v, c, m1.pc, m1.pc);
          if x != 0 {
            var b, m2 := SimStmt(v, p, nx, fuel, c, t, g1, tpos, inB, inC, Top, st1, m1);
            var d, m3 := ThenJump(v, c, m1, b, m2, jpos, fuel, Exec(p, fuel, t, Top, st1), l + 1, end);
            StmtLater(v, c, m, a, m1, d, m3, end, fuel, fuel, Exec(p, fuel, t, Top, st1), st);
            n, m' := a + d, m3;
          } else {
            var b, m2 := SimStmt(v, p, nx, fuel, c, f, t'.g, jpos + 5, inB, inC, Top, st1, m1);
            StmtLater(v, c, m, a, m1, b, m2, end, fuel, fuel, Exec(p, fuel, f, Top, st1), st);
            n, m' := a + b, m2;
          }
      }
    }
  }

  // ----- Loops -----

  lemma {:induction false} SimOpt(v: Env, p: Program, nx: seq<int>, fuel: nat, e: OptExpr, st: Store, m: M)
    returns (n: nat, m': M)
    requires Loaded(v, p, nx).InPlace? && Place(v, m.pc, OptCode(e)).InPlace? && FaithfulOpt(e) && Good(m, st)
    ensures match EvalOpt(p, fuel, st, e)
      case Halted(h) => HaltDone(v, m, n, m', fuel, h)
      case Value(_, st1) => Continues(v, m, n, m', m.pc + Size(OptCode(e)), st1)
    decreases fuel, 0, e, 2
  {
    hide Place, Size, Good, Kept, Reach, U32, Ext, ECode, Eval, Faithful, Extended;
    match e {
      case NoExpr =>
        SizeNil(); StayHere(v, m, st);
        n, m' := 0, m;
      case SomeExpr(e1) => n, m' := SimExpr(v, p, nx, fuel, st, e1, m);
    }
  }

  lemma {:induction false} SimOptTest(v: Env, p: Program, nx: seq<int>, fuel: nat, e: OptExpr, l: int, st: Store, m: M)
    returns (n: nat, m': M)
    requires Loaded(v, p, nx).InPlace? && Place(v, m.pc, OptTest(e, l)).InPlace? && Good(m, st)
    requires e.SomeExpr? ==> FaithfulTest(e.e)
    ensures match EvalOpt(p, fuel, st, e)
      case Halted(h) => HaltDone(v, m, n, m', fuel, h)
      case Value(x, st1) => Continues(v, m, n, m', if x == 0 then LabelPos(v, l) else m.pc + Size(OptTest(e, l)), st1)
    decreases fuel, 0, e, 2
  {
    hide Place, Size, Good, Kept, Reach, U32, Ext, ECode, Eval, Faithful, Extended, TestCode, FaithfulTest;
    match e {
      case NoExpr =>
        SizeNil(); StayHere(v, m, st);
        n, m' := 0, m;
      case SomeExpr(e1) => n, m' := SimTest(v, p, nx, fuel, e1, Eq, l, st, m);
    }
  }

  /** A loop, entered at its test or at a label in its body. */
  lemma {:induction false} SimLoop(v: Env, p: Program, nx: seq<int>, fuel: nat, c: Ctx, cond: OptExpr, step: OptExpr, b: Stmt,
                                   lp: Loop, top: int, from: Entry, st: Store, m: M)
    returns (n: nat, m': M)
    requires Loaded(v, p, nx).InPlace? && LoopAt(v, c, cond, step, b, lp, top).InPlace? && Good(m, st)
    requires Starts(v, c, from, m.pc, top) && (from.AtLabel? ==> HasLabel(b, from.l))
    ensures StmtDone(v, c, m, n, m', LoopEnd(cond, step, b, lp, top), fuel, ExecLoop(p, fuel, cond, step, b, from, st))
    decreases fuel, 1, b, 3
  {
    hide Place, Size, Good, Kept, Reach, U32, Ext, Left, HasLabel, StmtAt, OptTest, OptCode, SCode, EvalOpt, Exec,
      AfterBody, Loaded;
    var cb := LoopCtx(c, lp);
    var bpos := LoopBody(cond, lp, top);
    if from.AtLabel? {
      var a, m1 := SimStmt(v, p, nx, fuel, cb, b, lp.g, bpos, true, true, from, st, m);
      n, m' := SimAfter(v, p, nx, fuel, c, cond, step, b, lp, top, m, a, m1, Exec(p, fuel, b, from, st), st);
    } else {
      var a, m1 := SimOptTest(v, p, nx, fuel, cond, lp.n + 1, st, m);
      n, m' := a, m1;
      match EvalOpt(p, fuel, st, cond) {
        case Halted(h) =>
        case Value(x, st1) =>
          if x != 0 {
            var o := Exec(p, fuel, b, Top, st1);
            var d, m2 := SimStmt(v, p, nx, fuel, cb, b, lp.g, bpos, true, true, Top, st1, m1);
            StmtLater(v, cb, m, a, m1, d, m2, LoopStep(cond, b, lp, top), fuel, fuel, o, st);
            n, m' := SimAfter(v, p, nx, fuel, c, cond, step, b, lp, top, m, a + d, m2, o, st);
          }
      }
    }
  }

  /** After the body: the step, the jump back, and the rest of the loop. */
  lemma {:induction false} SimAfter(v: Env, p: Program, nx: seq<int>, fuel: nat, c: Ctx, cond: OptExpr, step: OptExpr, b: Stmt,
                                    lp: Loop, top: int, m: M, a: nat, m1: M, o: Out, st: Store)
    returns (n: nat, m': M)
    requires Loaded(v, p, nx).InPlace? && LoopAt(v, c, cond, step, b, lp, top).InPlace? && Good(m, st) && Sane(o, |st|)
    requires StmtDone(v, LoopCtx(c, lp), m, a, m1, LoopStep(cond, b, lp, top), fuel, o)
    ensures StmtDone(v, c, m, n, m', LoopEnd(cond, step, b, lp, top), fuel, AfterBody(p, fuel, cond, step, b, o, |st|))
    decreases fuel, 1, b, 2
  {
    hide Place, Size, Good, Kept, Reach, U32, Ext, Left, HasLabel, StmtAt, OptTest, OptCode, SCode, EvalOpt, Exec, ExecLoop,
      LoopStep, LoopBody, FaithfulOpt, LabelPos, Starts;
    n, m' := a, m1;
    if o.Normal? || o.Continued? {
      var st1 := o.st;
      if m1.pc == LoopStep(cond, b, lp, top) {
        var d, m2 := SimOpt(v, p, nx, fuel, step, st1, m1);
        match EvalOpt(p, fuel, st1, step) {
          case Halted(h) =>
            HaltLater(v, m, a, m1, d, m2, fuel, h);
            n, m' := a + d, m2;
          case Value(_, st2) =>
            var j, m3 := JumpDone(v, m2, lp.n, st2);
            ContinuesLater(v, m1, d, m2, j, m3, top, st2);
            ContinuesLater(v, m, a, m1, d + j, m3, top, st2);
            n, m' := SimAgain(v, p, nx, fuel, c, cond, step, b, lp, top, m, a + (d + j), m3, st2, st);
        }
      } else {
        NoStep(p, fuel, st1);
        n, m' := SimAgain(v, p, nx, fuel, c, cond, step, b, lp, top, m, a, m1, st1, st);
      }
    }
  }

  lemma {:induction false} NoStep(p: Program, fuel: nat, st: Store)
    ensures EvalOpt(p, fuel, st, NoExpr) == Value(1, st)
  {
  }

  /** Back at the test, at least one step later. */
  lemma {:induction false} SimAgain(v: Env, p: Program, nx: seq<int>, fuel: nat, c: Ctx, cond: OptExpr, step: OptExpr, b: Stmt,
                                    lp: Loop, top: int, m: M, a: nat, m1: M, st1: Store, st: Store)
    returns (n: nat, m': M)
    requires Loaded(v, p, nx).InPlace? && LoopAt(v, c, cond, step, b, lp, top).InPlace? && Good(m, st) && |st1| == |st|
    requires a >= 1 && Continues(v, m, a, m1, top, st1)
    ensures StmtDone(v, c, m, n, m', LoopEnd(cond, step, b, lp, top), fuel,
      if fuel == 0 then Stopped(Timeout) else ExecLoop(p, fuel - 1, cond, step, b, Top, st1))
    decreases fuel, 1, b, 1
  {
    hide Place, Size, Good, Kept, Reach, U32, Left, LoopAt, ExecLoop, LoopEnd;
    n, m' := a, m1;
    if fuel > 0 {
      var d, m2 := SimLoop(v, p, nx, fuel - 1, c, cond, step, b, lp, top, Top, st1, m1);
      StmtLater(v, c, m, a, m1, d, m2, LoopEnd(cond, step, b, lp, top), fuel - 1, fuel,
                ExecLoop(p, fuel - 1, cond, step, b, Top, st1), st);
      n, m' := a + d, m2;
    }
  }

  lemma {:induction false} SimWhile(v: Env, p: Program, nx: seq<int>, fuel: nat, c: Ctx, e: Expr, b: Stmt, g: G, pos: int,
                                    inB: bool, inC: bool, from: Entry, st: Store, m: M)
    returns (n: nat, m': M)
    requires Loaded(v, p, nx).InPlace? && StmtAt(v, c, While(e, b), g, pos, inB, inC).InPlace? && Good(m, st)
    requires Starts(v, c, from, m.pc, pos) && (from.AtLabel? ==> HasLabel(b, from.l))
    ensures StmtDone(v, c, m, n, m', pos + Size(SCode(While(e, b), c.brk, c.cont, g).code), fuel,
      Exec(p, fuel, While(e, b), from, st))
    decreases fuel, 1, While(e, b), 0
  {
    hide Place, Size, Good, Kept, Reach, U32, Left, TestCode, FaithfulTest, Starts, HasLabel, LabelPos, ExecLoop, Extends,
      FaithfulStmt, StmtDone;
    var l := g.next;
    var g1 := g.(next := l + 2);
    var lp := Loop(l, l, g1);
    WhileAt(v, c, e, b, g, pos, inB, inC);
    n, m' := SimLoop(v, p, nx, fuel, c, SomeExpr(e), NoExpr, b, lp, pos, from, st, m);
  }

  lemma {:induction false} WhileAt(v: Env, c: Ctx, e: Expr, b: Stmt, g: G, pos: int, inB: bool, inC: bool)
    requires StmtAt(v, c, While(e, b), g, pos, inB, inC).InPlace?
    ensures var lp := Loop(g.next, g.next, g.(next := g.next + 2));
      LoopAt(v, c, SomeExpr(e), NoExpr, b, lp, pos).InPlace?
      && LoopEnd(SomeExpr(e), NoExpr, b, lp, pos) == pos + Size(SCode(While(e, b), c.brk, c.cont, g).code)
  {
    hide Place, Size, TestCode, FaithfulTest, LabelPos, Extends;
    var l := g.next;
    var b' := SCode(b, l + 1, l, g.(next := l + 2));
    var test := TestCode(e, Eq, l + 1);
    Parts5(v, pos, Lab(l), test, b'.code, JmpL(l), Lab(l + 1));
    Sizes(l, Eq); Sizes(l + 1, Eq);
    PlaceNil(v, pos + Size(test) + Size(b'.code));
    LabelHere(v, pos, l); LabelHere(v, pos + Size(test) + Size(b'.code) + 5, l + 1);
  }

  lemma {:induction false} PlaceNil(v: Env, pos: int)
    ensures Place(v, pos, Nil).InPlace?
  {
  }

  lemma {:induction false} ForAt(v: Env, c: Ctx, init: OptExpr, cond: OptExpr, step: OptExpr, b: Stmt, g: G, pos: int,
                                 inB: bool, inC: bool)
    requires StmtAt(v, c, For(init, cond, step, b), g, pos, inB, inC).InPlace?
    ensures var lp := Loop(g.next, g.next + 2, g.(next := g.next + 3));
      var top := pos + Size(OptCode(init));
      Place(v, pos, OptCode(init)).InPlace? && FaithfulOpt(init) && LoopAt(v, c, cond, step, b, lp, top).InPlace?
      && LoopEnd(cond, step, b, lp, top) == pos + Size(SCode(For(init, cond, step, b), c.brk, c.cont, g).code)
  {
    hide Place, Size, OptTest, OptCode, FaithfulTest, LabelPos, Extends, FaithfulOpt;
    var l := g.next;
    var b' := SCode(b, l + 1, l + 2, g.(next := l + 3));
    var test := OptTest(cond, l + 1);
    Parts5(v, pos, OptCode(init), Lab(l), test, b'.code, ForEnd(OptCode(step), l));
    Sizes(l, Eq); Sizes(l + 1, Eq); Sizes(l + 2, Eq);
    var top := pos + Size(OptCode(init));
    var spos := top + Size(test) + Size(b'.code);
    Parts4(v, spos, Lab(l + 2), OptCode(step), JmpL(l), Lab(l + 1));
    LabelHere(v, top, l); LabelHere(v, spos, l + 2); LabelHere(v, spos + Size(OptCode(step)) + 5, l + 1);
  }

  lemma {:induction false} SimFor(v: Env, p: Program, nx: seq<int>, fuel: nat, c: Ctx, init: OptExpr, cond: OptExpr,
                                  step: OptExpr, b: Stmt, g: G, pos: int, inB: bool, inC: bool, from: Entry, st: Store, m: M)
    returns (n: nat, m': M)
    requires Loaded(v, p, nx).InPlace? && StmtAt(v, c, For(init, cond, step, b), g, pos, inB, inC).InPlace? && Good(m, st)
    requires Starts(v, c, from, m.pc, pos) && (from.AtLabel? ==> HasLabel(b, from.l))
    ensures StmtDone(v, c, m, n, m', pos + Size(SCode(For(init, cond, step, b), c.brk, c.cont, g).code), fuel,
      Exec(p, fuel, For(init, cond, step, b), from, st))
    decreases fuel, 1, For(init, cond, step, b), 0
  {
    hide Place, Size, Good, Kept, Reach, U32, Left, OptCode, Starts, HasLabel, LabelPos, ExecLoop, StmtAt, LoopAt, LoopEnd,
      EvalOpt, SCode;
    var lp := Loop(g.next, g.next + 2, g.(next := g.next + 3));
    ForAt(v, c, init, cond, step, b, g, pos, inB, inC);
    var top := pos + Size(OptCode(init));
    if from.AtLabel? {
      StartsIn(v, c, from, m.pc, pos, top);
      n, m' := SimLoop(v, p, nx, fuel, c, cond, step, b, lp, top, from, st, m);
    } else {
      StartsTop(v, c, m.pc, pos);
      var a, m1 := SimOpt(v, p, nx, fuel, init, st, m);
      n, m' := a, m1;
      match EvalOpt(p, fuel, st, init) {
        case Halted(h) =>
        case Value(_, st1) =>
          StartsTop(v, c, m1.pc, top);
          var d, m2 := SimLoop(v, p, nx, fuel, c, cond, step, b, lp, top, Top, st1, m1);
          StmtLater(v, c, m, a, m1, d, m2, LoopEnd(cond, step, b, lp, top), fuel, fuel,
                    ExecLoop(p, fuel, cond, step, b, Top, st1), st);
          n, m' := a + d, m2;
      }
    }
  }

  /** do-while, entered at its top or at a label in its body. */
  lemma {:induction false} SimDoWhile(v: Env, p: Program, nx: seq<int>, fuel: nat, c: Ctx, b: Stmt, e: Expr, g: G, pos: int,
                                      inB: bool, inC: bool, from: Entry, st: Store, m: M)
    returns (n: nat, m': M)
    requires Loaded(v, p, nx).InPlace? && StmtAt(v, c, DoWhile(b, e), g, pos, inB, inC).InPlace? && Good(m, st)
    requires Starts(v, c, from, m.pc, pos) && (from.AtLabel? ==> HasLabel(b, from.l))
    ensures StmtDone(v, c, m, n, m', pos + Size(SCode(DoWhile(b, e), c.brk, c.cont, g).code), fuel,
      Exec(p, fuel, DoWhile(b, e), from, st))
    decreases fuel, 1, DoWhile(b, e), 0
  {
    hide Place, Size, Good, Kept, Reach, U32, Ext, ECode, Loaded, Left, TestCode, FaithfulTest, HasLabel, Eval, Exec;
    var l := g.next;
    var g1 := g.(next := l + 2);
    var cb := Ctx(l + 1, l, c.gotos);
    var b' := SCode(b, l + 1, l, g1);
    var test := TestCode(e, Ne, l);
    Parts4(v, pos, Lab(l), b'.code, test, Lab(l + 1));
    Sizes(l, Eq); Sizes(l + 1, Eq);
    var tpos := pos + Size(b'.code);
    LabelHere(v, pos, l); LabelHere(v, tpos + Size(test), l + 1);
    var a, m1 := SimStmt(v, p, nx, fuel, cb, b, g1, pos, true, true, from, st, m);
    n, m' := a, m1;
    DoIs(p, fuel, b, e, from, st);
    match Exec(p, fuel, b, from, st) {
      case Normal(st1) =>
        var d, m2 := SimTest(v, p, nx, fuel, e, Ne, l, st1, m1);
        match Eval(p, fuel, st1, e) {
          case Halted(h) =>
            HaltLater(v, m, a, m1, d, m2, fuel, h);
            n, m' := a + d, m2;
          case Value(x, st2) =>
            ContinuesLater(v, m, a, m1, d, m2, m2.pc, st2);
            n, m' := a + d, m2;
            if x != 0 && fuel > 0 {
              var k, m3 := SimDoWhile(v, p, nx, fuel - 1, c, b, e, g, pos, inB, inC, Top, st2, m2);
              StmtLater(v, c, m, a + d, m2, k, m3, tpos + Size(test), fuel - 1, fuel,
                        Exec(p, fuel - 1, DoWhile(b, e), Top, st2), st);
              n, m' := a + d + k, m3;
            }
        }
      case Broke(_) =>
      case Continued(_) =>
      case Jumped(_, _) =>
      case Returned(_) =>
      case Stopped(_) =>
    }
  }

  lemma {:induction false} DoIs(p: Program, fuel: nat, b: Stmt, e: Expr, from: Entry, st: Store)
    ensures Exec(p, fuel, DoWhile(b, e), from, st) ==
      match Exec(p, fuel, b, from, st)
      case Normal(st1) => (
        match Eval(p, fuel, st1, e)
        case Halted(h) => Stopped(h)
        case Value(x, st2) =>
          if x == 0 then Normal(st2)
          else if fuel == 0 then Stopped(Timeout) else Exec(p, fuel - 1, DoWhile(b, e), Top, st2))
      case Broke(st1) => Normal(st1)
      case Continued(_) => Stopped(Departs)
      case o1 => o1
  {
    hide Eval;
  }

  // ----- Lists and switch bodies -----

  lemma {:induction false} SimList(v: Env, p: Program, nx: seq<int>, fuel: nat, c: Ctx, ss: Stmts, g: G, pos: int,
                                   inB: bool, inC: bool, from: Entry, st: Store, m: M)
    returns (n: nat, m': M)
    requires Loaded(v, p, nx).InPlace? && ListAt(v, c, ss, g, pos, inB, inC).InPlace? && Good(m, st)
    requires Starts(v, c, from, m.pc, pos) && (from.AtLabel? ==> HasLabelIn(ss, from.l))
    ensures StmtDone(v, c, m, n, m', pos + Size(ListCode(ss, c.brk, c.cont, g).code), fuel, ExecList(p, fuel, ss, from, st))
    decreases fuel, 1, ss, 0
  {
    hide Place, Size, Good, Kept, Reach, U32, Left, Starts, HasLabel, SCode, Exec, FaithfulStmt, Continues, Loaded;
    match ss {
      case SNil =>
        SizeNil(); StayHere(v, m, st); StartsTop(v, c, m.pc, pos);
        n, m' := 0, m;
      case SCons(s, rest) =>
        var s' := SCode(s, c.brk, c.cont, g);
        var r' := ListCode(rest, c.brk, c.cont, s'.g);
        Parts2(v, pos, s'.code, r'.code);
        var mid := pos + Size(s'.code);
        SCodeGrows(s, c.brk, c.cont, g);
        ListGrows(rest, c.brk, c.cont, s'.g);
        ExtendsThen(c.gotos, s'.g, r'.g);
        if from.AtLabel? && !HasLabel(s, from.l) {
          StartsIn(v, c, from, m.pc, pos, mid);
          n, m' := SimList(v, p, nx, fuel, c, rest, s'.g, mid, inB, inC, from, st, m);
        } else {
          var a, m1 := SimStmt(v, p, nx, fuel, c, s, g, pos, inB, inC, from, st, m);
          n, m' := a, m1;
          var o := Exec(p, fuel, s, from, st);
          if o.Normal? {
            AtEnd(v, m, a, m1, mid, o.st); StartsTop(v, c, m1.pc, mid);
            var b, m2 := SimList(v, p, nx, fuel, c, rest, s'.g, mid, inB, inC, Top, o.st, m1);
            StmtLater(v, c, m, a, m1, b, m2, mid + Size(r'.code), fuel, fuel, ExecList(p, fuel, rest, Top, o.st), st);
            n, m' := a + b, m2;
          }
        }
    }
  }

  lemma {:induction false} AtEnd(v: Env, m: M, n: nat, m': M, at: int, st: Store)
    requires Continues(v, m, n, m', at, st)
    ensures Reach(v, m, n, m') && m'.pc == at && Good(m', st) && Kept(m, m', |st|)
  {
    hide Reach, Good, Kept;
  }

  lemma {:induction false} SimItems(v: Env, p: Program, nx: seq<int>, fuel: nat, c: Ctx, items: Items, l: int, g: G, pos: int,
                                    inC: bool, from: ItemEntry, st: Store, m: M)
    returns (n: nat, m': M)
    requires Loaded(v, p, nx).InPlace? && ItemsAt(v, c, items, l, g, pos, inC).InPlace? && Good(m, st)
    requires StartsItem(v, c, items, g, from, m.pc, pos) && (from.ToLabel? ==> HasLabelItem(items, from.l))
    ensures StmtDone(v, c, m, n, m', pos + Size(ItemCode(items, l, c.brk, c.cont, g).code), fuel,
      ExecItems(p, fuel, items, from, st))
    decreases fuel, 1, items, 0
  {
    hide Place, Size, Good, Kept, Reach, U32, Left, HasLabel, SCode, Exec, FaithfulStmt, Continues, LabelPos;
    match items {
      case INil =>
        SizeNil(); StayHere(v, m, st);
        n, m' := 0, m;
      case ICase(_, _, rest) =>
        Parts2(v, pos, Lab(l), ItemCode(rest, l + 1, c.brk, c.cont, g).code); Sizes(l, Eq);
        n, m' := SimItems(v, p, nx, fuel, c, rest, l + 1, g, pos, inC, Advance(from), st, m);
      case IDefault(rest) =>
        Parts2(v, pos, Lab(l), ItemCode(rest, l + 1, c.brk, c.cont, g).code); Sizes(l, Eq);
        n, m' := SimItems(v, p, nx, fuel, c, rest, l + 1, g, pos, inC, Advance(from), st, m);
      case IStmt(s, rest) =>
        var s' := SCode(s, c.brk, c.cont, g);
        var r' := ItemCode(rest, l, c.brk, c.cont, s'.g);
        Parts2(v, pos, s'.code, r'.code);
        var mid := pos + Size(s'.code);
        SCodeGrows(s, c.brk, c.cont, g);
        ItemsGrow(rest, l, c.brk, c.cont, s'.g);
        ExtendsThen(c.gotos, s'.g, r'.g);
        if (from.Skip? && from.k > 0) || (from.ToLabel? && !HasLabel(s, from.l)) {
          n, m' := SimItems(v, p, nx, fuel, c, rest, l, s'.g, mid, inC, Advance(from), st, m);
        } else {
          var from1 := if from.ToLabel? then AtLabel(from.l) else Top;
          var a, m1 := SimStmt(v, p, nx, fuel, c, s, g, pos, true, inC, from1, st, m);
          n, m' := a, m1;
          var o := Exec(p, fuel, s, from1, st);
          if o.Normal? {
            AtEnd(v, m, a, m1, mid, o.st);
            var b, m2 := SimItems(v, p, nx, fuel, c, rest, l, s'.g, mid, inC, Skip(0), o.st, m1);
            StmtLater(v, c, m, a, m1, b, m2, mid + Size(r'.code), fuel, fuel, ExecItems(p, fuel, rest, Skip(0), o.st), st);
            n, m' := a + b, m2;
          }
        }
    }
  }

  /** The parts of a switch. */
  lemma {:induction false} SwitchAt(v: Env, c: Ctx, e: Expr, items: Items, g: G, pos: int, inB: bool, inC: bool)
    requires StmtAt(v, c, Switch(e, items), g, pos, inB, inC).InPlace?
    ensures var n, k := g.next, LabelCount(items);
      var g1 := g.(next := n + k + 2);
      var body := ItemCode(items, n, n + k + 1, c.cont, g1);
      var sel := Cat(Dispatch(items, n, body.g.next), DefaultJump(items, n));
      var bpos := pos + Size(ECode(e)) + 6;
      var dpos := bpos + Size(body.code);
      Place(v, pos, ECode(e)).InPlace? && Faithful(e)
      && Place(v, bpos - 6, I(PushRax)).InPlace? && Place(v, bpos - 5, JmpL(n + k)).InPlace?
      && ItemsAt(v, Ctx(n + k + 1, c.cont, c.gotos), items, n, g1, bpos, inC).InPlace?
      && LabelPos(v, n + k) == dpos && Place(v, dpos, I(PopRax)).InPlace? && Place(v, dpos + 1, sel).InPlace?
      && LabelPos(v, n + k + 1) == dpos + 1 + Size(sel) && n >= 0
      && dpos + 1 + Size(sel) == pos + Size(SCode(Switch(e, items), c.brk, c.cont, g).code)
  {
    hide Place, Size, ECode, ItemCode, Dispatch, DefaultJump, LabelPos, Extends, Faithful, FaithfulItems;
    var n, k := g.next, LabelCount(items);
    var body := ItemCode(items, n, n + k + 1, c.cont, g.(next := n + k + 2));
    var sel := Cat(Dispatch(items, n, body.g.next), DefaultJump(items, n));
    Parts5(v, pos, ECode(e), I(PushRax), JmpL(n + k), body.code, SwitchEnd(sel, n + k));
    SizeI(PushRax); SizeI(PopRax); Sizes(n + k, Eq); Sizes(n + k + 1, Eq);
    var dpos := pos + Size(ECode(e)) + 6 + Size(body.code);
    Parts4(v, dpos, Lab(n + k), I(PopRax), sel, Lab(n + k + 1));
    LabelHere(v, dpos, n + k); LabelHere(v, dpos + 1 + Size(sel), n + k + 1);
  }

  lemma {:induction false} FaithfulCases(items: Items, inC: bool)
    requires FaithfulItems(items, inC)
    ensures IntCases(items)
    decreases items
  {
    match items {
      case INil =>
      case ICase(_, _, rest) => FaithfulCases(rest, inC);
      case IDefault(rest) => FaithfulCases(rest, inC);
      case IStmt(_, rest) => FaithfulCases(rest, inC);
    }
  }

  /** The value waits on the stack, is popped exactly once, and selects the target. */
  lemma {:induction false} SelectTarget(v: Env, m: M, d: int, sel: Code, items: Items, l: int, k: int, x: int, st: Store)
    returns (n: nat, m': M)
    requires Place(v, m.pc, I(PushRax)).InPlace? && Place(v, m.pc + 1, JmpL(d)).InPlace?
    requires Place(v, LabelPos(v, d), I(PopRax)).InPlace? && Place(v, LabelPos(v, d) + 1, sel).InPlace?
    requires sel == Cat(Dispatch(items, l, k), DefaultJump(items, l)) && l >= 0 && IntCases(items)
    requires Good(m, st) && IsInt(x) && U32(m.rax) == U32(x)
    ensures Continues(v, m, n, m', match Target(items, x)
      case Item(j) => LabelPos(v, LabelOf(items, l, j))
      case NoItem => LabelPos(v, d) + 1 + Size(sel), st)
  {
    hide Place, Size, Good, Kept, Pushed, Reach, U32, LabelPos, Target, LabelOf, Dispatch, DefaultJump, IntCases;
    var a, m1 := PushStep(v, m, st);
    var b := JumpTo(v, m1, d);
    var m2 := m1.(pc := LabelPos(v, d));
    KeptSame(m1, m2, st);
    var e, m3 := PopRaxStep(v, m, m1, m2, m.rax, st, st);
    Then(v, m, a, m1, b, m2);
    Then(v, m, a + b, m2, e, m3);
    var f, m4 := SelectSteps(v, m3, items, l, k, x);
    Then(v, m, a + b + e, m3, f, m4);
    KeptSame(m3, m4, st);
    KeptThen(m, m3, m4, |st|);
    n, m' := a + b + e + f, m4;
  }

  /** break leads to the end of the switch. */
  lemma {:induction false} LeaveDone(v: Env, c: Ctx, cb: Ctx, m: M, n: nat, m': M, at: int, end: int, fuel: nat, o: Out)
    requires StmtDone(v, cb, m, n, m', at, fuel, o)
    requires cb.cont == c.cont && cb.gotos == c.gotos && LabelPos(v, cb.brk) == end
    ensures StmtDone(v, c, m, n, m', end, fuel, LeaveSwitch(o))
  {
    hide Left, Continues;
  }

  lemma {:induction false} TargetAt(v: Env, c: Ctx, items: Items, l: int, g: G, pos: int, inC: bool, x: int)
    requires ItemsAt(v, c, items, l, g, pos, inC).InPlace? && Target(items, x).Item?
    ensures LabelPos(v, LabelOf(items, l, Target(items, x).k)) == ItemAt(items, c.brk, c.cont, g, pos, Target(items, x).k)
  {
    hide Place, Size, LabelPos, FirstCase, LastDefault, LabelOf, ItemAt;
    TargetIsLabel(items, x);
    ItemLabelAt(v, items, l, c.brk, c.cont, g, pos, Target(items, x).k);
  }

  lemma {:induction false} SimSwitch(v: Env, p: Program, nx: seq<int>, fuel: nat, c: Ctx, e: Expr, items: Items, g: G,
                                     pos: int, inB: bool, inC: bool, from: Entry, st: Store, m: M)
    returns (n: nat, m': M)
    requires Loaded(v, p, nx).InPlace? && StmtAt(v, c, Switch(e, items), g, pos, inB, inC).InPlace? && Good(m, st)
    requires Starts(v, c, from, m.pc, pos) && (from.AtLabel? ==> HasLabelItem(items, from.l))
    ensures StmtDone(v, c, m, n, m', pos + Size(SCode(Switch(e, items), c.brk, c.cont, g).code), fuel,
      Exec(p, fuel, Switch(e, items), from, st))
    decreases fuel, 1, Switch(e, items), 0
  {
    hide Place, Size, Good, Kept, Reach, U32, Ext, ECode, ItemCode, Dispatch, DefaultJump, LabelPos, Eval, ExecItems,
      HasLabelItem, Target, StmtAt, SCode, Left, Extended, LabelOf, IntCases, FaithfulItems, LeaveSwitch, Loaded;
    SwitchAt(v, c, e, items, g, pos, inB, inC);
    var l, k := g.next, LabelCount(items);
    var g1 := g.(next := l + k + 2);
    var cb := Ctx(l + k + 1, c.cont, c.gotos);
    var body := ItemCode(items, l, l + k + 1, c.cont, g1);
    var sel := Cat(Dispatch(items, l, body.g.next), DefaultJump(items, l));
    var bpos := pos + Size(ECode(e)) + 6;
    var at := bpos + Size(body.code);
    var end := at + 1 + Size(sel);
    if from.AtLabel? {
      n, m' := SimItems(v, p, nx, fuel, cb, items, l, g1, bpos, inC, ToLabel(from.l), st, m);
      LeaveDone(v, c, cb, m, n, m', at, end, fuel, ExecItems(p, fuel, items, ToLabel(from.l), st));
    } else {
      var a, m1 := SimExpr(v, p, nx, fuel, st, e, m);
      n, m' := a, m1;
      match Eval(p, fuel, st, e) {
        case Halted(h) =>
        case Value(x, st1) =>
          FaithfulCases(items, inC);
          var b, m2 := SelectTarget(v, m1, l + k, sel, items, l, body.g.next, x, st1);
          ContinuesLater(v, m, a, m1, b, m2, m2.pc, st1);
          n, m' := a + b, m2;
          if Target(items, x).Item? {
            TargetAt(v, cb, items, l, g1, bpos, inC, x);
            var d, m3 := SimItems(v, p, nx, fuel, cb, items, l, g1, bpos, inC, Skip(Target(items, x).k), st1, m2);
            var o := ExecItems(p, fuel, items, Skip(Target(items, x).k), st1);
            LeaveDone(v, c, cb, m2, d, m3, at, end, fuel, o);
            LeaveSane(o, |st1|);
            StmtLater(v, c, m, a + b, m2, d, m3, end, fuel, fuel, LeaveSwitch(o), st);
            n, m' := a + b + d, m3;
          }
      }
    }
  }

  lemma {:induction false} LeaveSane(o: Out, size: nat)
    requires Sane(o, size)
    ensures Sane(LeaveSwitch(o), size)
  {
  }
}
