/** Where generated code leaves C, with inputs that show it and exactly when it happens. */
module Departures {
  import opened Words
  import opened X86
  import opened CSource
  import opened CodeGen
  import opened Blocks
  import opened Frames
  import opened Snippets
  import opened Arguments
  import opened Statements
  import opened Activation
  import opened Simulation

  // ----- continue in do-while -----

  /** do { continue; } while (0) stops in C; its code is a jump to itself. */
  lemma {:induction false} DoContinueSpins(v: Env, pos: int, g: G, m: M, k: nat)
    requires Place(v, pos, SCode(DoWhile(Continue, Const(0)), -1, -1, g).code).InPlace?
    requires m.pc == pos && g.next >= 0
    ensures Run(v.prog, m, k) == Next(m)
    decreases k
  {
    hide Size, ECode, TestCode;
    var n := g.next;
    if k > 0 {
      DoContinueCode(v, pos, n);
      JumpSelf(v, m, n);
      DoContinueSpins(v, pos, g, m, k - 1);
    }
  }

  lemma {:induction false} DoContinueCode(v: Env, pos: int, n: int)
    requires Place(v, pos, DoCode(JmpL(n), TestCode(Const(0), Ne, n), n)).InPlace?
    ensures Place(v, pos, JmpL(n)).InPlace? && LabelPos(v, n) == pos
  {
    hide Place, Size, TestCode;
    Parts4(v, pos, Lab(n), JmpL(n), TestCode(Const(0), Ne, n), Lab(n + 1));
    Sizes(n, Ne);
    LabelHere(v, pos, n);
  }

  lemma {:induction false} JumpSelf(v: Env, m: M, n: int)
    requires Place(v, m.pc, JmpL(n)).InPlace? && LabelPos(v, n) == m.pc
    ensures StepFn(v.prog, m) == Next(m)
  {
  }

  /** The next point of a do-while: its top or its end. */
  datatype Point = AtTop(st: Store) | AtEnd(st: Store)

  /** Where C goes after a continue, once the condition has the value x and store st2. */
  function AfterContinue(x: int, st2: Store): Point { if x != 0 then AtTop(st2) else AtEnd(st2) }

  /** The machine is at that point of a do-while from pos to end, with that store. */
  ghost predicate IsAt(m: M, pos: int, end: int, at: Point)
  {
    match at
    case AtTop(st) => m.pc == pos && Good(m, st)
    case AtEnd(st) => m.pc == end && Good(m, st)
  }

  /** The frame, which holds store a, gives each variable the value that it has in b: a
      variable that a knows has it already, and the slot of any other happens to hold it. */
  ghost predicate HasValues(m: M, a: Store, b: Store)
  {
    |a| == |b| && forall i {:trigger b[i]} :: 0 <= i < |b| && b[i].Set? ==>
      if a[i].Set? then U32(a[i].v) == U32(b[i].v) else Rd(m.mem, SlotAddr(m.rbp, i)) == U32(b[i].v)
  }

  /** After a continue the code is back at the top with the store of the body: the
      condition is not evaluated.  So it is where C is, and with the values that C
      gives to the variables, if and only if the condition is true and leaves every
      variable with the value that it had. */
  lemma {:induction false} DoContinueExactly(v: Env, p: Program, nx: seq<int>, fuel: nat, c: Ctx, b: Stmt, e: Expr, g: G,
                                             pos: int, st: Store, m: M) returns (n: nat, m': M)
    requires Loaded(v, p, nx).InPlace? && StmtAt(v, c, DoWhile(b, e), g, pos, true, true).InPlace? && Good(m, st) && m.pc == pos
    requires Exec(p, fuel, b, Top, st).Continued? && Eval(p, fuel, Exec(p, fuel, b, Top, st).st, e).Value?
    ensures n >= 1 && Continues(v, m, n, m', pos, Exec(p, fuel, b, Top, st).st)
    ensures var st1 := Exec(p, fuel, b, Top, st).st;
      var r, end := Eval(p, fuel, st1, e), pos + Size(SCode(DoWhile(b, e), c.brk, c.cont, g).code);
      IsAt(m', pos, end, AfterContinue(r.v, r.st)) <==> r.v != 0 && HasValues(m', st1, r.st)
  {
    hide Place, Size, Good, Kept, Reach, U32, Left, TestCode, FaithfulTest, Eval, Exec, Extends, HasValues;
    var l := g.next;
    var g1 := g.(next := l + 2);
    var cb := Ctx(l + 1, l, c.gotos);
    var b' := SCode(b, l + 1, l, g1);
    var test := TestCode(e, Ne, l);
    Parts4(v, pos, Lab(l), b'.code, test, Lab(l + 1));
    Sizes(l, Eq);
    LabelHere(v, pos, l);
    n, m' := SimStmt(v, p, nx, fuel, cb, b, g1, pos, true, true, Top, st, m);
    var st1 := Exec(p, fuel, b, Top, st).st;
    var r := Eval(p, fuel, st1, e);
    TestSize(e, l);
    GoodBoth(m', st1, r.st);
  }

  lemma {:induction false} TestSize(e: Expr, l: int)
    ensures Size(TestCode(e, Ne, l)) >= 6
  {
    hide ECode, Size, Place;
    Parts3(Env(map[], map[], []), 0, ECode(e), I(TestRax(Wide(e))), JccL(Ne, l));
    Sizes(l, Ne);
  }

  lemma {:induction false} GoodBoth(m: M, a: Store, b: Store)
    requires Good(m, a) && |a| == |b|
    ensures Good(m, b) <==> HasValues(m, a, b)
  {
    if Good(m, b) {
      forall i {:trigger b[i]} | 0 <= i < |b| && b[i].Set?
        ensures if a[i].Set? then U32(a[i].v) == U32(b[i].v) else Rd(m.mem, SlotAddr(m.rbp, i)) == U32(b[i].v)
      {
        assert Rd(m.mem, SlotAddr(m.rbp, i)) == U32(b[i].v);
      }
    }
  }

  // ----- A switch body that runs off its end -----

  /** Selector value r leads into the body, and the body runs off its end. */
  predicate RunsOff(p: Program, fuel: nat, items: Items, r: Res)
    requires r.Value?
  {
    Target(items, r.v).Item? && ExecItems(p, fuel, items, Skip(Target(items, r.v).k), r.st).Normal?
  }

  /** The value of a switch is pushed once.  It is popped a second time if and only if
      the body runs off its end: then the stack pointer is 8 too high, and the dispatch
      code runs again.  In every other run the switch does what C says, and the stack
      pointer is back wherever the function goes on. */
  lemma {:induction false} SwitchPopsTwice(v: Env, p: Program, nx: seq<int>, fuel: nat, c: Ctx, e: Expr, items: Items, g: G,
                                           pos: int, st: Store, m: M) returns (n: nat, m': M)
    requires Loaded(v, p, nx).InPlace? && StmtAt(v, c, Switch(e, items), g, pos, true, true).InPlace?
    requires Good(m, st) && m.pc == pos && Eval(p, fuel, st, e).Value?
    ensures var o := Exec(p, fuel, Switch(e, items), Top, st);
      && (RunsOff(p, fuel, items, Eval(p, fuel, st, e)) ==> o == Stopped(Departs) && Reach(v, m, n, m'))
      && (!RunsOff(p, fuel, items, Eval(p, fuel, st, e)) ==>
            StmtDone(v, c, m, n, m', pos + Size(SCode(Switch(e, items), c.brk, c.cont, g).code), fuel, o))
    ensures var o := Exec(p, fuel, Switch(e, items), Top, st);
      RunsOff(p, fuel, items, Eval(p, fuel, st, e)) || (!o.Stopped? && !o.Returned?) ==>
        m'.rsp == m.rsp + if RunsOff(p, fuel, items, Eval(p, fuel, st, e)) then 8 else 0
  {
    hide Place, Size, Good, Kept, Reach, U32, StmtAt, SCode, Eval, ExecItems, Target;
    var r := Eval(p, fuel, st, e);
    if RunsOff(p, fuel, items, r) {
      n, m' := SwitchRunsOff(v, p, nx, fuel, c, e, items, g, pos, st, m);
    } else {
      TopEntry(v, c, pos);
      n, m' := SimSwitch(v, p, nx, fuel, c, e, items, g, pos, true, true, Top, st, m);
      var o := Exec(p, fuel, Switch(e, items), Top, st);
      if !o.Stopped? && !o.Returned? { KeptRsp(m, m', o.st); }
    }
  }

  lemma {:induction false} TopEntry(v: Env, c: Ctx, pos: int)
    ensures Starts(v, c, Top, pos, pos)
  {
  }

  lemma {:induction false} KeptRsp(m: M, m': M, st: Store)
    requires Kept(m, m', |st|)
    ensures m'.rsp == m.rsp
  {
  }

  lemma {:induction false} SwitchRunsOff(v: Env, p: Program, nx: seq<int>, fuel: nat, c: Ctx, e: Expr, items: Items, g: G,
                                         pos: int, st: Store, m: M) returns (n: nat, m': M)
    requires Loaded(v, p, nx).InPlace? && StmtAt(v, c, Switch(e, items), g, pos, true, true).InPlace?
    requires Good(m, st) && m.pc == pos && Eval(p, fuel, st, e).Value? && RunsOff(p, fuel, items, Eval(p, fuel, st, e))
    ensures Reach(v, m, n, m') && m'.rsp == m.rsp + 8
    ensures Exec(p, fuel, Switch(e, items), Top, st) == Stopped(Departs)
  {
    hide Place, Size, Reach, U32, Ext, ECode, ItemCode, Dispatch, DefaultJump, LabelPos, Eval, ExecItems,
      Target, StmtAt, SCode, Extended, LabelOf, IntCases, FaithfulItems;
    SwitchAt(v, c, e, items, g, pos, true, true);
    var l, k := g.next, LabelCount(items);
    var g1 := g.(next := l + k + 2);
    var cb := Ctx(l + k + 1, c.cont, c.gotos);
    var body := ItemCode(items, l, l + k + 1, c.cont, g1);
    var sel := Cat(Dispatch(items, l, body.g.next), DefaultJump(items, l));
    var bpos := pos + Size(ECode(e)) + 6;
    var at := bpos + Size(body.code);
    var a, m1 := SimExpr(v, p, nx, fuel, st, e, m);
    var r := Eval(p, fuel, st, e);
    FaithfulCases(items, true);
    var b, m2 := SelectTarget(v, m1, l + k, sel, items, l, body.g.next, r.v, r.st);
    TargetAt(v, cb, items, l, g1, bpos, true, r.v);
    var d, m3 := SimItems(v, p, nx, fuel, cb, items, l, g1, bpos, true, Skip(Target(items, r.v).k), r.st, m2);
    var f, m4 := PopAgain(v, m3);
    Then(v, m, a, m1, b, m2);
    Then(v, m, a + b, m2, d, m3);
    Then(v, m, a + b + d, m3, f, m4);
    n, m' := a + b + d + f, m4;
  }

  lemma {:induction false} PopAgain(v: Env, m: M) returns (n: nat, m': M)
    requires Place(v, m.pc, I(PopRax)).InPlace? && Aligned(m.rsp)
    ensures Reach(v, m, n, m') && m'.rsp == m.rsp + 8
  {
    m' := Do(PopRax, m).m;
    n := One(v, m, PopRax, m');
  }

  /** switch (0) { case 0: ; } */
  function OneCase(): Items { ICase(0, 0, IStmt(Null, INil)) }

  /** It falls off the end of its body, in whatever function it stands. */
  lemma {:induction false} OneCaseRunsOff(v: Env, c: Ctx, g: G, pos: int, st: Store, m: M) returns (n: nat, m': M)
    requires v.entry == [] && StmtAt(v, c, Switch(Const(0), OneCase()), g, pos, true, true).InPlace?
    requires Good(m, st) && m.pc == pos
    ensures Reach(v, m, n, m') && m'.rsp == m.rsp + 8
  {
    hide Place, Size, Good, Reach, StmtAt, SCode, FunctionOk;
    assert Loaded(v, [], []).InPlace?;
    OneCaseRun(st);
    n, m' := SwitchRunsOff(v, [], [], 0, c, Const(0), OneCase(), g, pos, st, m);
  }

  lemma {:induction false} OneCaseRun(st: Store)
    ensures Eval([], 0, st, Const(0)) == Value(0, st)
    ensures RunsOff([], 0, OneCase(), Eval([], 0, st, Const(0)))
  {
    var items := OneCase();
    assert Target(items, 0) == Item(0);
    assert Exec([], 0, Null, Top, st) == Normal(st);
    assert ExecItems([], 0, IStmt(Null, INil), Skip(0), st) == ExecItems([], 0, INil, Skip(0), st) == Normal(st);
  }

  // ----- The implicit return -----

  /** void f(int x) { if (x) return; } */
  function EarlyReturn(): Func { Func(1, 1, If(Var(0), Return(NoExpr)), false) }

  /** Its last byte is the 0xC3 of the inner return, so it gets no return at its end. */
  lemma {:induction false} EarlyReturnHasNoEnd(next: int)
    ensures var f := EarlyReturn();
      var main := Cat(PrologueCode(f), BodyCode(f, next).code);
      EndsInC3(main) && !NeverEnds(f.body) && FuncCode(f, next) == Cat(main, Nil)
  {
    hide Encode;
    var f := EarlyReturn();
    var body := BodyCode(f, next).code;
    var test := TestCode(Var(0), Eq, next);
    var ret := Cat(Nil, EPILOGUE);
    assert SCode(Return(NoExpr), -1, -1, G(next + 2, map[])).code == ret;
    assert body == Cat(test, Cat(ret, Lab(next)));
    RetEnds();
    CatEnds(Nil, EPILOGUE);
    SizeNil(); Sizes(next, Eq);
    LastEmpty(ret, Lab(next));
    CatEnds(test, Cat(ret, Lab(next)));
    CatEnds(PrologueCode(f), body);
  }

  lemma {:induction false} RetEnds()
    ensures EndsInC3(EPILOGUE) && Size(EPILOGUE) > 0
  {
    assert Encode(Ret) == [0xC3];
    assert EndsInC3(Cat(I(PopRbp), I(Ret)));
  }

  lemma {:induction false} CatEnds(a: Code, b: Code)
    requires Size(b) > 0 && EndsInC3(b)
    ensures EndsInC3(Cat(a, b)) && Size(Cat(a, b)) > 0
  {
  }

  lemma {:induction false} LastEmpty(a: Code, b: Code)
    requires Size(b) == 0 && EndsInC3(a) && Size(a) > 0
    ensures EndsInC3(Cat(a, b)) && Size(Cat(a, b)) > 0
  {
  }

  /** A function whose body runs off its end returns if and only if the last byte of
      its body is not 0xC3; otherwise control goes on behind it, with its frame still
      open. */
  lemma {:induction false} ImplicitReturnExactly(v: Env, p: Program, nx: seq<int>, fuel: nat, fn: nat, vals: seq<int>, m: M)
    returns (n: nat, m': M)
    requires Loaded(v, p, nx).InPlace? && fn < |p| && |vals| == p[fn].nparams <= p[fn].slots
    requires m.pc == v.entry[fn] && Aligned(m.rsp) && ArgsReady(m, vals)
    requires RunBody(p, fuel, fn, Top, EntryStore(p[fn], vals)).Normal?
    ensures |nx| == |p|
    ensures var c3 := EndsInC3(Cat(PrologueCode(p[fn]), BodyCode(p[fn], nx[fn]).code));
      && (!c3 ==> ReturnedTo(v, m, n, m'))
      && (c3 ==> Reach(v, m, n, m') && m'.pc == m.pc + Size(FuncCode(p[fn], nx[fn])) && InFrame(m, m'))
      && (m'.rsp == m.rsp + 8 <==> !c3)
  {
    hide Place, Size, Good, Kept, Reach, U32, RunBody, EntryStore, ArgsReady, Aligned, PrologueCode, SCode, EndsInC3,
      ReturnedTo, InFrame, EPILOGUE, Extends, Loaded, FaithfulStmt;
    EntryAt(v, p, nx, fn);
    var f, next := p[fn], nx[fn];
    var st := EntryStore(f, vals);
    var o := RunBody(p, fuel, fn, Top, st);
    n, m' := SimFunction(v, p, nx, fuel, fn, vals, m);
    if f.sealed {
      Returned8(v, m, n, m');
    } else {
      var main := Cat(PrologueCode(f), BodyCode(f, next).code);
      Parts2(v, m.pc, main, Nil); Parts2(v, m.pc, PrologueCode(f), BodyCode(f, next).code); SizeNil();
      var a, m1 := PrologueSteps(v, m, f, vals);
      var b, m2 := SimRun(v, p, nx, fuel, fn, Top, st, m1, m1.pc);
      Then(v, m, a, m1, b, m2);
      FrameKept(m, m1, m2, st);
      StillBelow(m, m2, o.st);
      n, m' := a + b, m2;
    }
  }

  lemma {:induction false} Returned8(v: Env, m: M, n: nat, m': M)
    requires ReturnedTo(v, m, n, m')
    ensures m'.rsp == m.rsp + 8
  {
  }

  lemma {:induction false} StillBelow(m: M, m': M, st: Store)
    requires InFrame(m, m') && Good(m', st)
    ensures m'.rsp < m.rsp
  {
  }

  /** Called with 0, it runs into whatever code comes after it. */
  lemma {:induction false} EarlyReturnFallsThrough(v: Env, next: int, m: M) returns (n: nat, m': M)
    requires v.entry == [m.pc] && next >= 0 && Place(v, m.pc, FuncCode(EarlyReturn(), next)).InPlace?
    requires Aligned(m.rsp) && ArgsReady(m, [0])
    ensures Reach(v, m, n, m') && m'.pc == m.pc + Size(FuncCode(EarlyReturn(), next)) && InFrame(m, m')
  {
    hide Place, Size, Reach, Aligned, ArgsReady, PrologueCode, SCode, EndsInC3, FuncCode, Exec, EntryStore, InFrame, RunBody,
      FaithfulStmt, ReturnedTo, FunctionOk;
    var f, p := EarlyReturn(), [EarlyReturn()];
    EarlyReturnHasNoEnd(next);
    EarlyLoaded(v, next, m.pc);
    EarlyRun(p);
    n, m' := ImplicitReturnExactly(v, p, [next], 0, 0, [0], m);
  }

  lemma {:induction false} EarlyLoaded(v: Env, next: int, at: int)
    requires v.entry == [at] && next >= 0 && Place(v, at, FuncCode(EarlyReturn(), next)).InPlace?
    ensures Loaded(v, [EarlyReturn()], [next]).InPlace?
  {
    hide Place, PrologueCode, EndsInC3, FuncCode, FaithfulStmt, SCode;
    EarlyReturnHasNoEnd(next);
    EarlyFaithful();
  }

  lemma {:induction false} EarlyFaithful()
    ensures FaithfulStmt(EarlyReturn().body, false, false)
  {
  }

  lemma {:induction false} EarlyRun(p: Program)
    requires p == [EarlyReturn()]
    ensures EntryStore(EarlyReturn(), [0]) == [Set(0)]
    ensures RunBody(p, 0, 0, Top, [Set(0)]) == Normal([Set(0)])
  {
    hide Eval;
    ZeroVar(p);
  }

  lemma {:induction false} ZeroVar(p: Program)
    ensures Eval(p, 0, [Set(0)], Var(0)) == Value(0, [Set(0)])
  {
    hide Wrap;
    WrapInt(0);
  }
}
