/** Calls: passing arguments, the callee's frame, and coming back. */
module Arguments {
  import opened Words
  import opened X86
  import opened CSource
  import opened CodeGen
  import opened Blocks
  import opened Frames
  import opened Snippets

  // ----- Programs and calls -----

  /** Every function of p is loaded at its entry, compiled with label numbers from nx. */
  ghost function Loaded(v: Env, p: Program, nx: seq<int>): Placement
  {
    Check(|v.entry| == |p| == |nx|
      && forall fn {:trigger p[fn]} :: 0 <= fn < |p| ==> FunctionOk(v, p[fn], v.entry[fn], nx[fn]))
  }

  ghost predicate FunctionOk(v: Env, f: Func, at: int, next: int)
  {
    && Place(v, at, FuncCode(f, next)).InPlace?
    && FaithfulStmt(f.body, false, false) && 0 <= next && f.nparams <= 14
    && (f.sealed <==> !EndsInC3(Cat(PrologueCode(f), BodyCode(f, next).code)))
  }

  /** The arguments are where the callee looks: six registers, then the stack
      above the return address. */
  ghost predicate ArgsReady(m: M, vals: seq<int>)
  {
    && (forall i {:trigger vals[i]} :: 0 <= i < |vals| && i < 6 ==> U32(ArgReg(m, i)) == U32(vals[i]))
    && (forall i {:trigger vals[i]} :: 6 <= i < |vals| ==> U32(Rd(m.mem, m.rsp + 8 + 8 * (i - 6))) == U32(vals[i]))
  }

  /** Back at the caller: the return address is popped and the rest of the stack is untouched. */
  ghost predicate ReturnedTo(v: Env, m: M, n: nat, m': M)
  {
    && Reach(v, m, n, m') && m'.pc == Rd64(m.mem, m.rsp) && m'.rsp == m.rsp + 8 && m'.rbp == m.rbp
    && forall a {:trigger Rd(m'.mem, a)} :: a >= m.rsp ==> Rd(m'.mem, a) == Rd(m.mem, a)
  }

  ghost predicate FunctionDone(v: Env, m: M, n: nat, m': M, fuel: nat, o: Out)
  {
    match o
    case Returned(sv) => ReturnedTo(v, m, n, m') && (sv.Set? ==> U32(m'.rax) == U32(sv.v))
    case Normal(_) => ReturnedTo(v, m, n, m')
    case Stopped(h) => HaltDone(v, m, n, m', fuel, h)
    case _ => true
  }

  // ----- Passing arguments -----

  /** vs lies on top of the stack, the first value lowest. */
  ghost predicate Ascending(m: M, vs: seq<int>)
  {
    forall j {:trigger vs[j]} :: 0 <= j < |vs| ==> U32(Rd(m.mem, m.rsp + 8 * j)) == U32(vs[j])
  }

  /** vs lies on top of the stack, the last value lowest. */
  ghost predicate Descending(m: M, vs: seq<int>)
  {
    forall j {:trigger vs[j]} :: 0 <= j < |vs| ==> U32(Rd(m.mem, m.rsp + 8 * (|vs| - 1 - j))) == U32(vs[j])
  }

  /** k values were pushed over m; the rest of the stack is as it was. */
  ghost predicate Grown(m: M, m': M, k: nat, size: nat)
  {
    && m'.rsp == m.rsp - 8 * k && m'.rbp == m.rbp
    && forall a {:trigger Rd(m'.mem, a)} :: Outside(m, size, a) ==> Rd(m'.mem, a) == Rd(m.mem, a)
  }

  /** One more value, computed with the stack kept and then pushed. */
  lemma {:induction false} GrowOne(m: M, m1: M, m2: M, m3: M, k: nat, st: Store, val: int)
    requires Grown(m, m1, k, |st|) && Kept(m1, m2, |st|) && Pushed(m2, m3, val)
    ensures Grown(m, m3, k + 1, |st|)
  {
    forall a {:trigger Rd(m3.mem, a)} | Outside(m, |st|, a) ensures Rd(m3.mem, a) == Rd(m.mem, a) {
      assert Outside(m1, |st|, a);
      assert Rd(m2.mem, a) == Rd(m1.mem, a);
      assert Rd(m1.mem, a) == Rd(m.mem, a);
    }
  }

  lemma {:induction false} LowWord(mem: map<int, int>, p: int, val: int)
    requires Rd64(mem, p) == val
    ensures U32(Rd(mem, p)) == U32(val)
  {
    Reduced(Rd(mem, p), Rd(mem, p + 4), 0x1_0000_0000);
  }

  lemma {:induction false} AscendOne(m1: M, m2: M, m3: M, vs: seq<int>, x: int, val: int, size: nat)
    requires Ascending(m1, vs) && Kept(m1, m2, size) && Pushed(m2, m3, val) && U32(val) == U32(x)
    requires m1.rsp + 8 * |vs| <= m1.rbp - 4 * size
    ensures Ascending(m3, [x] + vs)
  {
    var ws := [x] + vs;
    forall j {:trigger ws[j]} | 0 <= j < |ws| ensures U32(Rd(m3.mem, m3.rsp + 8 * j)) == U32(ws[j]) {
      if j == 0 {
        LowWord(m3.mem, m3.rsp, val);
      } else {
        assert ws[j] == vs[j - 1];
        var a := m1.rsp + 8 * (j - 1);
        assert m3.rsp + 8 * j == a;
        assert Outside(m1, size, a);
        assert Rd(m3.mem, a) == Rd(m2.mem, a) == Rd(m1.mem, a);
      }
    }
  }

  ghost predicate LateDone(v: Env, m: M, n: nat, m': M, end: int, fuel: nat, r: ArgRes)
  {
    match r
    case Values(vs, st) =>
      Reach(v, m, n, m') && m'.pc == end && Good(m', st) && Grown(m, m', |vs|, |st|) && Ascending(m', vs)
    case ArgsHalted(h) => HaltDone(v, m, n, m', fuel, h)
  }

  ghost predicate EarlyDone(v: Env, m: M, n: nat, m': M, end: int, fuel: nat, r: ArgRes)
  {
    match r
    case Values(vs, st) =>
      Reach(v, m, n, m') && m'.pc == end && Good(m', st) && Grown(m, m', |vs|, |st|) && Descending(m', vs)
    case ArgsHalted(h) => HaltDone(v, m, n, m', fuel, h)
  }

  /** The instructions that pop argument i of k. */
  ghost function PairAt(v: Env, base: int, k: nat, i: nat): Placement
  {
    var at := base + 4 * (k - 1 - i);
    Check(Place(v, at, I(PopRax)).InPlace? && Place(v, at + 1, I(MovArg(i))).InPlace?)
  }

  ghost predicate PairsAt(v: Env, base: int, k: nat)
  {
    forall i: nat :: i < k ==> PairAt(v, base, k, i).InPlace?
  }

  /** Popping the first n of k arguments into their registers; code is at base. */
  lemma {:induction false} PopArgsSteps(v: Env, m: M, base: int, k: nat, n: nat, vals: seq<int>) returns (steps: nat, m': M)
    requires PairsAt(v, base, k) && n <= k <= 6 && k <= |vals| && m.pc == base + 4 * (k - n)
    requires Aligned(m.rsp) && Descending(m, vals[..n]) && RegsFrom(m, n, vals)
    ensures Reach(v, m, steps, m') && m'.pc == base + 4 * k && m'.rsp == m.rsp + 8 * n && m'.rbp == m.rbp
    ensures m'.mem == m.mem && RegsFrom(m', 0, vals)
    decreases n
  {
    if n == 0 {
      ReachSelf(v.prog, m);
      steps, m' := 0, m;
    } else {
      assert PairAt(v, base, k, n - 1).InPlace?;
      var a, m2 := PopOneArg(v, m, n, vals);
      assert m2.pc == base + 4 * (k - (n - 1));
      var b, m3 := PopArgsSteps(v, m2, base, k, n - 1, vals);
      Then(v, m, a, m2, b, m3);
      steps, m' := a + b, m3;
    }
  }

  /** One pop-and-move pair in front of c. */
  lemma {:induction false} PopShape(v: Env, pos: int, r: nat, c: Code)
    ensures Size(Cat(I(PopRax), Cat(I(MovArg(r)), c))) == 4 + Size(c)
    ensures Place(v, pos, Cat(I(PopRax), Cat(I(MovArg(r)), c))).InPlace? ==>
      Place(v, pos, I(PopRax)).InPlace? && Place(v, pos + 1, I(MovArg(r))).InPlace? && Place(v, pos + 4, c).InPlace?
  {
    var tail := Cat(I(MovArg(r)), c);
    assert Size(tail) == 3 + Size(c);
    if Place(v, pos, Cat(I(PopRax), tail)).InPlace? {
      Split(v, pos, I(PopRax), tail);
      Split(v, pos + 1, I(MovArg(r)), c);
    }
  }

  /** Argument i is popped by the i-th pair of instructions from the end. */
  lemma {:induction false} PopArgsAt(v: Env, base: int, k: nat, i: nat, at: int)
    requires Place(v, base, PopArgs(k)).InPlace? && i < k && at == base + 4 * (k - 1 - i)
    ensures Place(v, at, I(PopRax)).InPlace? && Place(v, at + 1, I(MovArg(i))).InPlace?
    decreases k
  {
    PopShape(v, base, k - 1, PopArgs(k - 1));
    if i < k - 1 {
      PopArgsAt(v, base + 4, k - 1, i, at);
    }
  }

  lemma {:induction false} PopArgsSize(v: Env, k: nat)
    ensures Size(PopArgs(k)) == 4 * k
  {
    if k > 0 {
      PopArgsSize(v, k - 1);
      PopShape(v, 0, k - 1, PopArgs(k - 1));
    }
  }

  /** The arguments with index n to 5 are in their registers. */
  ghost predicate RegsFrom(m: M, n: nat, vals: seq<int>)
  {
    forall i {:trigger vals[i]} :: n <= i < |vals| && i < 6 ==> U32(ArgReg(m, i)) == U32(vals[i])
  }

  lemma {:induction false} PopOneArg(v: Env, m: M, n: nat, vals: seq<int>) returns (k: nat, m': M)
    requires 1 <= n <= 6 && n <= |vals| && Descending(m, vals[..n]) && Aligned(m.rsp)
    requires Place(v, m.pc, I(PopRax)).InPlace? && Place(v, m.pc + 1, I(MovArg(n - 1))).InPlace?
    requires RegsFrom(m, n, vals)
    ensures Reach(v, m, k, m') && m'.pc == m.pc + 4 && m'.rsp == m.rsp + 8 && m'.rbp == m.rbp && m'.mem == m.mem
    ensures Descending(m', vals[..n - 1]) && RegsFrom(m', n - 1, vals) && Aligned(m'.rsp)
  {
    AlignedBy(m.rsp, 2);
    var m1 := Do(PopRax, m).m;
    var a := One(v, m, PopRax, m1);
    var m2 := Do(MovArg(n - 1), m1).m;
    var b := One(v, m1, MovArg(n - 1), m2);
    Then(v, m, a, m1, b, m2);
    k, m' := a + b, m2;
    assert vals[..n][n - 1] == vals[n - 1];
    LowWord(m.mem, m.rsp, m1.rax);
    assert U32(m1.rax) == U32(vals[n - 1]);
    var ws := vals[..n - 1];
    forall j {:trigger ws[j]} | 0 <= j < |ws| ensures U32(Rd(m'.mem, m'.rsp + 8 * (|ws| - 1 - j))) == U32(ws[j]) {
      assert ws[j] == vals[..n][j];
    }
  }

  lemma {:induction false} NothingPushed(v: Env, m: M, st: Store)
    requires Good(m, st)
    ensures Reach(v, m, 0, m) && Grown(m, m, 0, |st|) && Ascending(m, []) && Descending(m, [])
  {
    ReachSelf(v.prog, m);
  }

  /** One more argument, pushed on top of the later ones. */
  lemma {:induction false} LatePush(v: Env, m: M, a: nat, m1: M, b: nat, m2: M, at: int, f: Fill, vs: seq<int>, x: int,
                                    st0: Store, st1: Store, st2: Store)
    returns (n: nat, m': M)
    requires Good(m, st0) && Good(m1, st1) && |st2| == |st1| == |st0|
    requires Reach(v, m, a, m1) && Grown(m, m1, |vs|, |st1|) && Ascending(m1, vs)
    requires ValueDone(v, f, m1, b, m2, at, x, st2) && Place(v, at, I(PushRax)).InPlace?
    ensures Reach(v, m, n, m') && m'.pc == at + 1 && Good(m', st2) && Grown(m, m', |[x] + vs|, |st2|)
    ensures Ascending(m', [x] + vs)
  {
    hide Place, Size, Reach, U32, Ext, Ascending, Kept, Pushed, Grown;
    var c, m3 := PushStep(v, m2, st2);
    Then(v, m, a, m1, b, m2);
    Then(v, m, a + b, m2, c, m3);
    GrowOne(m, m1, m2, m3, |vs|, st2, m2.rax);
    GrownRsp(m, m1, |vs|, |st1|);
    AscendOne(m1, m2, m3, vs, x, m2.rax, |st2|);
    n, m' := a + b + c, m3;
  }

  lemma {:induction false} GrownRsp(m: M, m1: M, k: nat, size: nat)
    requires Grown(m, m1, k, size)
    ensures m1.rsp == m.rsp - 8 * k && m1.rbp == m.rbp
  {
  }

  /** The first of several early arguments, and then the others. */
  lemma {:induction false} EarlyJoin(v: Env, m: M, a: nat, m1: M, b: nat, m2: M, c: nat, m3: M, f: Fill, at: int, end: int,
                                     x: int, vs: seq<int>, st0: Store, st1: Store, st2: Store)
    requires Good(m, st0) && |st0| == |st1| == |st2|
    requires ValueDone(v, f, m, a, m1, at, x, st1) && Reach(v, m1, b, m2) && Pushed(m1, m2, m1.rax)
    requires Reach(v, m2, c, m3) && m3.pc == end && Good(m3, st2) && Grown(m2, m3, |vs|, |st2|) && Descending(m3, vs)
    ensures Reach(v, m, a + b + c, m3) && Good(m3, st2) && Grown(m, m3, |[x] + vs|, |st2|) && Descending(m3, [x] + vs)
  {
    hide Place, Size, Reach, U32, Ext;
    Then(v, m, a, m1, b, m2);
    Then(v, m, a + b, m2, c, m3);
    forall a {:trigger Rd(m3.mem, a)} | Outside(m, |st2|, a) ensures Rd(m3.mem, a) == Rd(m.mem, a) {
      assert Rd(m1.mem, a) == Rd(m.mem, a);
      assert Rd(m2.mem, a) == Rd(m1.mem, a);
      assert Outside(m2, |st2|, a);
    }
    var ws := [x] + vs;
    forall j {:trigger ws[j]} | 0 <= j < |ws| ensures U32(Rd(m3.mem, m3.rsp + 8 * (|ws| - 1 - j))) == U32(ws[j]) {
      if j == 0 {
        LowWord(m2.mem, m2.rsp, m1.rax);
        assert Outside(m2, |st2|, m2.rsp);
        assert Rd(m3.mem, m2.rsp) == Rd(m2.mem, m2.rsp);
      } else {
        assert ws[j] == vs[j - 1];
      }
    }
  }

  /** The value of one early argument, its push, and what the others do. */
  lemma {:induction false} EarlyNext(v: Env, m: M, a: nat, m1: M, b: nat, m2: M, c: nat, m3: M, f: Fill, at: int, end: int,
                                     x: int, fuel: nat, st0: Store, st1: Store, r: ArgRes)
    requires Good(m, st0) && |st0| == |st1| && (r.Values? ==> |r.st| == |st1|)
    requires ValueDone(v, f, m, a, m1, at, x, st1) && Reach(v, m1, b, m2) && Pushed(m1, m2, m1.rax)
    requires EarlyDone(v, m2, c, m3, end, fuel, r)
    ensures EarlyDone(v, m, a + b + c, m3, end, fuel, match r case Values(vs, st2) => Values([x] + vs, st2) case ArgsHalted(h) => r)
  {
    hide Place, Size, Reach, U32, Ext, Good, Kept, Grown, Descending, Pushed, HaltDone;
    match r {
      case ArgsHalted(h) =>
        FromValue(v, f, m, a, m1, at, x, st1);
        Then(v, m, a, m1, b, m2);
        HaltLater(v, m, a + b, m2, c, m3, fuel, h);
      case Values(vs, st2) => EarlyJoin(v, m, a, m1, b, m2, c, m3, f, at, end, x, vs, st0, st1, st2);
    }
  }

  lemma {:induction false} FromValue(v: Env, f: Fill, m: M, n: nat, m': M, end: int, x: int, st: Store)
    requires ValueDone(v, f, m, n, m', end, x, st)
    ensures Reach(v, m, n, m')
  {
  }

  /** How many arguments go where. */
  lemma {:induction false} ArgCounts(p: Program, fuel: nat, st: Store, args: Args, k: nat)
    ensures var r := EvalRegs(p, fuel, st, args, k);
      r.Values? ==> |r.vs| == if k >= 6 then 0 else if Count(args) <= 6 - k then Count(args) else 6 - k
    ensures var r := EvalStack(p, fuel, st, args, k);
      r.Values? ==> |r.vs| == if k >= 6 then Count(args) else if k + Count(args) <= 6 then 0 else k + Count(args) - 6
    decreases args
  {
    hide Eval;
    match args {
      case ANil =>
      case ACons(a, tl) =>
        ArgCounts(p, fuel, st, tl, k + 1);
        var r := Eval(p, fuel, st, a);
        if r.Value? { ArgCounts(p, fuel, r.st, tl, k + 1); }
    }
  }

  ghost predicate CallDone(v: Env, m: M, n: nat, m': M, end: int, fuel: nat, r: CallRes)
  {
    match r
    case Called(sv, st) =>
      Reach(v, m, n, m') && m'.pc == end && Good(m', st) && Kept(m, m', |st|) && (sv.Set? ==> m'.rax == Ext(sv.v))
    case CallHalted(h) => HaltDone(v, m, n, m', fuel, h)
  }

  /** Memory from address a up is the same. */
  ghost predicate SameFrom(m: M, m': M, a: int)
  {
    forall b {:trigger Rd(m'.mem, b)} :: b >= a ==> Rd(m'.mem, b) == Rd(m.mem, b)
  }

  /** The call instruction pushes the return address and jumps to the function. */
  lemma {:induction false} CallStep(v: Env, m: M, fn: nat) returns (n: nat, m': M)
    requires Place(v, m.pc, CallF(fn)).InPlace? && Aligned(m.rsp)
    ensures n >= 1 && Reach(v, m, n, m') && fn < |v.entry| && m'.pc == v.entry[fn] && m'.rsp == m.rsp - 8
    ensures m'.rbp == m.rbp && Aligned(m'.rsp) && Rd64(m'.mem, m'.rsp) == m.pc + 5 && SameFrom(m, m', m.rsp)
    ensures forall r :: 0 <= r < 6 ==> ArgReg(m', r) == ArgReg(m, r)
  {
    hide Reach, Aligned;
    AlignedBy(m.rsp, -2);
    var i := CallRel(v.entry[fn] - (m.pc + 5));
    m' := Do(i, m).m;
    Rd64OfWr64(m.mem, m.rsp - 8, m.pc + 5);
    n := One(v, m, i, m');
  }

  /** Registers and stack hold the arguments at the entry of the function. */
  lemma {:induction false} ArgsArrive(m1: M, m2: M, m3: M, m4: M, early: seq<int>, late: seq<int>, size: nat)
    requires Ascending(m1, late) && Grown(m1, m2, |early|, size) && m3.mem == m2.mem && m3.rsp == m1.rsp
    requires RegsFrom(m3, 0, early) && |early| <= 6 && (late != [] ==> |early| == 6)
    requires m1.rsp + 8 * |late| <= m1.rbp - 4 * size
    requires m4.rsp == m3.rsp - 8 && SameFrom(m3, m4, m3.rsp) && forall r :: 0 <= r < 6 ==> ArgReg(m4, r) == ArgReg(m3, r)
    ensures ArgsReady(m4, early + late)
  {
    hide ArgReg, U32;
    var vals := early + late;
    forall i {:trigger vals[i]} | 0 <= i < |vals| && i < 6 ensures U32(ArgReg(m4, i)) == U32(vals[i]) {
      assert vals[i] == early[i];
    }
    forall i {:trigger vals[i]} | 6 <= i < |vals| ensures U32(Rd(m4.mem, m4.rsp + 8 + 8 * (i - 6))) == U32(vals[i]) {
      assert vals[i] == late[i - 6];
      var a := m1.rsp + 8 * (i - 6);
      assert m4.rsp + 8 + 8 * (i - 6) == a;
      assert Outside(m1, size, a);
      assert Rd(m4.mem, a) == Rd(m3.mem, a) == Rd(m1.mem, a);
    }
  }

  /** From the pushed arguments to the entry of the function. */
  lemma {:induction false} CallEnter(v: Env, m: M, m1: M, m2: M, fn: nat, early: seq<int>, late: seq<int>,
                                     st0: Store, st: Store)
    returns (n: nat, m4: M)
    requires Good(m, st0) && |st0| == |st| && Good(m2, st) && |early| <= 6 && (late != [] ==> |early| == 6)
    requires Grown(m, m1, |late|, |st|) && Ascending(m1, late) && Grown(m1, m2, |early|, |st|) && Descending(m2, early)
    requires Place(v, m2.pc, PopArgs(|early|)).InPlace? && Place(v, m2.pc + 4 * |early|, CallF(fn)).InPlace?
    ensures n >= 1 && Reach(v, m2, n, m4) && fn < |v.entry| && m4.pc == v.entry[fn]
    ensures Aligned(m4.rsp) && m4.rsp == m1.rsp - 8 && m4.rbp == m.rbp
    ensures Rd64(m4.mem, m4.rsp) == m2.pc + 4 * |early| + 5 && ArgsReady(m4, early + late) && SameFrom(m2, m4, m1.rsp)
  {
    hide Place, Reach, U32, ArgReg, Ascending, Rd64, Aligned, SameFrom, ArgsReady;
    var k := |early|;
    forall i: nat | i < k ensures PairAt(v, m2.pc, k, i).InPlace? {
      PopArgsAt(v, m2.pc, k, i, m2.pc + 4 * (k - 1 - i));
    }
    assert early[..k] == early;
    var a, m3 := PopArgsSteps(v, m2, m2.pc, k, k, early);
    AlignedBy(m.rsp, -2 * |late|);
    assert m3.rsp == m.rsp + 4 * (-2 * |late|);
    var b, m5 := CallStep(v, m3, fn);
    Then(v, m2, a, m3, b, m5);
    ArgsArrive(m1, m2, m3, m5, early, late, |st|);
    SameFromMem(m2, m3, m5, m1.rsp);
    n, m4 := a + b, m5;
  }

  lemma {:induction false} SameFromMem(m2: M, m3: M, m4: M, a: int)
    requires m3.mem == m2.mem && SameFrom(m3, m4, a)
    ensures SameFrom(m2, m4, a)
  {
  }

  /** The caller's stack after the call: m4 at the entry, m5 after the return,
      m6 after the arguments are dropped. */
  lemma {:induction false} CallStack(m: M, m1: M, m2: M, m4: M, m5: M, m6: M, j: nat, k: nat, st0: Store, st: Store)
    requires Good(m, st0) && |st0| == |st| && Good(m2, st)
    requires Grown(m, m1, k, |st|) && Grown(m1, m2, j, |st|)
    requires m4.rsp == m1.rsp - 8 && SameFrom(m2, m4, m1.rsp) && SameFrom(m4, m5, m4.rsp)
    requires m6.mem == m5.mem && m6.rsp == m.rsp && m6.rbp == m.rbp
    ensures Good(m6, st) && Kept(m, m6, |st|)
  {
    hide Aligned, U32;
    forall a {:trigger Rd(m6.mem, a)} | a >= m1.rsp ensures Rd(m6.mem, a) == Rd(m2.mem, a) {
      assert Rd(m5.mem, a) == Rd(m4.mem, a);
      assert Rd(m4.mem, a) == Rd(m2.mem, a);
    }
    forall i {:trigger st[i]} | 0 <= i < |st| && st[i].Set? ensures Rd(m6.mem, SlotAddr(m6.rbp, i)) == U32(st[i].v) {
      assert SlotAddr(m.rbp, i) >= m1.rsp;
    }
    forall a {:trigger Rd(m6.mem, a)} | Outside(m, |st|, a) ensures Rd(m6.mem, a) == Rd(m.mem, a) {
      assert Outside(m1, |st|, a);
      assert Rd(m2.mem, a) == Rd(m1.mem, a);
      assert Rd(m1.mem, a) == Rd(m.mem, a);
    }
  }

  /** After the return: the stack arguments go, and eax is sign-extended. */
  lemma {:induction false} DropSteps(v: Env, m: M, count: nat) returns (n: nat, m': M)
    requires Place(v, m.pc, DropCode(count)).InPlace? && Place(v, m.pc + Size(DropCode(count)), I(Movsxd)).InPlace?
    ensures Reach(v, m, n, m') && m'.pc == m.pc + Size(DropCode(count)) + 3 && m'.mem == m.mem && m'.rbp == m.rbp
    ensures m'.rsp == m.rsp + (if count > 6 then 8 * (count - 6) else 0) && m'.rax == Ext(S32(m.rax))
  {
    hide Place, Size, Reach, S32;
    var m1, a := m, 0;
    ReachSelf(v.prog, m);
    HereReach(v, m);
    if count > 6 {
      SizeI(AddRsp((count - 6) * 8));
      m1 := Do(AddRsp((count - 6) * 8), m).m;
      a := One(v, m, AddRsp((count - 6) * 8), m1);
    } else {
      SizeNil();
    }
    m' := Do(Movsxd, m1).m;
    n := One(v, m1, Movsxd, m');
    Then(v, m, a, m1, n, m');
    n := a + n;
  }

  lemma {:induction false} CallShape(v: Env, pos: int, l: Code, e: Code, k: nat, fn: nat, count: nat)
    ensures var c := Cat(l, Cat(e, Cat(PopArgs(k), Cat(CallF(fn), Cat(DropCode(count), I(Movsxd))))));
      && Size(c) == Size(l) + Size(e) + 4 * k + 5 + Size(DropCode(count)) + 3
      && (Place(v, pos, c).InPlace? ==>
           Place(v, pos, l).InPlace? && Place(v, pos + Size(l), e).InPlace?
           && Place(v, pos + Size(l) + Size(e), PopArgs(k)).InPlace?
           && Place(v, pos + Size(l) + Size(e) + 4 * k, CallF(fn)).InPlace?
           && Place(v, pos + Size(l) + Size(e) + 4 * k + 5, DropCode(count)).InPlace?
           && Place(v, pos + Size(l) + Size(e) + 4 * k + 5 + Size(DropCode(count)), I(Movsxd)).InPlace?)
  {
    hide Place, Size, PopArgs, DropCode;
    PopArgsSize(v, k); SizeCall(fn); SizeI(Movsxd);
    Parts5(v, pos, l, e, PopArgs(k), CallF(fn), Cat(DropCode(count), I(Movsxd)));
    Parts2(v, pos + Size(l) + Size(e) + 4 * k + 5, DropCode(count), I(Movsxd));
  }
}
