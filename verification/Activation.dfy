/** Entering and leaving a function: the frame, the spilled parameters, the
    epilogue, and when the generator leaves the epilogue out. */
module Activation {
  import opened Words
  import opened X86
  import opened CSource
  import opened CodeGen
  import opened Blocks
  import opened Frames
  import opened Snippets
  import opened Arguments
  import opened Statements

  lemma {:induction false} EpilogueShape(v: Env, pos: int)
    ensures Place(v, pos, EPILOGUE).InPlace? ==>
      Place(v, pos, I(MovRspRbp)).InPlace? && Place(v, pos + 3, I(PopRbp)).InPlace? && Place(v, pos + 4, I(Ret)).InPlace?
  {
    hide Place, Size;
    SizeI(MovRspRbp); SizeI(PopRbp); SizeI(Ret);
    Parts3(v, pos, I(MovRspRbp), I(PopRbp), I(Ret));
  }

  /** The epilogue restores the caller's frame, whatever is on the stack. */
  lemma {:induction false} EpilogueSteps(v: Env, m: M, st: Store) returns (n: nat, m': M)
    requires Place(v, m.pc, EPILOGUE).InPlace? && Good(m, st)
    ensures Left(v, m, n, m') && m'.rax == m.rax
  {
    hide Place, Size, Reach, Rd64, Aligned, EPILOGUE;
    EpilogueShape(v, m.pc);
    AlignedBy(m.rbp, 2);
    var m1 := Do(MovRspRbp, m).m;
    var a := One(v, m, MovRspRbp, m1);
    var m2 := Do(PopRbp, m1).m;
    var b := One(v, m1, PopRbp, m2);
    m' := Do(Ret, m2).m;
    var c := One(v, m2, Ret, m');
    Then(v, m, a, m1, b, m2);
    Then(v, m, a + b, m2, c, m');
    n := a + b + c;
  }

  // ----- The prologue -----

  /** The parameters from i on are still where the caller put them. */
  ghost predicate Pending(m: M, i: nat, vals: seq<int>)
  {
    && (forall j {:trigger vals[j]} :: i <= j < |vals| && j < 6 ==> U32(ArgReg(m, j)) == U32(vals[j]))
    && (forall j {:trigger vals[j]} :: i <= j < |vals| && j >= 6 ==>
          U32(Rd(m.mem, m.rbp + 16 + 8 * (j - 6))) == U32(vals[j]))
  }

  /** The store after the first i parameters have been spilled. */
  function Spilled(slots: nat, vals: seq<int>, i: nat): (st: Store)
    requires i <= |vals| <= slots
    ensures |st| == slots
  {
    seq(slots, j => if 0 <= j < i then Set(vals[j]) else Unset)
  }

  /** m1 runs in the frame built over the entry state m0. */
  ghost predicate InFrame(m0: M, m1: M)
  {
    m1.rbp == m0.rsp - 8 && Rd64(m1.mem, m1.rbp) == m0.rbp && SameFrom(m0, m1, m0.rsp)
  }

  lemma {:induction false} FrameKept(m0: M, m1: M, m2: M, st: Store)
    requires InFrame(m0, m1) && Good(m1, st) && Kept(m1, m2, |st|)
    ensures InFrame(m0, m2)
  {
    hide Aligned;
    assert Outside(m1, |st|, m1.rbp) && Outside(m1, |st|, m1.rbp + 4);
    forall a {:trigger Rd(m2.mem, a)} | a >= m0.rsp ensures Rd(m2.mem, a) == Rd(m0.mem, a) {
      assert Outside(m1, |st|, a);
      assert Rd(m1.mem, a) == Rd(m0.mem, a);
    }
  }

  /** One register parameter. */
  lemma {:induction false} SpillRegister(v: Env, m: M, slots: nat, vals: seq<int>, i: nat) returns (n: nat, m': M)
    requires i < |vals| <= slots && i < 6 && Place(v, m.pc, I(StoreArg(i, Off(i)))).InPlace?
    requires Good(m, Spilled(slots, vals, i)) && Pending(m, i, vals)
    ensures Reach(v, m, n, m') && m'.pc == m.pc + Len(StoreArg(i, Off(i)))
    ensures Good(m', Spilled(slots, vals, i + 1)) && Kept(m, m', slots) && Pending(m', i + 1, vals)
  {
    hide Place, Size, Reach, Aligned, Kept, Good;
    var i' := StoreArg(i, Off(i));
    GoodAligned(m, Spilled(slots, vals, i), i);
    m' := Do(i', m).m;
    n := One(v, m, i', m');
    assert U32(ArgReg(m, i)) == U32(vals[i]);
    SlotWritten(m, m', Spilled(slots, vals, i), i, vals[i]);
    assert Spilled(slots, vals, i)[i := Set(vals[i])] == Spilled(slots, vals, i + 1);
    PendingNext(m, m', i, vals, slots, Spilled(slots, vals, i));
  }

  lemma {:induction false} GoodAligned(m: M, st: Store, x: nat)
    requires Good(m, st)
    ensures Aligned(m.rbp) && Aligned(SlotAddr(m.rbp, x)) && m.rsp <= m.rbp
  {
    hide Aligned;
    AlignedBy(m.rbp, -(x + 1));
  }

  lemma {:induction false} PendingNext(m: M, m': M, i: nat, vals: seq<int>, slots: nat, st: Store)
    requires Pending(m, i, vals) && Kept(m, m', slots) && Good(m, st) && |st| == slots
    requires forall r :: i < r < 6 ==> ArgReg(m', r) == ArgReg(m, r)
    ensures Pending(m', i + 1, vals)
  {
    hide Aligned, ArgReg, U32;
    forall j {:trigger vals[j]} | i + 1 <= j < |vals| && j >= 6
      ensures U32(Rd(m'.mem, m'.rbp + 16 + 8 * (j - 6))) == U32(vals[j])
    {
      assert Outside(m, slots, m.rbp + 16 + 8 * (j - 6));
    }
  }

  /** One stack parameter goes through eax. */
  lemma {:induction false} SpillStack(v: Env, m: M, slots: nat, vals: seq<int>, i: nat) returns (n: nat, m': M)
    requires 6 <= i < |vals| <= slots && Place(v, m.pc, I(LoadEax(0x10 + (i - 6) * 8))).InPlace?
    requires Place(v, m.pc + Len(LoadEax(0x10 + (i - 6) * 8)), I(StoreEax(Off(i)))).InPlace?
    requires Good(m, Spilled(slots, vals, i)) && Pending(m, i, vals)
    ensures Reach(v, m, n, m') && m'.pc == m.pc + Len(LoadEax(0x10 + (i - 6) * 8)) + Len(StoreEax(Off(i)))
    ensures Good(m', Spilled(slots, vals, i + 1)) && Kept(m, m', slots) && Pending(m', i + 1, vals)
  {
    hide Place, Size, Reach, Aligned, Kept, Good, U32;
    var st := Spilled(slots, vals, i);
    var l := LoadEax(0x10 + (i - 6) * 8);
    GoodAligned(m, st, i);
    AlignedBy(m.rbp, 4 + 2 * (i - 6));
    var m1 := Do(l, m).m;
    var a := One(v, m, l, m1);
    U32OfU32(Rd(m.mem, m.rbp + 16 + 8 * (i - 6)));
    assert U32(Rd(m.mem, m.rbp + 16 + 8 * (i - 6))) == U32(vals[i]);
    KeptSame(m, m1, st);
    var b, m2 := StoreStep(v, m1, st, i, vals[i]);
    Then(v, m, a, m1, b, m2);
    KeptThen(m, m1, m2, slots);
    assert st[i := Set(vals[i])] == Spilled(slots, vals, i + 1);
    PendingNext(m, m2, i, vals, slots, st);
    n, m' := a + b, m2;
  }

  lemma {:induction false} SpillSteps(v: Env, m: M, slots: nat, vals: seq<int>, i: nat) returns (n: nat, m': M)
    requires i <= |vals| <= slots && Place(v, m.pc, SpillCode(i, |vals|)).InPlace?
    requires Good(m, Spilled(slots, vals, i)) && Pending(m, i, vals)
    ensures Reach(v, m, n, m') && m'.pc == m.pc + Size(SpillCode(i, |vals|))
    ensures Good(m', Spilled(slots, vals, |vals|)) && Kept(m, m', slots)
    decreases |vals| - i
  {
    hide Place, Size, Reach, Aligned, Kept, Good, U32, Pending, Spilled;
    if i == |vals| {
      SizeNil(); HereReach(v, m);
      KeptSame(m, m, Spilled(slots, vals, i));
      n, m' := 0, m;
    } else {
      var a, m1 := 0, m;
      if i < 6 {
        SizeI(StoreArg(i, Off(i)));
        Parts2(v, m.pc, I(StoreArg(i, Off(i))), SpillCode(i + 1, |vals|));
        a, m1 := SpillRegister(v, m, slots, vals, i);
      } else {
        SizeI(LoadEax(0x10 + (i - 6) * 8)); SizeI(StoreEax(Off(i)));
        Parts3(v, m.pc, I(LoadEax(0x10 + (i - 6) * 8)), I(StoreEax(Off(i))), SpillCode(i + 1, |vals|));
        a, m1 := SpillStack(v, m, slots, vals, i);
      }
      var b, m2 := SpillSteps(v, m1, slots, vals, i + 1);
      Then(v, m, a, m1, b, m2);
      KeptThen(m, m1, m2, slots);
      n, m' := a + b, m2;
    }
  }

  /** push rbp; mov rbp, rsp. */
  lemma {:induction false} LinkSteps(v: Env, m: M) returns (n: nat, m': M)
    requires Place(v, m.pc, I(PushRbp)).InPlace? && Place(v, m.pc + 1, I(MovRbpRsp)).InPlace? && Aligned(m.rsp)
    ensures Reach(v, m, n, m') && m'.pc == m.pc + 4 && m'.rsp == m'.rbp && InFrame(m, m') && Aligned(m'.rbp)
    ensures forall r :: 0 <= r < 6 ==> ArgReg(m', r) == ArgReg(m, r)
  {
    hide Place, Reach, Aligned;
    AlignedBy(m.rsp, -2);
    var m1 := Do(PushRbp, m).m;
    var a := One(v, m, PushRbp, m1);
    Rd64OfWr64(m.mem, m.rsp - 8, m.rbp);
    m' := Do(MovRbpRsp, m1).m;
    n := One(v, m1, MovRbpRsp, m');
    Then(v, m, a, m1, n, m');
    n := a + n;
  }

  /** Rounding up gives the next multiple of 16. */
  lemma {:induction false} Sixteens(n: nat)
    ensures Align16(n) % 16 == 0 && n <= Align16(n) < n + 16
  {
    DivModUnique(Align16(n), 16, (n + 15) / 16, 0);
  }

  lemma {:induction false} ReserveSteps(v: Env, m: M, slots: nat) returns (n: nat, m': M)
    requires Place(v, m.pc, FrameCode(slots)).InPlace? && m.rsp == m.rbp && Aligned(m.rbp)
    ensures Reach(v, m, n, m') && m'.pc == m.pc + Size(FrameCode(slots)) && m'.mem == m.mem && m'.rbp == m.rbp
    ensures Aligned(m'.rsp) && m'.rsp <= m'.rbp - 4 * slots && forall r :: 0 <= r < 6 ==> ArgReg(m', r) == ArgReg(m, r)
    ensures (m.rsp - m'.rsp) % 16 == 0
  {
    hide Place, Size, Reach, Aligned;
    if slots > 0 {
      var k := Align16(4 * slots);
      SizeI(SubRsp(k));
      AlignedBy(m.rsp, -4 * ((4 * slots + 15) / 16));
      Sixteens(4 * slots);
      m' := Do(SubRsp(k), m).m;
      n := One(v, m, SubRsp(k), m');
    } else {
      SizeNil(); HereReach(v, m);
      n, m' := 0, m;
    }
  }

  lemma {:induction false} PendingStart(m0: M, m1: M, vals: seq<int>)
    requires ArgsReady(m0, vals) && SameFrom(m0, m1, m0.rsp) && m1.rbp == m0.rsp - 8
    requires forall r :: 0 <= r < 6 ==> ArgReg(m1, r) == ArgReg(m0, r)
    ensures Pending(m1, 0, vals)
  {
    hide ArgReg, U32;
    forall j {:trigger vals[j]} | 6 <= j < |vals| ensures U32(Rd(m1.mem, m1.rbp + 16 + 8 * (j - 6))) == U32(vals[j]) {
      assert m0.rsp + 8 + 8 * (j - 6) == m1.rbp + 16 + 8 * (j - 6);
    }
  }

  /** The prologue builds the frame and stores the arguments in their slots.  It moves the
      stack by 8 more than a multiple of 16: behind a call that was made from a stack aligned
      to 16, as section 3.2.2 of the System V ABI for the x86-64 asks, it is aligned again. */
  lemma {:induction false} PrologueSteps(v: Env, m: M, f: Func, vals: seq<int>) returns (n: nat, m': M)
    requires Place(v, m.pc, PrologueCode(f)).InPlace? && Aligned(m.rsp) && ArgsReady(m, vals)
    requires |vals| == f.nparams <= f.slots
    ensures Reach(v, m, n, m') && m'.pc == m.pc + Size(PrologueCode(f))
    ensures Good(m', EntryStore(f, vals)) && InFrame(m, m') && (m.rsp - m'.rsp) % 16 == 8
  {
    hide Place, Size, Reach, Aligned, Kept, ArgsReady, Pending, Rd64, ArgReg;
    SizeI(PushRbp); SizeI(MovRbpRsp);
    Parts4(v, m.pc, I(PushRbp), I(MovRbpRsp), FrameCode(f.slots), SpillCode(0, f.nparams));
    var a, m1 := LinkSteps(v, m);
    var b, m2 := ReserveSteps(v, m1, f.slots);
    Then(v, m, a, m1, b, m2);
    FrameMem(m, m1, m2);
    PendingStart(m, m2, vals);
    FreshFrame(m2, f.slots, vals);
    var c, m3 := SpillSteps(v, m2, f.slots, vals, 0);
    Then(v, m, a + b, m2, c, m3);
    FrameKept(m, m2, m3, Spilled(f.slots, vals, 0));
    StackKept(m2, m3, f.slots);
    assert Spilled(f.slots, vals, |vals|) == EntryStore(f, vals);
    n, m' := a + b + c, m3;
  }

  lemma {:induction false} StackKept(m: M, m': M, size: nat)
    requires Kept(m, m', size)
    ensures m'.rsp == m.rsp
  {
  }

  lemma {:induction false} FrameMem(m: M, m1: M, m2: M)
    requires InFrame(m, m1) && m2.mem == m1.mem && m2.rbp == m1.rbp
    ensures InFrame(m, m2)
  {
  }

  lemma {:induction false} FreshFrame(m: M, slots: nat, vals: seq<int>)
    requires Aligned(m.rbp) && Aligned(m.rsp) && m.rsp <= m.rbp - 4 * slots && |vals| <= slots
    ensures Good(m, Spilled(slots, vals, 0))
  {
  }

  // ----- Returning -----

  lemma {:induction false} LeftReturns(v: Env, m: M, a: nat, m1: M, b: nat, m2: M)
    requires Reach(v, m, a, m1) && InFrame(m, m1) && Left(v, m1, b, m2)
    ensures ReturnedTo(v, m, a + b, m2)
  {
    hide Reach;
    Then(v, m, a, m1, b, m2);
    assert Rd(m1.mem, m.rsp) == Rd(m.mem, m.rsp) && Rd(m1.mem, m.rsp + 4) == Rd(m.mem, m.rsp + 4);
    forall d {:trigger Rd(m2.mem, d)} | d >= m.rsp ensures Rd(m2.mem, d) == Rd(m.mem, d) {
      assert Rd(m1.mem, d) == Rd(m.mem, d);
    }
  }

  /** A body of such a shape does not run off its end. */
  lemma {:induction false} NeverEndsNormal(p: Program, fuel: nat, s: Stmt, from: Entry, st: Store)
    requires NeverEnds(s) && (from.AtLabel? ==> HasLabel(s, from.l))
    ensures !Exec(p, fuel, s, from, st).Normal?
    decreases s
  {
    match s {
      case Return(_) =>
      case Goto(_) =>
      case Block(ss) => NeverEndsListNormal(p, fuel, ss, from, st);
    }
  }

  lemma {:induction false} NeverEndsListNormal(p: Program, fuel: nat, ss: Stmts, from: Entry, st: Store)
    requires NeverEndsList(ss) && (from.AtLabel? ==> HasLabelIn(ss, from.l))
    ensures !ExecList(p, fuel, ss, from, st).Normal?
    decreases ss
  {
    hide Exec;
    var s, rest := ss.s, ss.rest;
    if from.AtLabel? && !HasLabel(s, from.l) {
      NeverEndsListNormal(p, fuel, rest, from, st);
    } else {
      var o := Exec(p, fuel, s, from, st);
      if NeverEndsList(rest) {
        if o.Normal? { NeverEndsListNormal(p, fuel, rest, Top, o.st); }
      } else {
        NeverEndsNormal(p, fuel, s, from, st);
      }
    }
  }
}
