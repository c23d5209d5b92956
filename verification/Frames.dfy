/** The stack frame: where locals live, what evaluation keeps, and the
    push/pop pairs around temporaries. */
module Frames {
  import opened Words
  import opened X86
  import opened CSource
  import opened CodeGen
  import opened Blocks

  function SlotAddr(rbp: int, x: nat): int { rbp + Off(x) }

  /** The frame holds the store: the slots below rbp, temporaries below them. */
  ghost predicate Good(m: M, st: Store)
  {
    && Aligned(m.rbp) && Aligned(m.rsp) && m.rsp <= m.rbp - 4 * |st|
    && forall i {:trigger st[i]} :: 0 <= i < |st| && st[i].Set? ==> Rd(m.mem, SlotAddr(m.rbp, i)) == U32(st[i].v)
  }

  /** Addresses at or above the stack pointer that are not slots of the frame. */
  predicate Outside(m: M, size: nat, a: int) { a >= m.rsp && !(m.rbp - 4 * size <= a < m.rbp) }

  /** The stack pointers are back, and the stack is as it was except for the slots. */
  ghost predicate Kept(m: M, m': M, size: nat)
  {
    && m'.rbp == m.rbp && m'.rsp == m.rsp
    && forall a {:trigger Rd(m'.mem, a)} :: Outside(m, size, a) ==> Rd(m'.mem, a) == Rd(m.mem, a)
  }

  lemma {:induction false} KeptThen(m: M, m1: M, m2: M, size: nat)
    requires Kept(m, m1, size) && Kept(m1, m2, size)
    ensures Kept(m, m2, size)
  {
    forall a {:trigger Rd(m2.mem, a)} | Outside(m, size, a) ensures Rd(m2.mem, a) == Rd(m.mem, a) {
      assert Outside(m1, size, a);
      assert Rd(m1.mem, a) == Rd(m.mem, a);
    }
  }

  /** Registers other than the stack pointers do not matter. */
  lemma {:induction false} KeptSame(m: M, m': M, st: Store)
    requires Good(m, st) && SameStack(m, m')
    ensures Good(m', st) && Kept(m, m', |st|)
  {
  }

  /** m1 is m with one 8-byte value on top of the stack. */
  ghost predicate Pushed(m: M, m1: M, val: int)
  {
    && m1.rsp == m.rsp - 8 && m1.rbp == m.rbp && Rd64(m1.mem, m1.rsp) == val
    && forall a {:trigger Rd(m1.mem, a)} :: a >= m.rsp ==> Rd(m1.mem, a) == Rd(m.mem, a)
  }

  lemma {:induction false} Rd64OfWr64(mem: map<int, int>, p: int, val: int)
    ensures Rd64(Wr64(mem, p, val), p) == val
    ensures forall a {:trigger Rd(Wr64(mem, p, val), a)} :: a >= p + 8 ==> Rd(Wr64(mem, p, val), a) == Rd(mem, a)
  {
    var q := LowPart(val);
    HighPart(val, q);
    var mem' := Wr64(mem, p, val);
    assert Rd(mem', p) == U32(val);
    assert Rd(mem', p + 4) == q;
  }

  lemma {:induction false} PushStep(v: Env, m: M, st: Store) returns (n: nat, m1: M)
    requires Place(v, m.pc, I(PushRax)).InPlace? && Good(m, st)
    ensures n >= 1 && Reach(v, m, n, m1) && Pushed(m, m1, m.rax) && Good(m1, st)
    ensures m1.pc == m.pc + 1 && m1.rax == m.rax && m1.rcx == m.rcx
  {
    AlignedBy(m.rsp, -2);
    m1 := Do(PushRax, m).m;
    n := One(v, m, PushRax, m1);
    Rd64OfWr64(m.mem, m.rsp - 8, m.rax);
    GoodAbove(m, m1, st);
  }

  /** Writing below the slots leaves the store alone. */
  lemma {:induction false} GoodAbove(m: M, m1: M, st: Store)
    requires Good(m, st) && Pushed(m, m1, m.rax)
    ensures Good(m1, st)
  {
    AlignedBy(m.rsp, -2);
    forall i {:trigger st[i]} | 0 <= i < |st| && st[i].Set?
      ensures Rd(m1.mem, SlotAddr(m1.rbp, i)) == U32(st[i].v)
    {
      assert SlotAddr(m.rbp, i) >= m.rsp;
    }
  }

  /** The value pushed over m is still on top after code that keeps the stack. */
  lemma {:induction false} TopKept(m: M, m1: M, m2: M, val: int, st: Store)
    requires Pushed(m, m1, val) && Kept(m1, m2, |st|) && m.rsp <= m.rbp - 4 * |st|
    ensures Rd64(m2.mem, m2.rsp) == val
    ensures forall a {:trigger Rd(m2.mem, a)} :: Outside(m, |st|, a) ==> Rd(m2.mem, a) == Rd(m.mem, a)
  {
    assert Outside(m1, |st|, m1.rsp) && Outside(m1, |st|, m1.rsp + 4);
    forall a {:trigger Rd(m2.mem, a)} | Outside(m, |st|, a) ensures Rd(m2.mem, a) == Rd(m.mem, a) {
      assert Outside(m1, |st|, a);
      assert Rd(m1.mem, a) == Rd(m.mem, a);
    }
  }

  lemma {:induction false} PopRcxStep(v: Env, m: M, m1: M, m2: M, val: int, st0: Store, st: Store)
    returns (n: nat, m3: M)
    requires Pushed(m, m1, val) && Kept(m1, m2, |st|) && Good(m2, st)
    requires Good(m, st0) && |st0| == |st|
    requires Place(v, m2.pc, I(PopRcx)).InPlace?
    ensures n >= 1 && Reach(v, m2, n, m3) && m3.pc == m2.pc + 1 && m3.rcx == val && m3.rax == m2.rax
    ensures Good(m3, st) && Kept(m, m3, |st|)
  {
    AlignedBy(m.rsp, -2);
    m3 := Do(PopRcx, m2).m;
    n := One(v, m2, PopRcx, m3);
    TopKept(m, m1, m2, val, st);
  }

  lemma {:induction false} PopRaxStep(v: Env, m: M, m1: M, m2: M, val: int, st0: Store, st: Store)
    returns (n: nat, m3: M)
    requires Pushed(m, m1, val) && Kept(m1, m2, |st|) && Good(m2, st)
    requires Good(m, st0) && |st0| == |st|
    requires Place(v, m2.pc, I(PopRax)).InPlace?
    ensures n >= 1 && Reach(v, m2, n, m3) && m3.pc == m2.pc + 1 && m3.rax == val
    ensures Good(m3, st) && Kept(m, m3, |st|)
    ensures m3.rcx == m2.rcx && m3.rdx == m2.rdx && m3.rsi == m2.rsi && m3.rdi == m2.rdi
    ensures m3.r8 == m2.r8 && m3.r9 == m2.r9
  {
    AlignedBy(m.rsp, -2);
    m3 := Do(PopRax, m2).m;
    n := One(v, m2, PopRax, m3);
    TopKept(m, m1, m2, val, st);
  }

  // ----- Locals -----

  lemma {:induction false} LoadStep(v: Env, m: M, st: Store, x: nat) returns (n: nat, m': M)
    requires Place(v, m.pc, I(LoadEax(Off(x)))).InPlace? && Good(m, st) && x < |st| && st[x].Set?
    ensures n >= 1 && Reach(v, m, n, m') && m'.pc == m.pc + Len(LoadEax(Off(x))) && SameStack(m, m')
    ensures m'.rax == U32(st[x].v)
  {
    U32OfU32(st[x].v);
    AlignedBy(m.rbp, -(x + 1));
    m' := Do(LoadEax(Off(x)), m).m;
    n := One(v, m, LoadEax(Off(x)), m');
  }

  /** Writing slot x. */
  lemma {:induction false} SlotWritten(m: M, m': M, st: Store, x: nat, val: int)
    requires Good(m, st) && x < |st| && m'.rsp == m.rsp && m'.rbp == m.rbp
    requires m'.mem == m.mem[SlotAddr(m.rbp, x) := U32(val)]
    ensures Good(m', st[x := Set(val)]) && Kept(m, m', |st|)
  {
    var st' := st[x := Set(val)];
    forall i {:trigger st'[i]} | 0 <= i < |st'| && st'[i].Set?
      ensures Rd(m'.mem, SlotAddr(m'.rbp, i)) == U32(st'[i].v)
    {
      if i != x { assert SlotAddr(m.rbp, i) != SlotAddr(m.rbp, x); assert st'[i] == st[i]; }
    }
  }

  lemma {:induction false} StoreStep(v: Env, m: M, st: Store, x: nat, val: int) returns (n: nat, m': M)
    requires Place(v, m.pc, I(StoreEax(Off(x)))).InPlace? && Good(m, st) && x < |st| && U32(m.rax) == U32(val)
    ensures n >= 1 && Reach(v, m, n, m') && m'.pc == m.pc + Len(StoreEax(Off(x))) && m'.rax == m.rax
    ensures Good(m', st[x := Set(val)]) && Kept(m, m', |st|)
  {
    AlignedBy(m.rbp, -(x + 1));
    m' := Do(StoreEax(Off(x)), m).m;
    n := One(v, m, StoreEax(Off(x)), m');
    SlotWritten(m, m', st, x, val);
  }
}
