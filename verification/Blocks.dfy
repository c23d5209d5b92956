/** Straight-line pieces of generated code: what each one does to the machine. */
module Blocks {
  import opened Words
  import opened X86
  import opened CSource
  import opened CodeGen

  ghost predicate Reach(v: Env, m: M, n: nat, m': M) { Reaches(v.prog, m, n, m') }

  lemma {:induction false} Then(v: Env, m: M, a: nat, m1: M, b: nat, m2: M)
    requires Reach(v, m, a, m1) && Reach(v, m1, b, m2)
    ensures Reach(v, m, a + b, m2)
  {
    ReachAdd(v.prog, m, a, m1, b, m2);
  }

  lemma {:induction false} HereReach(v: Env, m: M)
    ensures Reach(v, m, 0, m)
  {
    ReachSelf(v.prog, m);
  }

  /** The parts of a sequence are where its sizes put them. */
  lemma {:induction false} Split(v: Env, pos: int, a: Code, b: Code)
    requires Place(v, pos, Cat(a, b)).InPlace?
    ensures Place(v, pos, a).InPlace? && Place(v, pos + Size(a), b).InPlace?
  {
  }

  lemma {:induction false} SizeI(i: Instr)
    ensures Size(I(i)) == Len(i)
  {
  }

  lemma {:induction false} SizeCall(fn: nat)
    ensures Size(CallF(fn)) == 5
  {
  }

  lemma {:induction false} SizeNil()
    ensures Size(Nil) == 0
  {
  }

  lemma {:induction false} Parts2(v: Env, pos: int, a: Code, b: Code)
    ensures Size(Cat(a, b)) == Size(a) + Size(b)
    ensures Place(v, pos, Cat(a, b)).InPlace? ==>
      Place(v, pos, a).InPlace? && Place(v, pos + Size(a), b).InPlace?
  {
  }

  lemma {:induction false} Parts3(v: Env, pos: int, a: Code, b: Code, c: Code)
    ensures Size(Cat(a, Cat(b, c))) == Size(a) + Size(b) + Size(c)
    ensures Place(v, pos, Cat(a, Cat(b, c))).InPlace? ==>
      Place(v, pos, a).InPlace? && Place(v, pos + Size(a), b).InPlace? && Place(v, pos + Size(a) + Size(b), c).InPlace?
  {
    hide Place, Size;
    Parts2(v, pos, a, Cat(b, c));
    Parts2(v, pos + Size(a), b, c);
  }

  lemma {:induction false} Parts4(v: Env, pos: int, a: Code, b: Code, c: Code, d: Code)
    ensures Size(Cat(a, Cat(b, Cat(c, d)))) == Size(a) + Size(b) + Size(c) + Size(d)
    ensures Place(v, pos, Cat(a, Cat(b, Cat(c, d)))).InPlace? ==>
      Place(v, pos, a).InPlace? && Place(v, pos + Size(a), b).InPlace?
      && Place(v, pos + Size(a) + Size(b), c).InPlace? && Place(v, pos + Size(a) + Size(b) + Size(c), d).InPlace?
  {
    hide Place, Size;
    Parts2(v, pos, a, Cat(b, Cat(c, d)));
    Parts3(v, pos + Size(a), b, c, d);
  }

  lemma {:induction false} Parts5(v: Env, pos: int, a: Code, b: Code, c: Code, d: Code, e: Code)
    ensures Size(Cat(a, Cat(b, Cat(c, Cat(d, e))))) == Size(a) + Size(b) + Size(c) + Size(d) + Size(e)
    ensures Place(v, pos, Cat(a, Cat(b, Cat(c, Cat(d, e))))).InPlace? ==>
      Place(v, pos, a).InPlace? && Place(v, pos + Size(a), b).InPlace?
      && Place(v, pos + Size(a) + Size(b), c).InPlace? && Place(v, pos + Size(a) + Size(b) + Size(c), d).InPlace?
      && Place(v, pos + Size(a) + Size(b) + Size(c) + Size(d), e).InPlace?
  {
    hide Place, Size;
    var t := Cat(c, Cat(d, e));
    Parts3(v, pos, a, b, t);
    Parts3(v, pos + Size(a) + Size(b), c, d, e);
  }

  /** The same for one instruction in front of c. */
  lemma {:induction false} Head(v: Env, pos: int, i: Instr, c: Code)
    requires Place(v, pos, Cat(I(i), c)).InPlace?
    ensures Place(v, pos, I(i)).InPlace? && Place(v, pos + Len(i), c).InPlace?
    ensures Size(Cat(I(i), c)) == Len(i) + Size(c)
  {
    Split(v, pos, I(i), c);
  }

  /** One instruction.  The step count is left abstract: callers only add counts. */
  lemma {:induction false} One(v: Env, m: M, i: Instr, m': M) returns (n: nat)
    requires Place(v, m.pc, I(i)).InPlace? && Do(i, m) == Next(m')
    ensures n >= 1 && Reach(v, m, n, m')
  {
    ReachOne(v.prog, m, m');
    n := 1;
  }

  /** A jump to a label. */
  lemma {:induction false} Jump(v: Env, m: M, l: int) returns (n: nat)
    requires Place(v, m.pc, JmpL(l)).InPlace?
    ensures n >= 1 && Reach(v, m, n, m.(pc := v.L[l]))
  {
    n := One(v, m, v.prog[m.pc], m.(pc := v.L[l]));
  }

  /** A conditional jump to a label. */
  lemma {:induction false} Branch(v: Env, m: M, cc: Cc, l: int) returns (n: nat)
    requires Place(v, m.pc, JccL(cc, l)).InPlace? && m.fl.Flags?
    ensures n >= 1 && Reach(v, m, n, if Holds(cc, m.fl) then m.(pc := v.L[l]) else m.(pc := m.pc + 6))
  {
    n := One(v, m, v.prog[m.pc], if Holds(cc, m.fl) then m.(pc := v.L[l]) else m.(pc := m.pc + 6));
  }

  /** rsp, rbp and memory are the same; only registers, flags and pc differ. */
  ghost predicate SameStack(m: M, m': M) { m'.rsp == m.rsp && m'.rbp == m.rbp && m'.mem == m.mem }

  // ----- Binary operators -----

  /** The 64-bit pattern of an int, sign-extended. */
  function Ext(a: int): int { U64(a) }

  lemma {:induction false} ExtFacts(a: int)
    requires IsInt(a)
    ensures S64(Ext(a)) == a && U32(Ext(a)) == U32(a) && Ext(Ext(a)) == Ext(a)
    ensures a >= 0 ==> Ext(a) == a
  {
    U32OfU64(a);
    Reduced(a, 1, 0x1_0000_0000_0000_0000);
  }

  lemma {:induction false} TruncLow(w: bool, x: int)
    ensures U32(Trunc(w, x)) == U32(x)
  {
    U32OfU64(x); U32OfU32(x);
  }

  /** What running the code of an operator must achieve. */
  ghost predicate OpDone(v: Env, m: M, n: nat, m': M, op: BinOp, w: bool, size: int, r: OpRes)
  {
    match r
    case Result(x) =>
      Reach(v, m, n, m') && m'.pc == m.pc + size && SameStack(m, m')
      && U32(m'.rax) == U32(x) && (op.Cmp? ==> m'.rax == x) && (!w ==> m'.rax == U32(x))
    case OpHalt(h) => h == Trap ==> Reach(v, m, n, m') && DividesByZero(v.prog, m')
  }

  /** rcx and rax hold the operands; both halves of them where the operator looks. */
  ghost predicate Operands(m: M, op: BinOp, w: bool, a: int, b: int)
  {
    && IsInt(a) && IsInt(b) && U32(m.rcx) == U32(a) && U32(m.rax) == U32(b)
    && (w && NeedsHigh(op) ==> m.rcx == Ext(a) && m.rax == Ext(b))
  }

  lemma {:induction false} OpAdd(v: Env, m: M, w: bool, a: int, b: int) returns (n: nat, m': M)
    requires Place(v, m.pc, I(Alu(w, AAdd))).InPlace? && Operands(m, Add, w, a, b)
    ensures OpDone(v, m, n, m', Add, w, Size(I(Alu(w, AAdd))), Result(Wrap(a + b)))
  {
    m' := Do(Alu(w, AAdd), m).m;
    n := One(v, m, Alu(w, AAdd), m');
    TruncLow(w, m.rax + m.rcx);
    U32Add(m.rax, m.rcx, b, a);
    U32OfS32(a + b);
  }

  lemma {:induction false} OpMul(v: Env, m: M, w: bool, a: int, b: int) returns (n: nat, m': M)
    requires Place(v, m.pc, I(Alu(w, AMul))).InPlace? && Operands(m, Mul, w, a, b)
    ensures OpDone(v, m, n, m', Mul, w, Size(I(Alu(w, AMul))), Result(Wrap(a * b)))
  {
    m' := Do(Alu(w, AMul), m).m;
    n := One(v, m, Alu(w, AMul), m');
    TruncLow(w, m.rax * m.rcx);
    U32Mul(m.rax, m.rcx, b, a);
    assert a * b == b * a;
    U32OfS32(a * b);
  }

  lemma {:induction false} OpBits(v: Env, m: M, op: BinOp, x: AluOp, w: bool, a: int, b: int) returns (n: nat, m': M)
    requires (op.And? && x.AAnd?) || (op.Or? && x.AOr?) || (op.Xor? && x.AXor?)
    requires Place(v, m.pc, I(Alu(w, x))).InPlace? && Operands(m, op, w, a, b)
    ensures OpDone(v, m, n, m', op, w, Size(I(Alu(w, x))), Apply(op, a, b))
  {
    m' := Do(Alu(w, x), m).m;
    n := One(v, m, Alu(w, x), m');
    BitsLow(w, x, m.rax, m.rcx, a, b);
    U32OfS32(Bits32(x, a, b));
    U32OfU32(Bits32(x, a, b));
  }

  lemma {:induction false} SignedOperand(w: bool, x: int, a: int)
    requires IsInt(a) && U32(x) == U32(a) && (w ==> x == Ext(a))
    ensures Signed(w, x) == a
  {
    if w { ExtFacts(a); } else { U32OfInt(a); S32Unique(x, a); }
  }

  lemma {:induction false} BitsLow(w: bool, op: AluOp, x: int, y: int, a: int, b: int)
    requires U32(x) == U32(b) && U32(y) == U32(a)
    ensures U32(Bits(w, op, x, y)) == Bits32(op, a, b)
  {
    BitsCommute(op, a, b);
    BitsCongruent(op, x, y, b, a);
    U32OfS32(Bits32(op, x, y));
    if w {
      Reduced(Bits32(op, x, y), Bits32(op, x / 0x1_0000_0000, y / 0x1_0000_0000), 0x1_0000_0000);
    }
  }

  lemma {:induction false} BitsCongruent(op: AluOp, x: int, y: int, a: int, b: int)
    requires U32(x) == U32(a) && U32(y) == U32(b)
    ensures Bits32(op, x, y) == Bits32(op, a, b)
  {
    assert And32(x, y) == And32(a, b);
    assert Or32(x, y) == Or32(a, b);
    assert Xor32(x, y) == Xor32(a, b);
  }

  lemma {:induction false} BitsCommute(op: AluOp, a: int, b: int)
    ensures Bits32(op, b, a) == Bits32(op, a, b)
  {
    PerBitSwap(32, (a, b) => a && b, U32(a), U32(b));
    PerBitSwap(32, (a, b) => a || b, U32(a), U32(b));
    PerBitSwap(32, (a, b) => a != b, U32(a), U32(b));
  }

  lemma {:induction false} PerBitSwap(n: nat, f: (bool, bool) -> bool, x: int, y: int)
    requires forall a, b :: f(a, b) == f(b, a)
    ensures PerBit(n, f, x, y) == PerBit(n, f, y, x)
  {
    if n > 0 { PerBitSwap(n - 1, f, x / 2, y / 2); }
  }

  lemma {:induction false} OpSub(v: Env, m: M, w: bool, a: int, b: int) returns (n: nat, m': M)
    requires Place(v, m.pc, SubCode(w)).InPlace? && Operands(m, Sub, w, a, b)
    ensures OpDone(v, m, n, m', Sub, w, Size(SubCode(w)), Result(Wrap(a - b)))
  {
    var m1 := Do(Xchg(w), m).m;
    var k := One(v, m, Xchg(w), m1);
    m' := Do(Alu(w, ASub), m1).m;
    n := One(v, m1, Alu(w, ASub), m');
    Then(v, m, k, m1, n, m');
    n := k + n;
    TruncLow(w, m.rcx); TruncLow(w, m.rax); TruncLow(w, m1.rax - m1.rcx);
    U32Add(m1.rax, m1.rcx, a, b);
    U32OfS32(a - b);
  }

  lemma {:induction false} ExchangeStep(v: Env, m: M, w: bool, a: int, b: int) returns (n: nat, m1: M)
    requires Place(v, m.pc, I(Xchg(w))).InPlace? && IsInt(a) && IsInt(b)
    requires U32(m.rcx) == U32(a) && U32(m.rax) == U32(b)
    ensures Reach(v, m, n, m1) && SameStack(m, m1) && m1.pc == m.pc + Len(Xchg(w))
    ensures U32(m1.rax) == U32(a) && U32(m1.rcx) == U32(b)
    ensures !w ==> Signed(w, m1.rax) == a && Signed(w, m1.rcx) == b
    ensures w && m.rcx == Ext(a) ==> Signed(w, m1.rax) == a
    ensures w && m.rax == Ext(b) ==> Signed(w, m1.rcx) == b
  {
    m1 := Do(Xchg(w), m).m;
    n := One(v, m, Xchg(w), m1);
    TruncLow(w, m.rcx); TruncLow(w, m.rax);
    U32OfInt(a); U32OfInt(b);
    S32Unique(m1.rax, a); S32Unique(m1.rcx, b);
    ExtFacts(a); ExtFacts(b);
  }

  /** cdq makes the register pair denote the signed dividend. */
  lemma {:induction false} SignFillValue(w: bool, rax: int)
    ensures S128(w, SignFill(w, rax), rax) == Signed(w, rax)
  {
  }

  /** Division by a non-zero divisor, given the quotient and remainder. */
  lemma {:induction false} IdivStep(v: Env, m: M, w: bool, a: int, b: int, q: int, r: int) returns (n: nat, m': M)
    requires Place(v, m.pc, I(Idiv(w))).InPlace? && S128(w, m.rdx, m.rax) == a && Signed(w, m.rcx) == b
    requires b != 0 && q == TruncDiv(a, b) && r == TruncMod(a, b) && -(Width(w) / 2) <= q < Width(w) / 2
    ensures Reach(v, m, n, m') && SameStack(m, m') && m'.pc == m.pc + Len(Idiv(w))
    ensures U32(m'.rax) == U32(q) && U32(m'.rdx) == U32(r) && (!w ==> m'.rax == U32(q) && m'.rdx == U32(r))
  {
    m' := Do(Idiv(w), m).m;
    n := One(v, m, Idiv(w), m');
    TruncLow(w, q); TruncLow(w, r);
  }

  lemma {:induction false} DivSteps(v: Env, m: M, w: bool, a: int, b: int) returns (n: nat, m': M)
    requires Place(v, m.pc, DivCode(w)).InPlace? && Operands(m, Div, w, a, b)
    ensures b == 0 ==> Reach(v, m, n, m') && DividesByZero(v.prog, m')
    ensures b != 0 && !(b == -1 && a == INT_MIN) ==>
      Reach(v, m, n, m') && SameStack(m, m') && m'.pc == m.pc + Size(DivCode(w))
      && U32(m'.rax) == U32(TruncDiv(a, b)) && U32(m'.rdx) == U32(TruncMod(a, b))
      && (!w ==> m'.rax == U32(TruncDiv(a, b)))
  {
    Head(v, m.pc, Xchg(w), Cat(I(Cdq(w)), I(Idiv(w))));
    var k1, m1 := ExchangeStep(v, m, w, a, b);
    Head(v, m1.pc, Cdq(w), I(Idiv(w)));
    var m2 := Do(Cdq(w), m1).m;
    var k2 := One(v, m1, Cdq(w), m2);
    Then(v, m, k1, m1, k2, m2);
    SignFillValue(w, m2.rax);
    assert Signed(w, m2.rcx) == b;
    n, m' := k1 + k2, m2;
    if b != 0 && !(b == -1 && a == INT_MIN) {
      QuotientFits(w, a, b);
      n, m' := IdivStep(v, m2, w, a, b, TruncDiv(a, b), TruncMod(a, b));
      Then(v, m, k1 + k2, m2, n, m');
      n := k1 + k2 + n;
    }
  }

  lemma {:induction false} QuotientFits(w: bool, a: int, b: int)
    requires IsInt(a) && b != 0 && !(b == -1 && a == INT_MIN)
    ensures -(Width(w) / 2) <= TruncDiv(a, b) < Width(w) / 2
  {
    TruncDivBound(a, b);
    if b == 1 { assert TruncDiv(a, b) == a; }
    if b == -1 { assert TruncDiv(a, b) == -a; }
  }

  lemma {:induction false} OpDiv(v: Env, m: M, w: bool, a: int, b: int) returns (n: nat, m': M)
    requires Place(v, m.pc, DivCode(w)).InPlace? && Operands(m, Div, w, a, b)
    ensures OpDone(v, m, n, m', Div, w, Size(DivCode(w)), Apply(Div, a, b))
  {
    hide Place, Size, DivCode, Reach, U32, TruncDiv;
    n, m' := DivSteps(v, m, w, a, b);
  }

  lemma {:induction false} MovRdxStep(v: Env, m: M, w: bool) returns (n: nat, m': M)
    requires Place(v, m.pc, I(MovRaxRdx(w))).InPlace?
    ensures Reach(v, m, n, m') && SameStack(m, m') && m'.pc == m.pc + Len(MovRaxRdx(w)) && U32(m'.rax) == U32(m.rdx)
    ensures !w ==> m'.rax == U32(m.rdx)
  {
    m' := Do(MovRaxRdx(w), m).m;
    n := One(v, m, MovRaxRdx(w), m');
    TruncLow(w, m.rdx);
  }

  lemma {:induction false} OpMod(v: Env, m: M, w: bool, a: int, b: int) returns (n: nat, m': M)
    requires Place(v, m.pc, ModCode(w)).InPlace? && Operands(m, Mod, w, a, b)
    ensures OpDone(v, m, n, m', Mod, w, Size(ModCode(w)), Apply(Mod, a, b))
  {
    hide Place, Size, DivCode, Reach, U32, TruncDiv;
    Last(v, m.pc, DivCode(w), MovRaxRdx(w));
    var k, m1 := DivSteps(v, m, w, a, b);
    n, m' := k, m1;
    if b != 0 && !(b == -1 && a == INT_MIN) {
      var j, m2 := MovRdxStep(v, m1, w);
      Then(v, m, k, m1, j, m2);
      n, m' := k + j, m2;
    }
  }

  /** One instruction behind c. */
  lemma {:induction false} Last(v: Env, pos: int, c: Code, i: Instr)
    requires Place(v, pos, Cat(c, I(i))).InPlace?
    ensures Place(v, pos, c).InPlace? && Place(v, pos + Size(c), I(i)).InPlace?
    ensures Size(Cat(c, I(i))) == Size(c) + Len(i)
  {
    Split(v, pos, c, I(i));
  }

  lemma {:induction false} OpShift(v: Env, m: M, op: BinOp, i: Instr, w: bool, a: int, b: int) returns (n: nat, m': M)
    requires (op.ShiftL? && i == Shl(w)) || (op.ShiftR? && i == Sar(w))
    requires Place(v, m.pc, ShiftCode(i, w)).InPlace? && Operands(m, op, w, a, b)
    ensures OpDone(v, m, n, m', op, w, Size(ShiftCode(i, w)), Apply(op, a, b))
  {
    var k, m1 := ExchangeStep(v, m, w, a, b);
    n, m' := 0, m;
    if 0 <= b < 32 {
      CountIs(w, m1.rcx, b);
      m' := Do(i, m1).m;
      n := One(v, m1, i, m');
      Then(v, m, k, m1, n, m');
      n := k + n;
      if op.ShiftL? {
        TruncLow(w, m1.rax * Pow2(b));
        U32Mul(m1.rax, Pow2(b), a, Pow2(b));
      } else {
        TruncLow(w, a / Pow2(b));
      }
    }
  }

  lemma {:induction false} CountIs(w: bool, rcx: int, b: int)
    requires U32(rcx) == U32(b) && 0 <= b < 32
    ensures ShiftCount(w, rcx) == b
  {
    U32OfInt(b);
    var q := LowPart(rcx);
    ModShift(b, q * 0x400_0000, 64);
    ModShift(b, q * 0x800_0000, 32);
  }

  /** The flags of a comparison say what C's operators say. */
  lemma {:induction false} CmpMeaning(w: bool, x: int, y: int, cc: Cc)
    ensures Holds(cc, CmpFlags(w, x, y)) == Compare(cc, Signed(w, x), Signed(w, y))
  {
    SignedDiff(w, x, y);
    DiffFlags(w, Signed(w, x) - Signed(w, y));
  }

  lemma {:induction false} SignedDiff(w: bool, x: int, y: int)
    ensures Trunc(w, x - y) == Trunc(w, Signed(w, x) - Signed(w, y))
  {
    var k := if w then 0x1_0000_0000_0000_0000 else 0x1_0000_0000;
    var a, b := Signed(w, x), Signed(w, y);
    IsMod(x, k); IsMod(y, k);
    var p := x / k + (if a < 0 then 1 else 0);
    var q := y / k + (if b < 0 then 1 else 0);
    assert x == a + p * k && y == b + q * k;
    assert x - y == a - b + (p - q) * k;
    Reduced(a - b, p - q, k);
  }

  lemma {:induction false} DiffFlags(w: bool, sd: int)
    requires -Width(w) < sd < Width(w)
    ensures var d := Signed(w, Trunc(w, sd)); ((d < 0) != (sd != d)) <==> sd < 0
    ensures Trunc(w, sd) == 0 <==> sd == 0
  {
    if w { Reduced(sd, 1, 0x1_0000_0000_0000_0000); } else { Reduced(sd, 1, 0x1_0000_0000); }
  }

  lemma {:induction false} SetSteps(v: Env, m: M, cc: Cc, r: bool) returns (n: nat, m': M)
    requires Place(v, m.pc, SetCode(cc)).InPlace? && m.fl.Flags? && Holds(cc, m.fl) == r
    ensures Reach(v, m, n, m') && SameStack(m, m') && m'.pc == m.pc + 6
    ensures m'.rax == BoolInt(r)
  {
    var m1 := Do(Setcc(cc), m).m;
    var k := One(v, m, Setcc(cc), m1);
    m' := Do(MovzxAl, m1).m;
    n := One(v, m1, MovzxAl, m');
    Then(v, m, k, m1, n, m');
    n := k + n;
    ModShift(BoolInt(r), m.rax / 256, 256);
    assert m1.rax == BoolInt(r) + (m.rax / 256) * 256;
  }

  lemma {:induction false} CmpStep(v: Env, m: M, cc: Cc, w: bool, a: int, b: int) returns (n: nat, m': M)
    requires Place(v, m.pc, I(CmpRcxRax(w))).InPlace? && Operands(m, Cmp(cc), w, a, b)
    ensures Reach(v, m, n, m') && SameStack(m, m') && m'.pc == m.pc + Len(CmpRcxRax(w))
    ensures m'.fl.Flags? && Holds(cc, m'.fl) == Compare(cc, a, b)
  {
    m' := Do(CmpRcxRax(w), m).m;
    n := One(v, m, CmpRcxRax(w), m');
    SignedOperand(w, m.rcx, a); SignedOperand(w, m.rax, b);
    CmpMeaning(w, m.rcx, m.rax, cc);
  }

  lemma {:induction false} CmpSteps(v: Env, m: M, cc: Cc, w: bool, a: int, b: int) returns (n: nat, m': M)
    requires Place(v, m.pc, I(CmpRcxRax(w))).InPlace? && Place(v, m.pc + Len(CmpRcxRax(w)), SetCode(cc)).InPlace?
    requires Operands(m, Cmp(cc), w, a, b)
    ensures OpDone(v, m, n, m', Cmp(cc), w, Len(CmpRcxRax(w)) + 6, Result(BoolInt(Compare(cc, a, b))))
  {
    var k, m1 := CmpStep(v, m, cc, w, a, b);
    var j, m2 := SetSteps(v, m1, cc, Compare(cc, a, b));
    Then(v, m, k, m1, j, m2);
    n, m' := k + j, m2;
  }

  lemma {:induction false} OpCmp(v: Env, m: M, cc: Cc, w: bool, a: int, b: int) returns (n: nat, m': M)
    requires Place(v, m.pc, CmpCode(cc, w)).InPlace? && Operands(m, Cmp(cc), w, a, b)
    ensures OpDone(v, m, n, m', Cmp(cc), w, Size(CmpCode(cc, w)), Result(BoolInt(Compare(cc, a, b))))
  {
    SizeCmp(cc, w);
    Head(v, m.pc, CmpRcxRax(w), SetCode(cc));
    n, m' := CmpSteps(v, m, cc, w, a, b);
  }

  lemma {:induction false} SizeCmp(cc: Cc, w: bool)
    ensures Size(CmpCode(cc, w)) == Len(CmpRcxRax(w)) + 6
  {
    assert Size(SetCode(cc)) == 6;
  }

  /** Every binary operator computes what C says, or divides by zero where C does. */
  lemma {:induction false} OpSteps(v: Env, m: M, op: BinOp, w: bool, a: int, b: int) returns (n: nat, m': M)
    requires Place(v, m.pc, OpCode(op, w)).InPlace? && Operands(m, op, w, a, b)
    ensures OpDone(v, m, n, m', op, w, Size(OpCode(op, w)), Apply(op, a, b))
  {
    match op {
      case Sub => n, m' := OpSub(v, m, w, a, b);
      case Div => n, m' := OpDiv(v, m, w, a, b);
      case Mod => n, m' := OpMod(v, m, w, a, b);
      case ShiftL => n, m' := OpShift(v, m, op, Shl(w), w, a, b);
      case ShiftR => n, m' := OpShift(v, m, op, Sar(w), w, a, b);
      case Cmp(cc) => n, m' := OpCmp(v, m, cc, w, a, b);
      case Add => n, m' := OpAdd(v, m, w, a, b);
      case Mul => n, m' := OpMul(v, m, w, a, b);
      case And => n, m' := OpBits(v, m, op, AAnd, w, a, b);
      case Or => n, m' := OpBits(v, m, op, AOr, w, a, b);
      case Xor => n, m' := OpBits(v, m, op, AXor, w, a, b);
    }
  }
}
