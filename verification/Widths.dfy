/** Operations between a call and another operand: the call counts as 64 bits wide, so the
    operation is done in full width, but the upper half of the other operand may hold
    zeros, or what negation makes of them. */
module Widths {
  import opened Words
  import opened X86
  import opened CSource
  import opened CodeGen
  import opened Blocks
  import opened Frames
  import opened Snippets
  import opened Arguments
  import opened Simulation

  // ----- The operators in full width -----

  /** What the 64-bit code of op makes of signed 64-bit operands, as an int. */
  function InFullWidth(op: BinOp, a: int, b: int): OpRes
    requires NeedsHigh(op)
  {
    match op
    case Cmp(cc) => Result(BoolInt(Compare(cc, a, b)))
    case Div => if b == 0 then OpHalt(Trap) else Result(Wrap(TruncDiv(a, b)))
    case Mod => if b == 0 then OpHalt(Trap) else Result(Wrap(TruncMod(a, b)))
    case ShiftR => Result(Wrap(a / Pow2(b % 64)))
  }

  /** rcx and rax, read as signed 64-bit words, hold the operands. */
  ghost predicate FullOperands(m: M, a: int, b: int)
  {
    S64(m.rcx) == a && S64(m.rax) == b && -0x1_0000_0000 < a < 0x1_0000_0000 && -0x1_0000_0000 < b < 0x1_0000_0000
  }

  lemma {:induction false} WideOp(v: Env, m: M, op: BinOp, a: int, b: int) returns (n: nat, m': M)
    requires NeedsHigh(op) && Place(v, m.pc, OpCode(op, true)).InPlace? && FullOperands(m, a, b)
    ensures OpDone(v, m, n, m', op, true, Size(OpCode(op, true)), InFullWidth(op, a, b))
  {
    match op {
      case Cmp(cc) => n, m' := WideCmp(v, m, cc, a, b);
      case Div => n, m' := WideDiv(v, m, a, b);
      case Mod => n, m' := WideMod(v, m, a, b);
      case ShiftR => n, m' := WideShift(v, m, a, b);
    }
  }

  lemma {:induction false} WideCmp(v: Env, m: M, cc: Cc, a: int, b: int) returns (n: nat, m': M)
    requires Place(v, m.pc, CmpCode(cc, true)).InPlace? && FullOperands(m, a, b)
    ensures OpDone(v, m, n, m', Cmp(cc), true, Size(CmpCode(cc, true)), InFullWidth(Cmp(cc), a, b))
  {
    hide Place, Size, Reach;
    SizeCmp(cc, true);
    Parts2(v, m.pc, I(CmpRcxRax(true)), SetCode(cc)); SizeI(CmpRcxRax(true));
    var m1 := Do(CmpRcxRax(true), m).m;
    var k := One(v, m, CmpRcxRax(true), m1);
    CmpMeaning(true, m.rcx, m.rax, cc);
    var j, m2 := SetSteps(v, m1, cc, Compare(cc, a, b));
    Then(v, m, k, m1, j, m2);
    n, m' := k + j, m2;
  }

  lemma {:induction false} WideExchange(v: Env, m: M, a: int, b: int) returns (n: nat, m1: M)
    requires Place(v, m.pc, I(Xchg(true))).InPlace? && FullOperands(m, a, b)
    ensures Reach(v, m, n, m1) && SameStack(m, m1) && m1.pc == m.pc + Len(Xchg(true))
    ensures Signed(true, m1.rax) == a && Signed(true, m1.rcx) == b && m1.rcx == U64(m.rax)
  {
    m1 := Do(Xchg(true), m).m;
    n := One(v, m, Xchg(true), m1);
  }

  lemma {:induction false} WideDivSteps(v: Env, m: M, a: int, b: int) returns (n: nat, m': M)
    requires Place(v, m.pc, DivCode(true)).InPlace? && FullOperands(m, a, b)
    ensures b == 0 ==> Reach(v, m, n, m') && DividesByZero(v.prog, m')
    ensures b != 0 ==>
      Reach(v, m, n, m') && SameStack(m, m') && m'.pc == m.pc + Size(DivCode(true))
      && U32(m'.rax) == U32(TruncDiv(a, b)) && U32(m'.rdx) == U32(TruncMod(a, b))
  {
    Head(v, m.pc, Xchg(true), Cat(I(Cdq(true)), I(Idiv(true))));
    var k1, m1 := WideExchange(v, m, a, b);
    Head(v, m1.pc, Cdq(true), I(Idiv(true)));
    var m2 := Do(Cdq(true), m1).m;
    var k2 := One(v, m1, Cdq(true), m2);
    Then(v, m, k1, m1, k2, m2);
    SignFillValue(true, m2.rax);
    n, m' := k1 + k2, m2;
    if b != 0 {
      TruncDivBound(a, b);
      n, m' := IdivStep(v, m2, true, a, b, TruncDiv(a, b), TruncMod(a, b));
      Then(v, m, k1 + k2, m2, n, m');
      n := k1 + k2 + n;
    }
  }

  lemma {:induction false} WideDiv(v: Env, m: M, a: int, b: int) returns (n: nat, m': M)
    requires Place(v, m.pc, DivCode(true)).InPlace? && FullOperands(m, a, b)
    ensures OpDone(v, m, n, m', Div, true, Size(DivCode(true)), InFullWidth(Div, a, b))
  {
    hide Place, Size, DivCode, Reach, U32, TruncDiv;
    n, m' := WideDivSteps(v, m, a, b);
  }

  lemma {:induction false} WideMod(v: Env, m: M, a: int, b: int) returns (n: nat, m': M)
    requires Place(v, m.pc, ModCode(true)).InPlace? && FullOperands(m, a, b)
    ensures OpDone(v, m, n, m', Mod, true, Size(ModCode(true)), InFullWidth(Mod, a, b))
  {
    hide Place, Size, DivCode, Reach, U32, TruncDiv;
    Last(v, m.pc, DivCode(true), MovRaxRdx(true));
    var k, m1 := WideDivSteps(v, m, a, b);
    n, m' := k, m1;
    if b != 0 {
      var j, m2 := MovRdxStep(v, m1, true);
      Then(v, m, k, m1, j, m2);
      n, m' := k + j, m2;
    }
  }

  lemma {:induction false} WideShift(v: Env, m: M, a: int, b: int) returns (n: nat, m': M)
    requires Place(v, m.pc, ShiftCode(Sar(true), true)).InPlace? && FullOperands(m, a, b)
    ensures OpDone(v, m, n, m', ShiftR, true, Size(ShiftCode(Sar(true), true)), InFullWidth(ShiftR, a, b))
  {
    var k, m1 := WideExchange(v, m, a, b);
    ModShift(b, 0x400_0000_0000_0000, 64);
    m' := Do(Sar(true), m1).m;
    n := One(v, m1, Sar(true), m');
    Then(v, m, k, m1, n, m');
    n := k + n;
    TruncLow(true, a / Pow2(b % 64));
  }

  // ----- When they agree with C -----

  /** The int on the other side of all ints that has the same low half. */
  function Far(a: int): int { if a < 0 then a + 0x1_0000_0000 else a - 0x1_0000_0000 }

  /** The upper half does not change the int. */
  predicate Plain(f: Fill, a: int)
  {
    match f
    case Loose => false
    case SignExt => true
    case ZeroExt => a >= 0
    case NegSign => a != INT_MIN
    case NegZero => a <= 0
  }

  /** The 64-bit number in a register that holds the int a. */
  function Carried(f: Fill, a: int): int { if Plain(f, a) then a else Far(a) }

  lemma {:induction false} CarriedWord(f: Fill, rax: int, a: int)
    requires IsInt(a) && Filled(f, rax, a) && !f.Loose?
    ensures S64(rax) == Carried(f, a) && -0x1_0000_0000 < Carried(f, a) < 0x1_0000_0000
    ensures U32(Carried(f, a)) == U32(a) && (Carried(f, a) == a || Carried(f, a) == Far(a))
  {
    hide U32;
    U32OfSign(a);
    Reduced(a, 1, 0x1_0000_0000); Reduced(a, -1, 0x1_0000_0000);
    WordRead(a); WordRead(Far(a));
    FarLow(a);
    match f
    case SignExt =>
    case ZeroExt => SmallWord(U32(a));
    case NegSign =>
    case NegZero =>
  }

  lemma {:induction false} FarLow(a: int)
    ensures U32(Far(a)) == U32(a)
  {
    Reduced(a, 1, 0x1_0000_0000); Reduced(a, -1, 0x1_0000_0000);
  }

  lemma {:induction false} WordRead(x: int)
    requires -0x1_0000_0000 <= x <= 0x1_0000_0000
    ensures S64(U64(x)) == x && S64(x) == x
  {
    Reduced(x, 1, 0x1_0000_0000_0000_0000);
  }

  function Abs(a: int): nat { if a < 0 then -a else a }

  /** Comparing with Far(b) instead of b comes out the same. */
  predicate ComparesFar(cc: Cc, a: int, b: int)
  {
    match cc
    case Eq => a != b
    case Ne => a != b
    case Lt => if b < 0 then a < b else a >= b
    case Ge => if b < 0 then a < b else a >= b
    case Le => if b < 0 then a <= b else a > b
    case Gt => if b < 0 then a <= b else a > b
  }

  /** The comparison with its sides exchanged. */
  function Mirror(cc: Cc): Cc
  {
    match cc case Lt => Gt case Gt => Lt case Le => Ge case Ge => Le case _ => cc
  }

  /** op between a sign-extended a and a b with upper half f gives C's result. */
  predicate RightAgrees(op: BinOp, a: int, f: Fill, b: int)
    requires NeedsHigh(op)
  {
    Plain(f, b) || match op
      case Cmp(cc) => ComparesFar(cc, a, b)
      case Div => b == 0 || Abs(a) < Abs(b)
      case Mod => b == 0 || Abs(a) < Abs(b) || (a == INT_MIN && b == INT_MIN)
      case ShiftR => true
  }

  /** op between an a with upper half f and a sign-extended b gives C's result. */
  predicate LeftAgrees(op: BinOp, f: Fill, a: int, b: int)
    requires NeedsHigh(op)
  {
    Plain(f, a) || match op
      case Cmp(cc) => ComparesFar(Mirror(cc), b, a)
      case Div => Abs(b) == 1
      case Mod => b != 0 && Abs(a) % Abs(b) == 0 && 0x1_0000_0000 % Abs(b) == 0
      case ShiftR => b == 0
  }

  lemma {:induction false} NoQuotient(n: nat, d: nat)
    requires d > 0
    ensures n / d == 0 <==> n < d
    ensures n % d == n - d * (n / d) && (n < 2 * d && n >= d ==> n / d == 1)
  {
    if n < d { DivModUnique(n, d, 0, n); }
    if d <= n < 2 * d { DivModUnique(n, d, 1, n - d); }
  }

  /** Quotient and remainder by their signs. */
  lemma {:induction false} BySign(a: int, b: int)
    requires b != 0
    ensures TruncDiv(a, b) == if (a < 0) == (b < 0) then Abs(a) / Abs(b) else -(Abs(a) / Abs(b))
    ensures TruncMod(a, b) == if a < 0 then -(Abs(a) % Abs(b)) else Abs(a) % Abs(b)
    ensures Abs(a) < Abs(b) <==> Abs(a) / Abs(b) == 0
  {
    var n: int, d: int := Abs(a), Abs(b);
    NoQuotient(n, d);
    assert TruncDiv(a, b) == if (a < 0) == (b < 0) then n / d else -(n / d);
    SignedTimes(b, d, n / d);
  }

  lemma {:induction false} SignedTimes(b: int, d: int, q: int)
    requires b == d || b == -d
    ensures b * q == if b == d then d * q else -(d * q)
    ensures b * -q == if b == d then -(d * q) else d * q
  {
  }

  lemma {:induction false} FarAbs(a: int)
    requires IsInt(a) && a != 0
    ensures Abs(Far(a)) == 0x1_0000_0000 - Abs(a) && (Far(a) < 0 <==> a > 0) && Abs(Far(a)) >= 0x8000_0000
  {
  }

  lemma {:induction false} RightDiv(a: int, b: int)
    requires IsInt(a) && IsInt(b) && b != 0 && !(b == -1 && a == INT_MIN)
    ensures InFullWidth(Div, a, Far(b)) == Apply(Div, a, b) <==> Abs(a) < Abs(b)
  {
    hide TruncDiv, TruncMod, Wrap, Far;
    var e := Far(b);
    FarAbs(b);
    NoQuotient(Abs(a), Abs(e));
    BySign(a, b); BySign(a, e);
    TruncDivBound(a, b); TruncDivBound(a, e);
    WrapInt(TruncDiv(a, b)); WrapInt(TruncDiv(a, e));
  }

  lemma {:induction false} RightMod(a: int, b: int)
    requires IsInt(a) && IsInt(b) && b != 0 && !(b == -1 && a == INT_MIN)
    ensures InFullWidth(Mod, a, Far(b)) == Apply(Mod, a, b) <==> Abs(a) < Abs(b) || (a == INT_MIN && b == INT_MIN)
  {
    hide TruncDiv, TruncMod, Wrap;
    var e := Far(b);
    FarAbs(b);
    NoQuotient(Abs(a), Abs(b)); NoQuotient(Abs(a), Abs(e));
    BySign(a, b); BySign(a, e);
    WrapInt(TruncMod(a, b)); WrapInt(TruncMod(a, e));
  }

  lemma {:induction false} LeftDiv(a: int, b: int)
    requires IsInt(a) && IsInt(b) && a != 0 && b != 0 && !(b == -1 && a == INT_MIN)
    ensures InFullWidth(Div, Far(a), b) == Apply(Div, a, b) <==> Abs(b) == 1
  {
    hide TruncDiv, TruncMod, Wrap, Far, Abs;
    if Abs(b) == 1 { ByUnit(a, b); } else { NotByUnit(a, b); }
  }

  lemma {:induction false} ByUnit(a: int, b: int)
    requires Abs(b) == 1
    ensures Wrap(TruncDiv(Far(a), b)) == Wrap(TruncDiv(a, b))
  {
    hide TruncDiv, TruncMod, Wrap;
    BySign(a, b); BySign(Far(a), b);
    ByOne(Abs(a)); ByOne(Abs(Far(a)));
    SameLow(a, Far(a));
  }

  lemma {:induction false} NotByUnit(a: int, b: int)
    requires IsInt(a) && IsInt(b) && a != 0 && b != 0 && Abs(b) != 1
    ensures Wrap(TruncDiv(Far(a), b)) != Wrap(TruncDiv(a, b))
  {
    hide TruncDiv, Wrap, Far, Abs;
    assert (Far(a) < 0) == (a > 0) by { FarAbs(a); }
    FarQuotient(a, b);
    var p := Magnitude(a, b);
    var q := Magnitude(Far(a), b);
    WrapInt(TruncDiv(a, b)); WrapInt(TruncDiv(Far(a), b));
  }

  /** The size of a quotient by a divisor other than 1 and -1. */
  lemma {:induction false} Magnitude(a: int, b: int) returns (q: int)
    requires b != 0 && Abs(b) != 1 && Abs(a) < 0x1_0000_0000
    ensures TruncDiv(a, b) == (if (a < 0) == (b < 0) then q else -q) && 0 <= q < 0x8000_0000 && (q == 0 <==> Abs(a) < Abs(b))
  {
    hide TruncDiv, TruncMod, Abs;
    BySign(a, b);
    NotZero(b);
    HalfAtMost(Abs(a), Abs(b));
    NotNegative(Abs(a), Abs(b));
    q := Abs(a) / Abs(b);
  }

  lemma {:induction false} NotNegative(n: nat, d: nat)
    requires d > 0
    ensures n / d >= 0
  {
  }

  lemma {:induction false} NotZero(b: int)
    ensures b != 0 ==> Abs(b) > 0
  {
  }

  lemma {:induction false} FarQuotient(a: int, b: int)
    requires IsInt(a) && a != 0 && IsInt(b)
    ensures Abs(Far(a)) >= Abs(b) && Abs(a) < 0x1_0000_0000 && Abs(Far(a)) < 0x1_0000_0000
  {
    FarAbs(a);
  }

  /** Negation keeps low halves together. */
  lemma {:induction false} SameLow(a: int, e: int)
    requires e == Far(a)
    ensures Wrap(e) == Wrap(a) && Wrap(-e) == Wrap(-a)
  {
    Reduced(a, 1, 0x1_0000_0000); Reduced(a, -1, 0x1_0000_0000);
    Reduced(-a, 1, 0x1_0000_0000); Reduced(-a, -1, 0x1_0000_0000);
    S32Unique(e, a); S32Unique(-e, -a);
  }

  lemma {:induction false} ByOne(n: nat)
    ensures n / 1 == n
  {
  }

  lemma {:induction false} HalfAtMost(n: nat, d: nat)
    requires d >= 2
    ensures n / d <= n / 2
  {
    NoQuotient(n, d);
    var q := n / d;
    assert (d - 2) * q >= 0 by { MulSign(d - 2, q); }
    assert 2 * q <= n;
  }

  lemma {:induction false} MulSign(a: nat, b: nat)
    ensures a * b >= 0
  {
  }

  lemma {:induction false} LeftMod(a: int, b: int)
    requires IsInt(a) && IsInt(b) && a != 0 && b != 0 && !(b == -1 && a == INT_MIN)
    ensures InFullWidth(Mod, Far(a), b) == Apply(Mod, a, b)
      <==> Abs(a) % Abs(b) == 0 && 0x1_0000_0000 % Abs(b) == 0
  {
    hide TruncDiv, TruncMod, Wrap;
    var e, n, d := Far(a), Abs(a), Abs(b);
    FarAbs(a);
    BySign(a, b); BySign(e, b);
    WrapInt(TruncMod(a, b)); WrapInt(TruncMod(e, b));
    NoQuotient(n, d);
    if n % d == 0 { SameRest(n, d); }
  }

  lemma {:induction false} SameRest(n: nat, d: nat)
    requires d > 0 && n % d == 0
    ensures (0x1_0000_0000 - n) % d == 0x1_0000_0000 % d
  {
    var k := n / d;
    NoQuotient(n, d);
    assert 0x1_0000_0000 - n == 0x1_0000_0000 + -k * d;
    ModShift(0x1_0000_0000, -k, d);
  }

  lemma {:induction false} PowSplit(b: nat, c: nat)
    ensures Pow2(b) * Pow2(c) == Pow2(b + c)
    decreases b
  {
    if b > 0 {
      PowSplit(b - 1, c);
      assert Pow2(b) * Pow2(c) == 2 * (Pow2(b - 1) * Pow2(c));
    }
  }

  lemma {:induction false} Pow32()
    ensures Pow2(32) == 0x1_0000_0000
  {
    PowSplit(16, 16); PowSplit(8, 8); PowSplit(4, 4); PowSplit(2, 2);
  }

  lemma {:induction false} LeftShift(a: int, b: nat)
    requires IsInt(a) && a != 0 && b < 32
    ensures InFullWidth(ShiftR, Far(a), b) == Apply(ShiftR, a, b) <==> b == 0
  {
    DivModUnique(b, 64, 0, b);
    if b == 0 {
      SameLow(a, Far(a));
    } else {
      hide Pow2, Wrap;
      WrapDiffers(a, b);
    }
  }

  lemma {:induction false} WrapDiffers(a: int, b: nat)
    requires IsInt(a) && a != 0 && 0 < b < 32
    ensures Wrap(Far(a) / Pow2(b)) != Wrap(a / Pow2(b))
  {
    hide Pow2, Wrap;
    var p, c := Pow2(b), Pow2(32 - b);
    PowSplit(b, 32 - b); Pow32();
    PowAtLeast(b); PowAtLeast(32 - b);
    ShiftedFar(a, c, p);
    WrapInt(a / p); WrapInt(Far(a) / p);
  }

  lemma {:induction false} PowAtLeast(b: nat)
    requires b > 0
    ensures Pow2(b) >= 2
  {
  }

  /** A dividend, moved by c times the divisor. */
  lemma {:induction false} ShiftedFar(a: int, c: int, p: int)
    requires p >= 2 && c >= 2 && c * p == 0x1_0000_0000 && IsInt(a)
    ensures Far(a) / p == a / p + (if a < 0 then c else -c) && IsInt(a / p) && IsInt(Far(a) / p)
  {
    var q, r, k := a / p, a % p, if a < 0 then c else -c;
    assert a == q * p + r;
    assert Far(a) == (q + k) * p + r by { assert k * p == if a < 0 then c * p else -(c * p); }
    DivModUnique(Far(a), p, q + k, r);
    NearZero(c * p, p, c, 0);
    SignOf(a, p, q, r);
    if a < 0 { NearZeroBelow(a, p, q, r); } else { NotBelow(a, p, q, r); NearZero(a, p, q, r); }
  }

  lemma {:induction false} NotBelow(a: int, p: int, q: int, r: int)
    requires p >= 2 && a == q * p + r && 0 <= r < p
    ensures a >= 0 ==> q >= 0
  {
    if q < 0 { NearZeroBelow(a, p, q, r); }
  }

  lemma {:induction false} NearZero(a: int, p: int, q: nat, r: int)
    requires p >= 2 && a == q * p + r && 0 <= r < p
    ensures a >= 0 && 2 * q <= a
  {
    MulSign(q, p - 2);
  }

  lemma {:induction false} SignOf(a: int, p: int, q: int, r: int)
    requires p >= 2 && a == q * p + r && 0 <= r < p
    ensures q >= 0 ==> a >= 0
  {
    if q >= 0 { NearZero(a, p, q, r); }
  }

  lemma {:induction false} NearZeroBelow(a: int, p: int, q: int, r: int)
    requires p >= 2 && a == q * p + r && 0 <= r < p && q < 0
    ensures a <= q
  {
    MulSign(-q - 1, p - 1);
  }

  /** All of it: when the result of the 64-bit operation is C's. */
  lemma {:induction false} AgreesExactly(op: BinOp, f: Fill, a: int, b: int)
    requires IsInt(a) && IsInt(b) && NeedsHigh(op) && Apply(op, a, b).Result? && !f.Loose?
    ensures InFullWidth(op, a, Carried(f, b)) == Apply(op, a, b) <==> RightAgrees(op, a, f, b)
    ensures InFullWidth(op, Carried(f, a), b) == Apply(op, a, b) <==> LeftAgrees(op, f, a, b)
  {
    hide Wrap, TruncDiv, TruncMod, Pow2, Plain, Far, Abs, InFullWidth, Apply, ComparesFar;
    PlainWidth(op, a, b);
    ZeroPlain(f);
    if !Plain(f, b) { RightFar(op, a, b); }
    if !Plain(f, a) { LeftFar(op, a, b); }
  }

  lemma {:induction false} PlainWidth(op: BinOp, a: int, b: int)
    requires NeedsHigh(op) && Apply(op, a, b).Result?
    ensures InFullWidth(op, a, b) == Apply(op, a, b)
  {
    hide Wrap, TruncDiv, TruncMod, Pow2;
    if op.ShiftR? { DivModUnique(b, 64, 0, b); }
  }

  lemma {:induction false} RightFar(op: BinOp, a: int, b: int)
    requires IsInt(a) && IsInt(b) && NeedsHigh(op) && Apply(op, a, b).Result? && b != 0
    ensures InFullWidth(op, a, Far(b)) == Apply(op, a, b) <==>
      match op
      case Cmp(cc) => ComparesFar(cc, a, b)
      case Div => Abs(a) < Abs(b)
      case Mod => Abs(a) < Abs(b) || (a == INT_MIN && b == INT_MIN)
      case ShiftR => true
  {
    hide Wrap, TruncDiv, TruncMod, Pow2, Abs;
    if op.Div? { RightDiv(a, b); }
    if op.Mod? { RightMod(a, b); }
    if op.ShiftR? {
      DivModUnique(b, 64, 0, b);
      ModShift(b, -0x400_0000, 64);
    }
  }

  lemma {:induction false} LeftFar(op: BinOp, a: int, b: int)
    requires IsInt(a) && IsInt(b) && NeedsHigh(op) && Apply(op, a, b).Result? && a != 0
    ensures InFullWidth(op, Far(a), b) == Apply(op, a, b) <==>
      match op
      case Cmp(cc) => ComparesFar(Mirror(cc), b, a)
      case Div => Abs(b) == 1
      case Mod => b != 0 && Abs(a) % Abs(b) == 0 && 0x1_0000_0000 % Abs(b) == 0
      case ShiftR => b == 0
  {
    hide Wrap, TruncDiv, TruncMod, Pow2, Abs;
    if op.Div? { LeftDiv(a, b); }
    if op.Mod? { LeftMod(a, b); }
    if op.ShiftR? { LeftShift(a, b); }
  }

  lemma {:induction false} ZeroPlain(f: Fill)
    requires !f.Loose?
    ensures Plain(f, 0) && Plain(SignExt, 0)
  {
  }

  // ----- Whole expressions -----

  /** Both operands of e are computed and its operator comes next. */
  ghost predicate AtOperator(v: Env, m: M, n: nat, m': M, op: BinOp, l: Expr, r: Expr, st: Store, a: int, b: int)
  {
    && Reach(v, m, n, m') && Place(v, m'.pc, OpCode(op, true)).InPlace?
    && m'.pc + Size(OpCode(op, true)) == m.pc + Size(ECode(Bin(op, l, r))) && Good(m', st) && Kept(m, m', |st|)
    && Filled(FillOf(l), m'.rcx, a) && Filled(FillOf(r), m'.rax, b)
  }

  lemma {:induction false} OperandsRun(v: Env, p: Program, nx: seq<int>, fuel: nat, st: Store, op: BinOp, l: Expr, r: Expr, m: M)
    returns (n: nat, m': M)
    requires Loaded(v, p, nx).InPlace? && Place(v, m.pc, ECode(Bin(op, l, r))).InPlace? && Good(m, st)
    requires Faithful(l) && Faithful(r) && (Wide(l) || Wide(r))
    requires Eval(p, fuel, st, l).Value? && Eval(p, fuel, Eval(p, fuel, st, l).st, r).Value?
    ensures var x := Eval(p, fuel, st, l);
      var y := Eval(p, fuel, x.st, r);
      AtOperator(v, m, n, m', op, l, r, y.st, x.v, y.v)
  {
    hide Place, Size, Good, Kept, Pushed, Reach, U32, Ext, OpCode, Loaded, FillOf, Filled, Faithful, Wide, Eval;
    BinShape(v, m.pc, ECode(l), ECode(r), OpCode(op, true));
    SizeI(PopRcx);
    var a, m1 := SimExpr(v, p, nx, fuel, st, l, m);
    var st1 := Eval(p, fuel, st, l).st;
    var b, m2 := PushStep(v, m1, st1);
    var c, m3 := SimExpr(v, p, nx, fuel, st1, r, m2);
    var st2 := Eval(p, fuel, st1, r).st;
    Split(v, m3.pc, I(PopRcx), OpCode(op, true));
    var d, m4 := PopRcxStep(v, m1, m2, m3, m1.rax, st1, st2);
    Then(v, m, a, m1, b, m2); Then(v, m, a + b, m2, c, m3); Then(v, m, a + b + c, m3, d, m4);
    KeptThen(m, m1, m4, |st2|);
    n, m' := a + b + c + d, m4;
  }

  /** A wide operand with a known upper half is sign-extended. */
  lemma {:induction false} WideSigned(e: Expr)
    requires Wide(e) && !FillOf(e).Loose?
    ensures FillOf(e).SignExt?
  {
    match e
    case Cond(_, t, f) => if Wide(t) { WideSigned(t); } else { WideSigned(f); }
    case _ =>
  }

  /** The operation gives what C says. */
  predicate Agrees(op: BinOp, f: Fill, a: int, g: Fill, b: int)
    requires NeedsHigh(op)
  {
    if f.SignExt? then RightAgrees(op, a, g, b) else LeftAgrees(op, f, a, b)
  }

  /** e has been computed: C's value is r, and the code has given it exactly if agrees. */
  ghost predicate Given(v: Env, m: M, n: nat, m': M, e: Expr, r: Res, agrees: bool)
    requires r.Value?
  {
    && Reach(v, m, n, m') && m'.pc == m.pc + Size(ECode(e)) && Good(m', r.st) && Kept(m, m', |r.st|)
    && (U32(m'.rax) == U32(r.v) <==> agrees)
  }

  /** Any two operands of which one is wide, compared, divided or shifted anywhere in a
      program: exactly when the code gives C's value.  Only operands with arithmetic on
      calls inside, whose upper half is loose, are not covered. */
  lemma {:induction false} MixedOperands(v: Env, p: Program, nx: seq<int>, fuel: nat, st: Store, op: BinOp, l: Expr, r: Expr, m: M)
    returns (n: nat, m': M)
    requires Loaded(v, p, nx).InPlace? && Place(v, m.pc, ECode(Bin(op, l, r))).InPlace? && Good(m, st)
    requires NeedsHigh(op) && Faithful(l) && Faithful(r) && (Wide(l) || Wide(r)) && !FillOf(l).Loose? && !FillOf(r).Loose?
    requires Eval(p, fuel, st, Bin(op, l, r)).Value?
    ensures var x := Eval(p, fuel, st, l);
      x.Value? && Eval(p, fuel, x.st, r).Value?
      && Given(v, m, n, m', Bin(op, l, r), Eval(p, fuel, st, Bin(op, l, r)),
               Agrees(op, FillOf(l), x.v, FillOf(r), Eval(p, fuel, x.st, r).v))
  {
    hide Place, Size, Good, Kept, Reach, U32, Ext, OpCode, Loaded, Faithful, Apply, InFullWidth, RightAgrees, LeftAgrees,
      FullOperands, Wrap, FillOf, Filled, Wide, ECode, S64, Far, Plain, Carried;
    BinValue(p, fuel, st, op, l, r);
    var x := Eval(p, fuel, st, l);
    var y := Eval(p, fuel, x.st, r);
    var a, b := Carried(FillOf(l), x.v), Carried(FillOf(r), y.v);
    if Wide(l) { WideSigned(l); } else { WideSigned(r); }
    var c, m1 := OperandsRun(v, p, nx, fuel, st, op, l, r, m);
    CarriedWord(FillOf(l), m1.rcx, x.v); CarriedWord(FillOf(r), m1.rax, y.v);
    BothOperands(m1, a, b);
    var d, m2 := WideOp(v, m1, op, a, b);
    SignCarried(x.v); SignCarried(y.v);
    AgreesExactly(op, FillOf(r), x.v, y.v);
    AgreesExactly(op, FillOf(l), x.v, y.v);
    Outcome(op, a, b, x.v, y.v);
    Then(v, m, c, m1, d, m2);
    KeptSame(m1, m2, y.st); KeptThen(m, m1, m2, |y.st|);
    n, m' := c + d, m2;
  }

  lemma {:induction false} BothOperands(m: M, a: int, b: int)
    requires S64(m.rcx) == a && S64(m.rax) == b
    requires -0x1_0000_0000 < a < 0x1_0000_0000 && -0x1_0000_0000 < b < 0x1_0000_0000
    ensures FullOperands(m, a, b)
  {
  }

  lemma {:induction false} SignCarried(a: int)
    ensures Carried(SignExt, a) == a
  {
  }

  lemma {:induction false} BinValue(p: Program, fuel: nat, st: Store, op: BinOp, l: Expr, r: Expr)
    requires Eval(p, fuel, st, Bin(op, l, r)).Value?
    ensures var x := Eval(p, fuel, st, l);
      x.Value? && Eval(p, fuel, x.st, r).Value?
      && var y := Eval(p, fuel, x.st, r);
         Apply(op, x.v, y.v).Result? && Eval(p, fuel, st, Bin(op, l, r)) == Value(Apply(op, x.v, y.v).v, y.st)
  {
    hide Apply;
  }

  /** The 64-bit operation gives a value where C does, and values are equal if their
      low words are. */
  lemma {:induction false} Outcome(op: BinOp, a: int, b: int, c: int, d: int)
    requires NeedsHigh(op) && IsInt(c) && IsInt(d) && Apply(op, c, d).Result?
    requires (a == c || a == Far(c)) && (b == d || b == Far(d))
    ensures InFullWidth(op, a, b).Result?
    ensures U32(InFullWidth(op, a, b).v) == U32(Apply(op, c, d).v) <==> InFullWidth(op, a, b) == Apply(op, c, d)
  {
    hide Wrap, TruncDiv, TruncMod, U32;
    var x, y := InFullWidth(op, a, b).v, Apply(op, c, d).v;
    S32Unique(U32(x), U32(x));
    U32OfInt(x); U32OfInt(y);
  }

  // ----- Inputs -----

  /** int f(void) { return -1; } */
  function MinusOne(): Func { Func(0, 0, Return(SomeExpr(Const(-1))), false) }

  /** f() == x with x == -1: C says 1, and the code leaves 0 in eax. */
  lemma {:induction false} EqualNotFound(v: Env, next: int, fuel: nat, m: M) returns (n: nat, m': M)
    requires Loaded(v, [MinusOne()], [next]).InPlace? && fuel > 0
    requires Place(v, m.pc, ECode(Bin(Cmp(Eq), Call(0, ANil), Var(0)))).InPlace? && Good(m, [Set(-1)])
    ensures Eval([MinusOne()], fuel, [Set(-1)], Bin(Cmp(Eq), Call(0, ANil), Var(0))) == Value(1, [Set(-1)])
    ensures Reach(v, m, n, m') && m'.pc == m.pc + Size(ECode(Bin(Cmp(Eq), Call(0, ANil), Var(0)))) && U32(m'.rax) != 1
    ensures !Faithful(Bin(Cmp(Eq), Call(0, ANil), Var(0)))
  {
    hide Place, Size, Good, Kept, Reach, U32, ECode, Loaded, Eval;
    MinusOneValue(fuel);
    n, m' := MixedOperands(v, [MinusOne()], [next], fuel, [Set(-1)], Cmp(Eq), Call(0, ANil), Var(0), m);
    U32OfInt(1);
  }

  lemma {:induction false} MinusOneValue(fuel: nat)
    requires fuel > 0
    ensures var p, st := [MinusOne()], [Set(-1)];
      && Eval(p, fuel, st, Call(0, ANil)) == Value(-1, st) && Eval(p, fuel, st, Var(0)) == Value(-1, st)
      && Eval(p, fuel, st, Bin(Cmp(Eq), Call(0, ANil), Var(0))) == Value(1, st)
  {
    var p, st := [MinusOne()], [Set(-1)];
    WrapInt(-1);
    assert EntryStore(p[0], []) == [];
    assert Exec(p, fuel - 1, p[0].body, Top, []) == Returned(Set(-1));
    assert RunBody(p, fuel - 1, 0, Top, []) == Returned(Set(-1));
    assert Invoke(p, fuel, st, 0, []) == Called(Set(-1), st);
    var none: seq<int> := [];
    assert none + none == [];
    assert EvalStack(p, fuel, st, ANil, 0) == Values([], st) && EvalRegs(p, fuel, st, ANil, 0) == Values([], st);
    assert CallFn(p, fuel, st, 0, ANil) == Called(Set(-1), st);
  }

  // ----- Conditions -----

  /** if (l + r): the 64-bit sum is tested.  It is zero where C's int is zero unless the
      operands are opposite and one of them is carried far, or both are INT_MIN and none is. */
  lemma {:induction false} SumTested(v: Env, p: Program, nx: seq<int>, fuel: nat, st: Store, l: Expr, r: Expr, cc: Cc, lab: int, m: M)
    returns (n: nat, m': M)
    requires Loaded(v, p, nx).InPlace? && Place(v, m.pc, TestCode(Bin(Add, l, r), cc, lab)).InPlace? && Good(m, st)
    requires Faithful(l) && Faithful(r) && (Wide(l) || Wide(r)) && !FillOf(l).Loose? && !FillOf(r).Loose?
    requires Eval(p, fuel, st, Bin(Add, l, r)).Value?
    ensures var e := Bin(Add, l, r);
      var x := Eval(p, fuel, st, l);
      x.Value? && Eval(p, fuel, x.st, r).Value?
      && Reach(v, m, n, m') && m'.pc == m.pc + Size(ECode(e)) + 3 && Place(v, m'.pc, JccL(cc, lab)).InPlace? && m'.fl.Flags?
      && var y := Eval(p, fuel, x.st, r);
         (m'.fl.zf <==> Eval(p, fuel, st, e).v == 0) <==> SumAgrees(FillOf(l), x.v, FillOf(r), y.v)
  {
    hide Place, Size, Good, Kept, Reach, U32, Ext, OpCode, Loaded, Faithful, Wrap, FillOf, Filled, Wide, ECode, S64, U64,
      Far, Plain, Carried, SumAgrees, Eval, Apply;
    var e := Bin(Add, l, r);
    BinValue(p, fuel, st, Add, l, r);
    WideSum(l, r);
    Parts3(v, m.pc, ECode(e), I(TestRax(true)), JccL(cc, lab));
    var x := Eval(p, fuel, st, l);
    var y := Eval(p, fuel, x.st, r);
    if Wide(l) { WideSigned(l); } else { WideSigned(r); }
    var c, m1 := OperandsRun(v, p, nx, fuel, st, Add, l, r, m);
    CarriedWord(FillOf(l), m1.rcx, x.v); CarriedWord(FillOf(r), m1.rax, y.v);
    var d, m2 := SumSteps(v, m1);
    Then(v, m, c, m1, d, m2);
    var f, m3 := TestSum(v, m2);
    Then(v, m, c + d, m2, f, m3);
    SumZero(m1.rcx, m1.rax, FillOf(l), x.v, FillOf(r), y.v);
    n, m' := c + d + f, m3;
  }

  lemma {:induction false} WideSum(l: Expr, r: Expr)
    requires Wide(l) || Wide(r)
    ensures Wide(Bin(Add, l, r)) && OpCode(Add, true) == I(Alu(true, AAdd))
    ensures forall cc, lab :: TestCode(Bin(Add, l, r), cc, lab) == Cat(ECode(Bin(Add, l, r)), Cat(I(TestRax(true)), JccL(cc, lab)))
    ensures forall a, b :: Apply(Add, a, b) == Result(Wrap(a + b))
  {
    hide ECode, Wrap;
  }

  predicate SumAgrees(f: Fill, a: int, g: Fill, b: int)
  {
    if Plain(f, a) && Plain(g, b) then !(a == INT_MIN && b == INT_MIN) else a != -b
  }

  lemma {:induction false} SumSteps(v: Env, m: M) returns (n: nat, m': M)
    requires Place(v, m.pc, OpCode(Add, true)).InPlace?
    ensures Reach(v, m, n, m') && m'.pc == m.pc + Size(OpCode(Add, true)) && m'.rax == U64(m.rax + m.rcx)
  {
    m' := Do(Alu(true, AAdd), m).m;
    n := One(v, m, Alu(true, AAdd), m');
  }

  lemma {:induction false} TestSum(v: Env, m: M) returns (n: nat, m': M)
    requires Place(v, m.pc, I(TestRax(true))).InPlace?
    ensures Reach(v, m, n, m') && m'.pc == m.pc + 3 && m'.fl.Flags? && m'.fl.zf == (U64(m.rax) == 0) && Size(I(TestRax(true))) == 3
  {
    m' := Do(TestRax(true), m).m;
    n := One(v, m, TestRax(true), m');
  }

  lemma {:induction false} SumZero(rcx: int, rax: int, f: Fill, a: int, g: Fill, b: int)
    requires IsInt(a) && IsInt(b) && (f.SignExt? || g.SignExt?) && !f.Loose? && !g.Loose?
    requires S64(rcx) == Carried(f, a) && S64(rax) == Carried(g, b)
    ensures (U64(U64(rax + rcx)) == 0 <==> Wrap(a + b) == 0) <==> SumAgrees(f, a, g, b)
  {
    hide U32, Wrap, S64;
    SumWord(rax, rcx, Carried(f, a) + Carried(g, b));
    WrapZero(a + b);
    ZeroPlain(f); ZeroPlain(g);
  }

  lemma {:induction false} SumWord(x: int, y: int, s: int)
    requires S64(x) + S64(y) == s && -0x2_0000_0000 < s < 0x2_0000_0000
    ensures U64(U64(x + y)) == 0 <==> s == 0
  {
    hide U64;
    SignedWord64(x); SignedWord64(y);
    U64Sum(x, y, S64(x), S64(y));
    ZeroWord(s);
    SameWord(x + y);
  }

  lemma {:induction false} SignedWord64(x: int)
    ensures U64(S64(x)) == U64(x)
  {
    Reduced(U64(x), -1, 0x1_0000_0000_0000_0000);
  }

  lemma {:induction false} SameWord(x: int)
    ensures U64(U64(x)) == U64(x)
  {
  }

  lemma {:induction false} ZeroWord(s: int)
    requires -0x2_0000_0000 < s < 0x2_0000_0000
    ensures U64(s) == 0 <==> s == 0
  {
    Reduced(s, 1, 0x1_0000_0000_0000_0000);
  }

  lemma {:induction false} U64Sum(x: int, y: int, x': int, y': int)
    requires U64(x) == U64(x') && U64(y) == U64(y')
    ensures U64(x + y) == U64(x' + y')
  {
    var w := 0x1_0000_0000_0000_0000;
    IsMod(x, w); IsMod(y, w); IsMod(x', w); IsMod(y', w);
    var k := x / w - x' / w + (y / w - y' / w);
    assert x + y == x' + y' + k * w;
    Reduced(x' + y', k, w);
  }

  lemma {:induction false} WrapZero(s: int)
    requires -0x1_0000_0000 <= s < 0x1_0000_0000
    ensures Wrap(s) == 0 <==> s == 0 || s == -0x1_0000_0000
  {
    Reduced(s, 1, 0x1_0000_0000);
    if s == -0x1_0000_0000 { Reduced(0, -1, 0x1_0000_0000); }
  }
}
