/** The labels of generated code: every number is defined at most once, every
    jump has its label, and every field is wide enough. */
module Labels {
  import opened Words
  import opened X86
  import opened CSource
  import opened CodeGen
  import opened Blocks
  import opened Snippets
  import opened Arguments
  import opened Statements
  import opened Emission

  // ----- Counting definitions -----

  function Occurs(s: seq<Def>, id: int): nat
  {
    if s == [] then 0 else (if s[0].id == id then 1 else 0) + Occurs(s[1..], id)
  }

  lemma {:induction false} OccursCat(a: seq<Def>, b: seq<Def>, id: int)
    ensures Occurs(a + b, id) == Occurs(a, id) + Occurs(b, id)
    decreases |a|
  {
    if a == [] {
      assert a + b == b;
    } else {
      assert (a + b)[1..] == a[1..] + b;
      OccursCat(a[1..], b, id);
    }
  }

  /** How often c defines label id. */
  function DefCount(c: Code, id: int): nat
  {
    match c
    case Lab(l) => if l == id then 1 else 0
    case Cat(a, b) => DefCount(a, id) + DefCount(b, id)
    case _ => 0
  }

  lemma {:induction false} DefCountIs(c: Code, pos: nat, id: int)
    ensures Occurs(Labs(c, pos), id) == DefCount(c, id)
    decreases c
  {
    match c {
      case Cat(a, b) =>
        DefCountIs(a, pos, id);
        DefCountIs(b, pos + Size(a), id);
        OccursCat(Labs(a, pos), Labs(b, pos + Size(a)), id);
      case Lab(l) =>
        var s := [Def(l, pos)];
        assert s[1..] == [];
        assert Occurs(s, id) == (if l == id then 1 else 0) + Occurs(s[1..], id);
      case Nil =>
      case I(_) =>
      case JmpL(_) =>
      case JccL(_, _) =>
      case CallF(_) =>
    }
  }

  lemma {:induction false} OccursOne(d: Def)
    ensures Occurs([d], d.id) == 1
  {
    assert [d][1..] == [];
  }

  lemma {:induction false} LookupMiddle(pre: seq<Def>, d: Def, post: seq<Def>)
    requires Occurs(pre + [d] + post, d.id) <= 1
    ensures Lookup(pre + [d] + post, d.id) == d.at
    decreases |pre|
  {
    var s := pre + [d] + post;
    if pre == [] {
      assert s[0] == d;
    } else {
      assert s[1..] == pre[1..] + [d] + post;
      OccursCat(pre[1..] + [d], post, d.id);
      OccursCat(pre[1..], [d], d.id);
      OccursOne(d);
      LookupMiddle(pre[1..], d, post);
    }
  }

  /** A label that is defined is found. */
  lemma {:induction false} OccursFound(s: seq<Def>, id: int)
    requires Occurs(s, id) >= 1 && forall i :: 0 <= i < |s| ==> s[i].at >= 0
    ensures Lookup(s, id) >= 0
    decreases |s|
  {
    if s[0].id != id { OccursFound(s[1..], id); }
  }

  /** Labels that are defined once are found where they are. */
  lemma {:induction false} FoundAll(c: Code, pos: nat, pre: seq<Def>, post: seq<Def>, all: seq<Def>)
    requires all == pre + Labs(c, pos) + post && forall id :: Occurs(all, id) <= 1
    ensures Found(c, pos, all)
    decreases c
  {
    match c {
      case Cat(a, b) =>
        var la, lb := Labs(a, pos), Labs(b, pos + Size(a));
        assert pre + (la + lb) + post == pre + la + (lb + post) == (pre + la) + lb + post;
        FoundAll(a, pos, pre, lb + post, all);
        FoundAll(b, pos + Size(a), pre + la, post, all);
      case Lab(l) => LookupMiddle(pre, Def(l, pos), post);
      case Nil =>
      case I(_) =>
      case JmpL(_) =>
      case JccL(_, _) =>
      case CallF(_) =>
    }
  }

  predicate Uses(c: Code, l: int)
  {
    match c
    case JmpL(k) => k == l
    case JccL(_, k) => k == l
    case Cat(a, b) => Uses(a, l) || Uses(b, l)
    case _ => false
  }

  /** Instructions fit their encodings, and calls name functions below n. */
  predicate Loadable(c: Code, n: nat)
  {
    match c
    case I(i) => Encodable(i)
    case CallF(fn) => fn < n
    case Cat(a, b) => Loadable(a, n) && Loadable(b, n)
    case _ => true
  }

  lemma {:induction false} ClosedIf(c: Code, all: seq<Def>, n: nat)
    requires Loadable(c, n) && forall l :: Uses(c, l) ==> Lookup(all, l) >= 0
    ensures Closed(c, all, n) && Fits(c)
    decreases c
  {
    match c {
      case Cat(a, b) =>
        forall l | Uses(a, l) || Uses(b, l) ensures Lookup(all, l) >= 0 { assert Uses(c, l); }
        ClosedIf(a, all, n);
        ClosedIf(b, all, n);
      case JmpL(l) => assert Uses(c, l);
      case JccL(_, l) => assert Uses(c, l);
      case Nil =>
      case I(_) =>
      case Lab(_) =>
      case CallF(_) =>
    }
  }

  // ----- Expressions have no labels -----

  const SLOT_LIMIT: nat := 0x100_0000
  const CODE_LIMIT: nat := 0x4000_0000

  /** Variables are slots of the function, and calls name functions of the program. */
  predicate Scoped(e: Expr, slots: nat, n: nat)
  {
    match e
    case Const(_) => true
    case Var(x) => x < slots
    case Bin(_, l, r) => Scoped(l, slots, n) && Scoped(r, slots, n)
    case LAnd(l, r) => Scoped(l, slots, n) && Scoped(r, slots, n)
    case LOr(l, r) => Scoped(l, slots, n) && Scoped(r, slots, n)
    case Comma(l, r) => Scoped(l, slots, n) && Scoped(r, slots, n)
    case Cond(c, t, f) => Scoped(c, slots, n) && Scoped(t, slots, n) && Scoped(f, slots, n)
    case Neg(e1) => Scoped(e1, slots, n)
    case BitNot(e1) => Scoped(e1, slots, n)
    case Not(e1) => Scoped(e1, slots, n)
    case Assign(x, e1) => x < slots && Scoped(e1, slots, n)
    case IncDec(x, _, _) => x < slots
    case Call(fn, args) => fn < n && ScopedArgs(args, slots, n)
  }

  predicate ScopedArgs(args: Args, slots: nat, n: nat)
  {
    match args case ANil => true case ACons(a, tl) => Scoped(a, slots, n) && ScopedArgs(tl, slots, n)
  }

  /** Loadable code without labels and jumps to labels. */
  predicate Plain(c: Code, n: nat)
  {
    match c
    case Nil => true
    case I(i) => Encodable(i)
    case CallF(fn) => fn < n
    case Cat(a, b) => Plain(a, n) && Plain(b, n)
    case _ => false
  }

  lemma {:induction false} PlainFacts(c: Code, n: nat, l: int)
    requires Plain(c, n)
    ensures Loadable(c, n) && !Uses(c, l) && DefCount(c, l) == 0
    decreases c
  {
    if c.Cat? {
      PlainFacts(c.a, n, l);
      PlainFacts(c.b, n, l);
    }
  }

  lemma {:induction false} PlainCat(a: Code, b: Code, n: nat)
    ensures Plain(Cat(a, b), n) <==> Plain(a, n) && Plain(b, n)
    ensures Size(Cat(a, b)) == Size(a) + Size(b)
  {
  }

  lemma {:induction false} PlainI(i: Instr, n: nat)
    ensures Plain(I(i), n) <==> Encodable(i)
    ensures Size(I(i)) == Len(i)
  {
  }

  lemma {:induction false} PlainF(fn: nat, n: nat)
    ensures Plain(CallF(fn), n) <==> fn < n
  {
  }

  lemma {:induction false} PlainOp(op: BinOp, w: bool, n: nat)
    ensures Plain(OpCode(op, w), n)
  {
    hide Plain, Size, Encode, Len;
    PlainI(Xchg(w), n); PlainI(Alu(w, ASub), n); PlainI(Cdq(w), n); PlainI(Idiv(w), n); PlainI(MovRaxRdx(w), n);
    PlainI(Shl(w), n); PlainI(Sar(w), n); PlainI(CmpRcxRax(w), n); PlainI(MovzxAl, n);
    PlainI(Alu(w, AAdd), n); PlainI(Alu(w, AMul), n); PlainI(Alu(w, AAnd), n); PlainI(Alu(w, AOr), n);
    PlainI(Alu(w, AXor), n);
    PlainCat(I(Xchg(w)), I(Alu(w, ASub)), n);
    PlainCat(I(Cdq(w)), I(Idiv(w)), n);
    PlainCat(I(Xchg(w)), Cat(I(Cdq(w)), I(Idiv(w))), n);
    PlainCat(DivCode(w), I(MovRaxRdx(w)), n);
    PlainCat(I(Xchg(w)), I(Shl(w)), n);
    PlainCat(I(Xchg(w)), I(Sar(w)), n);
    if op.Cmp? {
      PlainI(Setcc(op.cc), n);
      PlainCat(I(Setcc(op.cc)), I(MovzxAl), n);
      PlainCat(I(CmpRcxRax(w)), SetCode(op.cc), n);
    }
  }

  lemma {:induction false} PlainBin(l: Code, r: Code, op: Code, n: nat)
    requires Plain(l, n) && Plain(r, n) && Plain(op, n)
    ensures Plain(BinCode(l, r, op), n)
  {
    hide Plain, Size;
    PlainI(PushRax, n); PlainI(PopRcx, n);
    PlainCat(I(PopRcx), op, n);
    PlainCat(r, Cat(I(PopRcx), op), n);
    PlainCat(I(PushRax), Cat(r, Cat(I(PopRcx), op)), n);
    PlainCat(l, Cat(I(PushRax), Cat(r, Cat(I(PopRcx), op))), n);
  }

  lemma {:induction false} PlainLogic(l: Code, r: Code, cc: Cc, v: int, n: nat)
    requires Plain(l, n) && Plain(r, n) && 0 <= v <= 1 && Size(r) <= CODE_LIMIT
    ensures Plain(LogicCode(l, r, cc, v), n)
  {
    hide Plain, Size;
    PlainLogicEnd(cc, v, n);
    var j := Jcc(cc, Size(r) + 18);
    PlainI(TestRax(false), n); PlainI(j, n);
    PlainCat(r, LogicEnd(cc, v), n);
    PlainCat(I(j), Cat(r, LogicEnd(cc, v)), n);
    PlainCat(I(TestRax(false)), Cat(I(j), Cat(r, LogicEnd(cc, v))), n);
    PlainCat(l, LogicMid(r, cc, v), n);
  }

  lemma {:induction false} PlainLogicEnd(cc: Cc, v: int, n: nat)
    requires 0 <= v <= 1
    ensures Plain(LogicEnd(cc, v), n)
  {
    hide Plain, Size;
    PlainI(TestRax(false), n); PlainI(Jcc(cc, 10), n); PlainI(MovEaxImm(v), n); PlainI(Jmp(5), n);
    PlainI(MovEaxImm(1 - v), n);
    PlainCat(I(Jmp(5)), I(MovEaxImm(1 - v)), n);
    PlainCat(I(MovEaxImm(v)), Cat(I(Jmp(5)), I(MovEaxImm(1 - v))), n);
    PlainCat(I(Jcc(cc, 10)), LogicTail(v), n);
    PlainCat(I(TestRax(false)), Cat(I(Jcc(cc, 10)), LogicTail(v)), n);
  }

  lemma {:induction false} PlainCond(c: Code, t: Code, f: Code, n: nat)
    requires Plain(c, n) && Plain(t, n) && Plain(f, n) && Size(t) <= CODE_LIMIT && Size(f) <= CODE_LIMIT
    ensures Plain(CondCode(c, t, f), n)
  {
    hide Plain, Size;
    var j, k := Jcc(Eq, Size(t) + 6), Jmp(Size(f) + 1);
    PlainI(PushRax, n); PlainI(PopRax, n); PlainI(TestRax(false), n); PlainI(j, n); PlainI(k, n);
    PlainCat(I(PushRax), I(PopRax), n);
    PlainCat(f, Cat(I(PushRax), I(PopRax)), n);
    PlainCat(I(k), Cat(f, Cat(I(PushRax), I(PopRax))), n);
    PlainCat(I(PushRax), Cat(I(k), Cat(f, Cat(I(PushRax), I(PopRax)))), n);
    PlainCat(t, CondElse(f), n);
    PlainCat(I(j), Cat(t, CondElse(f)), n);
    PlainCat(I(TestRax(false)), Cat(I(j), Cat(t, CondElse(f))), n);
    PlainCat(c, Cat(I(TestRax(false)), Cat(I(j), Cat(t, CondElse(f)))), n);
  }

  lemma {:induction false} PlainIncDec(x: nat, up: bool, postfix: bool, n: nat)
    requires x < SLOT_LIMIT
    ensures Plain(IncDecCode(x, up, postfix), n)
  {
    hide Size, Len, Encode, Plain;
    var i := if up then IncEax else DecEax;
    PlainI(PushRax, n); PlainI(PopRax, n); PlainI(PopRcx, n); PlainI(LoadEaxRcx, n); PlainI(StoreEaxRcx, n); PlainI(i, n);
    PlainI(LoadEax(Off(x)), n); PlainI(LeaRax(Off(x)), n);
    PlainCat(I(PushRax), I(PopRcx), n);
    PlainCat(I(LeaRax(Off(x))), Cat(I(PushRax), I(PopRcx)), n);
    PlainCat(I(i), I(StoreEaxRcx), n);
    var pre := Cat(I(LoadEaxRcx), BumpCode(up));
    PlainCat(I(LoadEaxRcx), BumpCode(up), n);
    PlainCat(pre, I(PopRax), n);
    PlainCat(I(PushRax), Cat(pre, I(PopRax)), n);
    PlainCat(I(LoadEaxRcx), Cat(I(PushRax), Cat(pre, I(PopRax))), n);
    var tail := if postfix then PostfixCode(up) else pre;
    PlainCat(AddressCode(x), tail, n);
    PlainCat(I(LoadEax(Off(x))), Cat(AddressCode(x), tail), n);
  }

  lemma {:induction false} PlainPops(k: nat, n: nat)
    requires k <= 6
    ensures Plain(PopArgs(k), n)
  {
    if k > 0 {
      PlainPops(k - 1, n);
      assert Plain(I(MovArg(k - 1)), n) && Plain(I(PopRax), n);
    }
  }

  lemma {:induction false} PlainCall(fn: nat, args: Args, slots: nat, n: nat)
    requires ScopedArgs(args, slots, n) && FaithfulArgs(args) && Count(args) <= 14 && slots <= SLOT_LIMIT && fn < n
    requires Size(CallCode(fn, args)) <= CODE_LIMIT
    ensures Plain(CallCode(fn, args), n)
    decreases args, 1
  {
    hide Plain, Size, PushLate, PushEarly, PopArgs, Faithful, FaithfulArgs, Scoped, ScopedArgs, Encode, Len;
    var c := Count(args);
    var k := if c < 6 then c else 6;
    var tail := Cat(CallF(fn), Cat(DropCode(c), I(Movsxd)));
    PlainCat(PushEarly(args, 0), Cat(PopArgs(k), tail), n);
    PlainCat(PushLate(args, 0), Cat(PushEarly(args, 0), Cat(PopArgs(k), tail)), n);
    PlainLate(args, 0, slots, n);
    PlainEarly(args, 0, slots, n);
    PlainPops(k, n);
    PlainTail(fn, c, n);
    PlainCat(PopArgs(k), tail, n);
  }

  lemma {:induction false} PlainTail(fn: nat, c: nat, n: nat)
    requires fn < n && c <= 14
    ensures Plain(Cat(CallF(fn), Cat(DropCode(c), I(Movsxd))), n)
  {
    hide Size, Encode, Len, Plain;
    PlainNil(n); PlainI(AddRsp((c - 6) * 8), n); PlainI(Movsxd, n); PlainF(fn, n);
    PlainCat(DropCode(c), I(Movsxd), n);
    PlainCat(CallF(fn), Cat(DropCode(c), I(Movsxd)), n);
  }

  lemma {:induction false} PlainLate(args: Args, k: nat, slots: nat, n: nat)
    requires ScopedArgs(args, slots, n) && FaithfulArgs(args) && slots <= SLOT_LIMIT
    requires Size(PushLate(args, k)) <= CODE_LIMIT
    ensures Plain(PushLate(args, k), n)
    decreases args, 0
  {
    hide Size, Encode, Len, ECode, Faithful, Scoped, Plain;
    match args {
      case ANil => PlainNil(n);
      case ACons(a, tl) =>
        var x := if k < 6 then Nil else Cat(ECode(a), I(PushRax));
        PlainCat(PushLate(tl, k + 1), x, n); PlainCat(ECode(a), I(PushRax), n); PlainI(PushRax, n); PlainNil(n);
        PlainLate(tl, k + 1, slots, n);
        if k >= 6 { PlainExpr(a, slots, n); }
    }
  }

  lemma {:induction false} PlainNil(n: nat)
    ensures Plain(Nil, n)
  {
  }

  lemma {:induction false} PlainEarly(args: Args, k: nat, slots: nat, n: nat)
    requires ScopedArgs(args, slots, n) && FaithfulArgs(args) && slots <= SLOT_LIMIT
    requires Size(PushEarly(args, k)) <= CODE_LIMIT
    ensures Plain(PushEarly(args, k), n)
    decreases args, 0
  {
    hide Size, Encode, Len, ECode, Faithful, Scoped, Plain;
    match args {
      case ANil => PlainNil(n);
      case ACons(a, tl) =>
        PlainNil(n);
        if k < 6 {
          PlainI(PushRax, n);
          PlainCat(I(PushRax), PushEarly(tl, k + 1), n);
          PlainCat(ECode(a), Cat(I(PushRax), PushEarly(tl, k + 1)), n);
          PlainExpr(a, slots, n);
          PlainEarly(tl, k + 1, slots, n);
        }
    }
  }

  lemma {:induction false} PlainExpr(e: Expr, slots: nat, n: nat)
    requires Scoped(e, slots, n) && Faithful(e) && slots <= SLOT_LIMIT && Size(ECode(e)) <= CODE_LIMIT
    ensures Plain(ECode(e), n)
    decreases e, 0
  {
    hide Size, Encode, Len, Plain, OpCode;
    var v: Env := Env(map[], map[], []);
    match e {
      case Const(c) => PlainConst(c, n);
      case Var(x) => PlainI(LoadEax(Off(x)), n);
      case Bin(op, l, r) =>
        BinShape(v, 0, ECode(l), ECode(r), OpCode(op, Wide(l) || Wide(r)));
        PlainExpr(l, slots, n); PlainExpr(r, slots, n);
        PlainOp(op, Wide(l) || Wide(r), n);
        PlainBin(ECode(l), ECode(r), OpCode(op, Wide(l) || Wide(r)), n);
      case LAnd(l, r) =>
        LogicShape(v, 0, ECode(l), ECode(r), Eq, 1);
        PlainExpr(l, slots, n); PlainExpr(r, slots, n);
        PlainLogic(ECode(l), ECode(r), Eq, 1, n);
      case LOr(l, r) =>
        LogicShape(v, 0, ECode(l), ECode(r), Ne, 0);
        PlainExpr(l, slots, n); PlainExpr(r, slots, n);
        PlainLogic(ECode(l), ECode(r), Ne, 0, n);
      case Comma(l, r) =>
        PlainCat(ECode(l), ECode(r), n);
        PlainExpr(l, slots, n); PlainExpr(r, slots, n);
      case Cond(c, t, f) =>
        CondShape(v, 0, ECode(c), ECode(t), ECode(f));
        PlainExpr(c, slots, n); PlainExpr(t, slots, n); PlainExpr(f, slots, n);
        PlainCond(ECode(c), ECode(t), ECode(f), n);
      case Neg(e1) =>
        PlainCat(ECode(e1), I(NegRax), n); PlainI(NegRax, n);
        PlainExpr(e1, slots, n);
      case BitNot(e1) =>
        PlainCat(ECode(e1), I(NotRax(Wide(e1))), n); PlainI(NotRax(Wide(e1)), n);
        PlainExpr(e1, slots, n);
      case Not(e1) =>
        var t := TestRax(Wide(e1));
        PlainCat(I(t), SetCode(Eq), n); PlainCat(ECode(e1), Cat(I(t), SetCode(Eq)), n); PlainI(t, n);
        PlainCat(I(Setcc(Eq)), I(MovzxAl), n); PlainI(Setcc(Eq), n); PlainI(MovzxAl, n);
        PlainExpr(e1, slots, n);
      case Assign(x, e1) =>
        PlainCat(ECode(e1), I(StoreEax(Off(x))), n); PlainI(StoreEax(Off(x)), n);
        PlainExpr(e1, slots, n);
      case IncDec(x, up, postfix) => PlainIncDec(x, up, postfix, n);
      case Call(fn, args) => PlainCall(fn, args, slots, n);
    }
  }

  lemma {:induction false} PlainConst(c: int, n: nat)
    requires IsInt(c)
    ensures Plain(ConstCode(c), n)
  {
    hide Size, Encode, Len;
  }
}
