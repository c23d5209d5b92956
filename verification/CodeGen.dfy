/** What the code generator emits, as a function: a tree of instructions,
    jumps to numbered labels, label definitions and calls to be relocated.
    Generator.dfy has the imperative generator that writes the bytes. */
module CodeGen {
  import opened Words
  import opened X86
  import opened CSource

  datatype Code =
    | Nil
    | I(i: Instr)
    | JmpL(l: int)
    | JccL(cc: Cc, l: int)
    | Lab(l: int)
    | CallF(fn: nat)
    | Cat(a: Code, b: Code)

  function Size(c: Code): (n: nat)
  {
    match c
    case Nil => 0
    case I(i) => Len(i)
    case JmpL(_) => 5
    case JccL(_, _) => 6
    case Lab(_) => 0
    case CallF(_) => 5
    case Cat(a, b) => Size(a) + Size(b)
  }

  /** The rbp offset of a local; every slot has 4 bytes. */
  function Off(x: nat): int { -4 * (x + 1) }

  // ----- Expressions -----

  /** Whether the node's type_size is 8 once its code has been generated:
      calls are taken to leave 64 bits, and arithmetic passes that on. */
  predicate Wide(e: Expr)
  {
    match e
    case Bin(op, l, r) => !op.Cmp? && (Wide(l) || Wide(r))
    case Cond(_, t, f) => Wide(t) || Wide(f)
    case Call(_, _) => true
    case _ => false
  }

  /** Whether the code of e always leaves rax sign-extended from eax. */
  predicate Extended(e: Expr)
  {
    match e
    case Const(_) => true
    case Bin(op, _, _) => op.Cmp?
    case LAnd(_, _) => true
    case LOr(_, _) => true
    case Comma(_, r) => Extended(r)
    case Cond(_, t, f) => Extended(t) && Extended(f)
    case Neg(e1) => e1.Const? && INT_MIN < e1.c <= INT_MAX
    case Not(_) => true
    case Assign(_, e1) => Extended(e1)
    case Call(_, _) => true
    case _ => false
  }

  /** What the upper half of rax holds behind the code of an expression: anything, the sign
      of the int, zeros, or what negating one of the two leaves. */
  datatype Fill = Loose | SignExt | ZeroExt | NegSign | NegZero

  function Negated(f: Fill): Fill
  {
    match f case Loose => Loose case SignExt => NegSign case ZeroExt => NegZero case NegSign => SignExt case NegZero => ZeroExt
  }

  function FillOf(e: Expr): Fill
  {
    match e
    case Const(_) => SignExt
    case Var(_) => ZeroExt
    case Bin(op, l, r) => if op.Cmp? then SignExt else if Wide(l) || Wide(r) then Loose else ZeroExt
    case LAnd(_, _) => SignExt
    case LOr(_, _) => SignExt
    case Comma(_, r) => FillOf(r)
    case Cond(_, t, f) => if FillOf(t) == FillOf(f) then FillOf(t) else Loose
    case Neg(e1) => if e1.Const? && INT_MIN < e1.c <= INT_MAX then SignExt else Negated(FillOf(e1))
    case BitNot(e1) => if Wide(e1) then Loose else ZeroExt
    case Not(_) => SignExt
    case Assign(_, e1) => FillOf(e1)
    case IncDec(_, _, _) => ZeroExt
    case Call(_, _) => SignExt
  }

  lemma {:induction false} ExtendedFill(e: Expr)
    ensures Extended(e) ==> FillOf(e).SignExt?
  {
    match e
    case Comma(_, r) => ExtendedFill(r);
    case Cond(_, t, f) => ExtendedFill(t); ExtendedFill(f);
    case Assign(_, e1) => ExtendedFill(e1);
    case _ =>
  }

  /** Operators whose low half depends on the high halves of their operands. */
  predicate NeedsHigh(op: BinOp) { op.Div? || op.Mod? || op.ShiftR? || op.Cmp? }

  /** Expressions whose 64-bit operations see sign-extended operands.  Any
      expression without calls is fine, and so is f(x) == 3 or f(x) < g(y);
      f(x) == y is not (see module Widths). */
  predicate Faithful(e: Expr)
    decreases e, 0
  {
    match e
    case Const(c) => IsInt(c)
    case Bin(op, l, r) =>
      Faithful(l) && Faithful(r) && ((Wide(l) || Wide(r)) && NeedsHigh(op) ==> Extended(l) && Extended(r))
    case LAnd(l, r) => Faithful(l) && Faithful(r)
    case LOr(l, r) => Faithful(l) && Faithful(r)
    case Comma(l, r) => Faithful(l) && Faithful(r)
    case Cond(c, t, f) => Faithful(c) && Faithful(t) && Faithful(f)
    case Neg(e1) => Faithful(e1)
    case BitNot(e1) => Faithful(e1)
    case Not(e1) => FaithfulTest(e1)
    case Assign(_, e1) => Faithful(e1)
    case Call(_, args) => Count(args) <= 14 && FaithfulArgs(args)
    case _ => true
  }

  predicate FaithfulArgs(args: Args)
    decreases args, 0
  {
    match args case ANil => true case ACons(a, tl) => Faithful(a) && FaithfulArgs(tl)
  }

  /** A condition that is tested in full width must be sign-extended. */
  predicate FaithfulTest(e: Expr)
    decreases e, 1
  {
    Faithful(e) && (Wide(e) ==> Extended(e))
  }

  function OpCode(op: BinOp, w: bool): Code
  {
    match op
    case Add => I(Alu(w, AAdd))
    case Sub => SubCode(w)
    case Mul => I(Alu(w, AMul))
    case Div => DivCode(w)
    case Mod => ModCode(w)
    case And => I(Alu(w, AAnd))
    case Or => I(Alu(w, AOr))
    case Xor => I(Alu(w, AXor))
    case ShiftL => ShiftCode(Shl(w), w)
    case ShiftR => ShiftCode(Sar(w), w)
    case Cmp(cc) => CmpCode(cc, w)
  }

  function SubCode(w: bool): Code { Cat(I(Xchg(w)), I(Alu(w, ASub))) }

  function DivCode(w: bool): Code { Cat(I(Xchg(w)), Cat(I(Cdq(w)), I(Idiv(w)))) }

  function ModCode(w: bool): Code { Cat(DivCode(w), I(MovRaxRdx(w))) }

  function ShiftCode(i: Instr, w: bool): Code { Cat(I(Xchg(w)), I(i)) }

  function CmpCode(cc: Cc, w: bool): Code { Cat(I(CmpRcxRax(w)), SetCode(cc)) }

  function SetCode(cc: Cc): Code { Cat(I(Setcc(cc)), I(MovzxAl)) }

  function ConstCode(c: int): Code
  {
    if c < 0 then Cat(I(MovEaxImm(c)), I(Movsxd)) else I(MovEaxImm(c))
  }

  /** ++ and --: load, take the address, load through it, step, store back. */
  function IncDecCode(x: nat, up: bool, postfix: bool): Code
  {
    Cat(I(LoadEax(Off(x))), Cat(AddressCode(x), if postfix then PostfixCode(up) else Cat(I(LoadEaxRcx), BumpCode(up))))
  }

  function AddressCode(x: nat): Code { Cat(I(LeaRax(Off(x))), Cat(I(PushRax), I(PopRcx))) }

  function BumpCode(up: bool): Code { Cat(I(if up then IncEax else DecEax), I(StoreEaxRcx)) }

  /** The old value waits on the stack. */
  function PostfixCode(up: bool): Code
  {
    Cat(I(LoadEaxRcx), Cat(I(PushRax), Cat(Cat(I(LoadEaxRcx), BumpCode(up)), I(PopRax))))
  }

  function ECode(e: Expr): Code
  {
    match e
    case Const(c) => ConstCode(c)
    case Var(x) => I(LoadEax(Off(x)))
    case Bin(op, l, r) => BinCode(ECode(l), ECode(r), OpCode(op, Wide(l) || Wide(r)))
    case LAnd(l, r) => LogicCode(ECode(l), ECode(r), Eq, 1)
    case LOr(l, r) => LogicCode(ECode(l), ECode(r), Ne, 0)
    case Comma(l, r) => Cat(ECode(l), ECode(r))
    case Cond(c, t, f) => CondCode(ECode(c), ECode(t), ECode(f))
    case Neg(e1) => Cat(ECode(e1), I(NegRax))
    case BitNot(e1) => Cat(ECode(e1), I(NotRax(Wide(e1))))
    case Not(e1) => Cat(ECode(e1), Cat(I(TestRax(Wide(e1))), SetCode(Eq)))
    case Assign(x, e1) => Cat(ECode(e1), I(StoreEax(Off(x))))
    case IncDec(x, up, postfix) => IncDecCode(x, up, postfix)
    case Call(fn, args) => CallCode(fn, args)
  }

  /** Left operand on the stack while the right one is computed. */
  function BinCode(l: Code, r: Code, op: Code): Code
  {
    Cat(l, Cat(I(PushRax), Cat(r, Cat(I(PopRcx), op))))
  }

  /** && and ||: both tests leave for the last instruction on condition cc;
      the value is v when neither does. */
  function LogicCode(l: Code, r: Code, cc: Cc, v: int): Code
  {
    Cat(l, LogicMid(r, cc, v))
  }

  function LogicMid(r: Code, cc: Cc, v: int): Code
  {
    Cat(I(TestRax(false)), Cat(I(Jcc(cc, Size(r) + 18)), Cat(r, LogicEnd(cc, v))))
  }

  function LogicEnd(cc: Cc, v: int): Code
  {
    Cat(I(TestRax(false)), Cat(I(Jcc(cc, 10)), LogicTail(v)))
  }

  /** Both arms push their value, and one pop joins them. */
  function CondCode(c: Code, t: Code, f: Code): Code
  {
    Cat(c, Cat(I(TestRax(false)), Cat(I(Jcc(Eq, Size(t) + 6)), Cat(t, CondElse(f)))))
  }

  function CondElse(f: Code): Code
  {
    Cat(I(PushRax), Cat(I(Jmp(Size(f) + 1)), Cat(f, Cat(I(PushRax), I(PopRax)))))
  }

  /** The end of && and ||: fall through to the value v, or jump to 1 - v. */
  function LogicTail(v: int): Code
  {
    Cat(I(MovEaxImm(v)), Cat(I(Jmp(5)), I(MovEaxImm(1 - v))))
  }

  /** Arguments 6 and up are pushed from the last one back, the first six in
      order; the latter are popped into registers. */
  function CallCode(fn: nat, args: Args): Code
    decreases args, 1
  {
    var n := Count(args);
    Cat(PushLate(args, 0), Cat(PushEarly(args, 0), Cat(PopArgs(if n < 6 then n else 6),
    Cat(CallF(fn), Cat(DropCode(n), I(Movsxd))))))
  }

  /** The stack arguments are dropped after the call. */
  function DropCode(n: nat): Code { if n > 6 then I(AddRsp((n - 6) * 8)) else Nil }

  function PushLate(args: Args, k: nat): Code
    decreases args, 0
  {
    match args
    case ANil => Nil
    case ACons(a, tl) => Cat(PushLate(tl, k + 1), if k < 6 then Nil else Cat(ECode(a), I(PushRax)))
  }

  function PushEarly(args: Args, k: nat): Code
    decreases args, 0
  {
    match args
    case ANil => Nil
    case ACons(a, tl) =>
      if k >= 6 then Nil else Cat(ECode(a), Cat(I(PushRax), PushEarly(tl, k + 1)))
  }

  function PopArgs(n: nat): Code
  {
    if n == 0 then Nil else Cat(I(PopRax), Cat(I(MovArg(n - 1)), PopArgs(n - 1)))
  }

  // ----- Statements -----

  /** The label counter, and the labels given to goto names so far. */
  datatype G = G(next: int, gotos: map<string, int>)

  datatype Gen = Gen(code: Code, g: G)

  function GotoId(g: G, l: string): (int, G)
  {
    if l in g.gotos then (g.gotos[l], g)
    else (g.next, G.G(g.next + 1, g.gotos[l := g.next]))
  }

  function OptCode(e: OptExpr): Code
  {
    match e case NoExpr => Nil case SomeExpr(e1) => ECode(e1)
  }

  function TestCode(c: Expr, cc: Cc, l: int): Code
  {
    Cat(ECode(c), Cat(I(TestRax(Wide(c))), JccL(cc, l)))
  }

  /** The test of a for loop, absent if it has no condition. */
  function OptTest(c: OptExpr, l: int): Code
  {
    match c case NoExpr => Nil case SomeExpr(e) => TestCode(e, Eq, l)
  }

  const EPILOGUE: Code := Cat(I(MovRspRbp), Cat(I(PopRbp), I(Ret)))

  /** The number of case and default labels in a switch body. */
  function LabelCount(items: Items): nat
  {
    match items
    case INil => 0
    case ICase(_, _, rest) => 1 + LabelCount(rest)
    case IDefault(rest) => 1 + LabelCount(rest)
    case IStmt(_, rest) => LabelCount(rest)
  }

  function IfCode(test: Code, t: Code, n: int): Code { Cat(test, Cat(t, Lab(n))) }

  function IfElseCode(test: Code, t: Code, e: Code, n: int): Code
  {
    Cat(test, Cat(t, Cat(JmpL(n + 1), Cat(Lab(n), Cat(e, Lab(n + 1))))))
  }

  function WhileCode(test: Code, b: Code, n: int): Code
  {
    Cat(Lab(n), Cat(test, Cat(b, Cat(JmpL(n), Lab(n + 1)))))
  }

  function DoCode(b: Code, test: Code, n: int): Code { Cat(Lab(n), Cat(b, Cat(test, Lab(n + 1)))) }

  function ForCode(init: Code, test: Code, b: Code, step: Code, n: int): Code
  {
    Cat(init, Cat(Lab(n), Cat(test, Cat(b, ForEnd(step, n)))))
  }

  function ForEnd(step: Code, n: int): Code
  {
    Cat(Lab(n + 2), Cat(step, Cat(JmpL(n), Lab(n + 1))))
  }

  /** The value is kept on the stack while control jumps over the body to the
      dispatch code behind it. */
  function SwitchCode(c: Code, body: Code, dispatch: Code, d: int): Code
  {
    Cat(c, Cat(I(PushRax), Cat(JmpL(d), Cat(body, SwitchEnd(dispatch, d)))))
  }

  function SwitchEnd(dispatch: Code, d: int): Code
  {
    Cat(Lab(d), Cat(I(PopRax), Cat(dispatch, Lab(d + 1))))
  }

  /** brk and cont are the labels break and continue go to, -1 for none. */
  function SCode(s: Stmt, brk: int, cont: int, g: G): Gen
  {
    var n := g.next;
    match s
    case ExprStmt(e) => Gen(ECode(e), g)
    case CallStmt(fn, args) => Gen(CallCode(fn, args), g)
    case Null => Gen(Nil, g)
    case If(c, t) =>
      var t' := SCode(t, brk, cont, g.(next := n + 2));
      Gen(IfCode(TestCode(c, Eq, n), t'.code, n), t'.g)
    case IfElse(c, t, e) =>
      var t' := SCode(t, brk, cont, g.(next := n + 2));
      var e' := SCode(e, brk, cont, t'.g);
      Gen(IfElseCode(TestCode(c, Eq, n), t'.code, e'.code, n), e'.g)
    case While(c, b) =>
      var b' := SCode(b, n + 1, n, g.(next := n + 2));
      Gen(WhileCode(TestCode(c, Eq, n + 1), b'.code, n), b'.g)
    case DoWhile(b, c) =>
      var b' := SCode(b, n + 1, n, g.(next := n + 2));
      Gen(DoCode(b'.code, TestCode(c, Ne, n), n), b'.g)
    case For(init, cond, step, b) =>
      var b' := SCode(b, n + 1, n + 2, g.(next := n + 3));
      Gen(ForCode(OptCode(init), OptTest(cond, n + 1), b'.code, OptCode(step), n), b'.g)
    case Block(ss) => ListCode(ss, brk, cont, g)
    case Switch(c, items) =>
      var k := LabelCount(items);
      var body := ItemCode(items, n, n + k + 1, cont, g.(next := n + k + 2));
      Gen(SwitchCode(ECode(c), body.code, Cat(Dispatch(items, n, body.g.next), DefaultJump(items, n)), n + k),
          body.g.(next := body.g.next + RangeCount(items)))
    case Break => Gen(if brk >= 0 then JmpL(brk) else Nil, g)
    case Continue => Gen(if cont >= 0 then JmpL(cont) else Nil, g)
    case Goto(l) => Gen(JmpL(GotoId(g, l).0), GotoId(g, l).1)
    case Label(l) => Gen(Lab(GotoId(g, l).0), GotoId(g, l).1)
    case Return(r) => Gen(Cat(OptCode(r), EPILOGUE), g)
  }

  function ListCode(ss: Stmts, brk: int, cont: int, g: G): Gen
  {
    match ss
    case SNil => Gen(Nil, g)
    case SCons(s, rest) =>
      var s' := SCode(s, brk, cont, g);
      var r' := ListCode(rest, brk, cont, s'.g);
      Gen(Cat(s'.code, r'.code), r'.g)
  }

  /** The statements of a switch body; case and default labels are numbered from l. */
  function ItemCode(items: Items, l: int, brk: int, cont: int, g: G): Gen
  {
    match items
    case INil => Gen(Nil, g)
    case ICase(_, _, rest) =>
      var r' := ItemCode(rest, l + 1, brk, cont, g);
      Gen(Cat(Lab(l), r'.code), r'.g)
    case IDefault(rest) =>
      var r' := ItemCode(rest, l + 1, brk, cont, g);
      Gen(Cat(Lab(l), r'.code), r'.g)
    case IStmt(s, rest) =>
      var s' := SCode(s, brk, cont, g);
      var r' := ItemCode(rest, l, brk, cont, s'.g);
      Gen(Cat(s'.code, r'.code), r'.g)
  }

  /** The number of labels the dispatch code takes: one for each true range. */
  function RangeCount(items: Items): nat
  {
    match items
    case INil => 0
    case ICase(lo, hi, rest) => (if lo != hi then 1 else 0) + RangeCount(rest)
    case IDefault(rest) => RangeCount(rest)
    case IStmt(_, rest) => RangeCount(rest)
  }

  /** Compares eax with the cases in order; skip labels are numbered from k. */
  function Dispatch(items: Items, l: int, k: int): Code
  {
    match items
    case INil => Nil
    case ICase(lo, hi, rest) =>
      if lo != hi then Cat(RangeTest(lo, hi, l, k), Dispatch(rest, l + 1, k + 1))
      else Cat(CaseTest(lo, l), Dispatch(rest, l + 1, k))
    case IDefault(rest) => Dispatch(rest, l + 1, k)
    case IStmt(_, rest) => Dispatch(rest, l, k)
  }

  function CaseTest(v: int, l: int): Code { Cat(I(CmpEaxImm(v)), JccL(Eq, l)) }

  function RangeTest(lo: int, hi: int, l: int, skip: int): Code
  {
    Cat(I(CmpEaxImm(lo)), Cat(JccL(Lt, skip), Cat(I(CmpEaxImm(hi)), Cat(JccL(Gt, skip), Cat(JmpL(l), Lab(skip))))))
  }

  /** The label of the last default, or -1. */
  function DefaultLabel(items: Items, l: int): int
  {
    match items
    case INil => -1
    case ICase(_, _, rest) => DefaultLabel(rest, l + 1)
    case IDefault(rest) =>
      var later := DefaultLabel(rest, l + 1);
      if later >= 0 then later else l
    case IStmt(_, rest) => DefaultLabel(rest, l)
  }

  function DefaultJump(items: Items, l: int): Code
  {
    if DefaultLabel(items, l) >= 0 then JmpL(DefaultLabel(items, l)) else Nil
  }

  /** The body of a function, with its own goto names. */
  function BodyCode(f: Func, next: int): Gen { SCode(f.body, -1, -1, G(next, map[])) }

  predicate FaithfulOpt(e: OptExpr)
  {
    match e case NoExpr => true case SomeExpr(e1) => Faithful(e1)
  }

  /** Statements in the fragment: their expressions are faithful, case values are
      ints, and break and continue have something to leave (inB, inC). */
  predicate FaithfulStmt(s: Stmt, inB: bool, inC: bool)
  {
    match s
    case ExprStmt(e) => Faithful(e)
    case CallStmt(_, args) => Count(args) <= 14 && FaithfulArgs(args)
    case If(c, t) => FaithfulTest(c) && FaithfulStmt(t, inB, inC)
    case IfElse(c, t, e) => FaithfulTest(c) && FaithfulStmt(t, inB, inC) && FaithfulStmt(e, inB, inC)
    case While(c, b) => FaithfulTest(c) && FaithfulStmt(b, true, true)
    case DoWhile(b, c) => FaithfulTest(c) && FaithfulStmt(b, true, true)
    case For(init, cond, step, b) =>
      FaithfulOpt(init) && FaithfulOpt(step) && FaithfulStmt(b, true, true)
      && (cond.SomeExpr? ==> FaithfulTest(cond.e))
    case Block(ss) => FaithfulList(ss, inB, inC)
    case Switch(c, items) => Faithful(c) && FaithfulItems(items, inC)
    case Break => inB
    case Continue => inC
    case Return(r) => FaithfulOpt(r)
    case _ => true
  }

  predicate FaithfulList(ss: Stmts, inB: bool, inC: bool)
  {
    match ss case SNil => true case SCons(s, rest) => FaithfulStmt(s, inB, inC) && FaithfulList(rest, inB, inC)
  }

  predicate FaithfulItems(items: Items, inC: bool)
  {
    match items
    case INil => true
    case ICase(lo, hi, rest) => IsInt(lo) && IsInt(hi) && FaithfulItems(rest, inC)
    case IDefault(rest) => FaithfulItems(rest, inC)
    case IStmt(s, rest) => FaithfulStmt(s, true, inC) && FaithfulItems(rest, inC)
  }

  // ----- Functions -----

  function Align16(n: nat): nat { (n + 15) / 16 * 16 }

  function FrameCode(slots: nat): Code
  {
    if slots > 0 then I(SubRsp(Align16(4 * slots))) else Nil
  }

  /** Parameter i arrives in register i, or on the caller's stack from the seventh on. */
  function SpillCode(i: nat, n: nat): Code
    decreases n - i
  {
    if i >= n then Nil
    else if i < 6 then Cat(I(StoreArg(i, Off(i))), SpillCode(i + 1, n))
    else Cat(I(LoadEax(0x10 + (i - 6) * 8)), Cat(I(StoreEax(Off(i))), SpillCode(i + 1, n)))
  }

  /** Whether the last byte emitted is 0xC3: the test that decides whether a
      function gets an implicit return. */
  predicate EndsInC3(c: Code)
  {
    match c
    case I(i) => Encode(i)[|Encode(i)| - 1] == 0xC3
    case Cat(a, b) => if Size(b) == 0 then EndsInC3(a) else EndsInC3(b)
    case _ => false
  }

  function PrologueCode(f: Func): Code
  {
    Cat(I(PushRbp), Cat(I(MovRbpRsp), Cat(FrameCode(f.slots), SpillCode(0, f.nparams))))
  }

  function FuncCode(f: Func, next: int): Code
  {
    var main := Cat(PrologueCode(f), BodyCode(f, next).code);
    Cat(main, if EndsInC3(main) then Nil else EPILOGUE)
  }

  /** A statement that never runs off its end, seen from its shape. */
  predicate NeverEnds(s: Stmt)
  {
    match s case Return(_) => true case Goto(_) => true case Block(ss) => NeverEndsList(ss) case _ => false
  }

  predicate NeverEndsList(ss: Stmts)
  {
    match ss
    case SNil => false
    case SCons(s, rest) => NeverEndsList(rest) || (rest.SNil? && NeverEnds(s))
  }

  // ----- Where code sits in a program -----

  /** prog is decoded code, L the offsets of labels, and entry the functions'. */
  datatype Env = Env(prog: Prog, L: map<int, int>, entry: seq<int>)

  datatype Placement = InPlace | Misplaced

  function Check(b: bool): Placement { if b then InPlace else Misplaced }

  /** Whether code c is at offset pos: its instructions, its jumps with the
      displacements that reach their labels, and its labels where L has them.
      (A datatype rather than a predicate, so that it stays one fact in proofs.) */
  ghost function Place(v: Env, pos: int, c: Code): Placement
    decreases c
  {
    match c
    case Nil => InPlace
    case I(i) => Check(pos in v.prog && v.prog[pos] == i)
    case JmpL(l) => Check(l in v.L && pos in v.prog && v.prog[pos] == Jmp(v.L[l] - (pos + 5)))
    case JccL(cc, l) => Check(l in v.L && pos in v.prog && v.prog[pos] == Jcc(cc, v.L[l] - (pos + 6)))
    case Lab(l) => Check(l in v.L && v.L[l] == pos)
    case CallF(fn) => Check(fn < |v.entry| && pos in v.prog && v.prog[pos] == CallRel(v.entry[fn] - (pos + 5)))
    case Cat(a, b) => Check(Place(v, pos, a).InPlace? && Place(v, pos + Size(a), b).InPlace?)
  }
}
