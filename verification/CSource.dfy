/** The int fragment of the source language: syntax trees as the parser hands
    them over, with every variable resolved to a slot number, and what they mean.

    The meaning is a fuel-indexed interpreter.  One unit of fuel pays for one
    loop iteration, one goto or one call, so Timeout means "still running", and
    the theorems quantify over every fuel. */
module CSource {
  import opened Words
  import opened X86

  datatype BinOp = Add | Sub | Mul | Div | Mod | And | Or | Xor | ShiftL | ShiftR | Cmp(cc: Cc)

  datatype Expr =
    | Const(c: int)
    | Var(x: nat)
    | Bin(op: BinOp, l: Expr, r: Expr)
    | LAnd(l: Expr, r: Expr)
    | LOr(l: Expr, r: Expr)
    | Comma(l: Expr, r: Expr)
    | Cond(c0: Expr, t: Expr, f: Expr)
    | Neg(e: Expr)
    | BitNot(e: Expr)
    | Not(e: Expr)
    | Assign(x: nat, e: Expr)
    | IncDec(x: nat, up: bool, postfix: bool)
    | Call(fn: nat, args: Args)

  datatype Args = ANil | ACons(hd: Expr, tl: Args)

  datatype OptExpr = NoExpr | SomeExpr(e: Expr)

  datatype Stmt =
    | ExprStmt(e: Expr)
    | CallStmt(fn: nat, args: Args)   // a call whose value, if any, is dropped
    | Null
    | If(c: Expr, thn: Stmt)
    | IfElse(c: Expr, thn: Stmt, els: Stmt)
    | While(c: Expr, body: Stmt)
    | DoWhile(body: Stmt, c: Expr)
    | For(init: OptExpr, cond: OptExpr, step: OptExpr, body: Stmt)
    | Block(ss: Stmts)
    | Switch(c: Expr, items: Items)
    | Break
    | Continue
    | Goto(l: string)
    | Label(l: string)
    | Return(r: OptExpr)

  datatype Stmts = SNil | SCons(s: Stmt, rest: Stmts)

  /** A switch body: case and default are labels in a flat statement list. */
  datatype Items =
    | INil
    | ICase(lo: int, hi: int, rest: Items)
    | IDefault(rest: Items)
    | IStmt(s: Stmt, rest: Items)

  /** slots counts the parameters and the locals of the function; sealed says whether the
      compiler puts a return behind the body. */
  datatype Func = Func(nparams: nat, slots: nat, body: Stmt, sealed: bool)

  type Program = seq<Func>

  // ----- Stores and results -----

  datatype Slot = Unset | Set(v: int)

  type Store = seq<Slot>

  /** Why a run gives no value.  Trap is a division by zero.  Undef is C's
      undefined behaviour.  Departs marks the three places where the compiler
      leaves C (see Exec and RunFunction), where C would go on. */
  datatype Halt = Trap | Timeout | Undef | Departs

  datatype Res = Value(v: int, st: Store) | Halted(h: Halt)

  datatype ArgRes = Values(vs: seq<int>, st: Store) | ArgsHalted(h: Halt)

  datatype CallRes = Called(v: Slot, st: Store) | CallHalted(h: Halt)

  datatype Out =
    | Normal(st: Store)
    | Broke(st: Store)
    | Continued(st: Store)
    | Jumped(l: string, st: Store)
    | Returned(v: Slot)
    | Stopped(h: Halt)

  // ----- Operators -----

  /** The int that x wraps to. */
  function Wrap(x: int): (v: int)
    ensures IsInt(v) && U32(v) == U32(x)
  {
    U32OfS32(x);
    S32(x)
  }

  lemma {:induction false} WrapInt(x: int)
    requires IsInt(x)
    ensures Wrap(x) == x
  {
    U32OfInt(x);
  }

  function BoolInt(b: bool): int { if b then 1 else 0 }

  function Compare(cc: Cc, a: int, b: int): bool
  {
    match cc
    case Eq => a == b
    case Ne => a != b
    case Lt => a < b
    case Ge => a >= b
    case Le => a <= b
    case Gt => a > b
  }

  datatype OpRes = Result(v: int) | OpHalt(h: Halt)

  /** A C operator on ints.  Overflow wraps, as the target does; shift counts
      outside 0..31 and INT_MIN / -1 are undefined. */
  function Apply(op: BinOp, a: int, b: int): (r: OpRes)
    ensures r.Result? ==> IsInt(r.v)
  {
    match op
    case Add => Result(Wrap(a + b))
    case Sub => Result(Wrap(a - b))
    case Mul => Result(Wrap(a * b))
    case Div =>
      if b == 0 then OpHalt(Trap) else if b == -1 && a == INT_MIN then OpHalt(Undef) else Result(Wrap(TruncDiv(a, b)))
    case Mod =>
      if b == 0 then OpHalt(Trap) else if b == -1 && a == INT_MIN then OpHalt(Undef) else Result(Wrap(TruncMod(a, b)))
    case And => Result(Wrap(And32(a, b)))
    case Or => Result(Wrap(Or32(a, b)))
    case Xor => Result(Wrap(Xor32(a, b)))
    case ShiftL => if 0 <= b < 32 then Result(Wrap(a * Pow2(b))) else OpHalt(Undef)
    case ShiftR => if 0 <= b < 32 then Result(Wrap(a / Pow2(b))) else OpHalt(Undef)
    case Cmp(cc) => Result(BoolInt(Compare(cc, a, b)))
  }

  function Count(args: Args): nat
  {
    match args case ANil => 0 case ACons(_, tl) => 1 + Count(tl)
  }

  // ----- Expressions -----

  /** Arguments 7 and up are evaluated first, from the last one back; then the
      first six in order.  C leaves the order open; this is the compiler's. */
  function Eval(p: Program, fuel: nat, st: Store, e: Expr): (r: Res)
    ensures r.Value? ==> IsInt(r.v) && |r.st| == |st|
    decreases fuel, 1, e, 0
  {
    match e
    case Const(c) => Value(Wrap(c), st)
    case Var(x) => if x < |st| && st[x].Set? then Value(Wrap(st[x].v), st) else Halted(Undef)
    case Bin(op, l, r) => (
      match Eval(p, fuel, st, l)
      case Halted(h) => Halted(h)
      case Value(a, st1) => (
        match Eval(p, fuel, st1, r)
        case Halted(h) => Halted(h)
        case Value(b, st2) => (
          match Apply(op, a, b)
          case OpHalt(h) => Halted(h)
          case Result(v) => Value(v, st2))))
    case LAnd(l, r) => (
      match Eval(p, fuel, st, l)
      case Halted(h) => Halted(h)
      case Value(a, st1) =>
        if a == 0 then Value(0, st1)
        else match Eval(p, fuel, st1, r)
          case Halted(h) => Halted(h)
          case Value(b, st2) => Value(BoolInt(b != 0), st2))
    case LOr(l, r) => (
      match Eval(p, fuel, st, l)
      case Halted(h) => Halted(h)
      case Value(a, st1) =>
        if a != 0 then Value(1, st1)
        else match Eval(p, fuel, st1, r)
          case Halted(h) => Halted(h)
          case Value(b, st2) => Value(BoolInt(b != 0), st2))
    case Comma(l, r) => (
      match Eval(p, fuel, st, l)
      case Halted(h) => Halted(h)
      case Value(_, st1) => Eval(p, fuel, st1, r))
    case Cond(c, t, f) => (
      match Eval(p, fuel, st, c)
      case Halted(h) => Halted(h)
      case Value(a, st1) => if a != 0 then Eval(p, fuel, st1, t) else Eval(p, fuel, st1, f))
    case Neg(e1) => (
      match Eval(p, fuel, st, e1)
      case Halted(h) => Halted(h)
      case Value(a, st1) => Value(Wrap(-a), st1))
    case BitNot(e1) => (
      match Eval(p, fuel, st, e1)
      case Halted(h) => Halted(h)
      case Value(a, st1) => Value(Wrap(-1 - a), st1))
    case Not(e1) => (
      match Eval(p, fuel, st, e1)
      case Halted(h) => Halted(h)
      case Value(a, st1) => Value(BoolInt(a == 0), st1))
    case Assign(x, e1) => (
      match Eval(p, fuel, st, e1)
      case Halted(h) => Halted(h)
      case Value(a, st1) => if x < |st1| then Value(a, st1[x := Set(a)]) else Halted(Undef))
    case IncDec(x, up, postfix) =>
      if x < |st| && st[x].Set? then
        var old_ := Wrap(st[x].v);
        var new_ := Wrap(if up then old_ + 1 else old_ - 1);
        Value(if postfix then old_ else new_, st[x := Set(new_)])
      else Halted(Undef)
    case Call(fn, args) => (
      match CallFn(p, fuel, st, fn, args)
      case CallHalted(h) => Halted(h)
      case Called(Unset, _) => Halted(Undef)
      case Called(Set(v), st1) => Value(v, st1))
  }

  /** Calls function fn.  Falling off its end gives no value. */
  function CallFn(p: Program, fuel: nat, st: Store, fn: nat, args: Args): (r: CallRes)
    ensures r.Called? ==> |r.st| == |st| && (r.v.Set? ==> IsInt(r.v.v))
    decreases fuel, 1, args, 1
  {
    match EvalStack(p, fuel, st, args, 0)
    case ArgsHalted(h) => CallHalted(h)
    case Values(late, st1) => (
      match EvalRegs(p, fuel, st1, args, 0)
      case ArgsHalted(h) => CallHalted(h)
      case Values(early, st2) =>
        Invoke(p, fuel, st2, fn, early + late))
  }

  /** Runs function fn on the values of its arguments. */
  function Invoke(p: Program, fuel: nat, st: Store, fn: nat, vals: seq<int>): (r: CallRes)
    ensures r.Called? ==> r.st == st && (r.v.Set? ==> IsInt(r.v.v))
    decreases fuel, 0
  {
    if fn >= |p| || |vals| != p[fn].nparams || p[fn].nparams > p[fn].slots then CallHalted(Undef)
    else if fuel == 0 then CallHalted(Timeout)
    else match RunFunction(p, fuel - 1, fn, EntryStore(p[fn], vals))
      case Returned(v) => Called(v, st)
      case Normal(_) => Called(Unset, st)
      case Stopped(h) => CallHalted(h)
      case _ => CallHalted(Undef)
  }

  /** The values of the arguments from index 6 on, computed from the last one back. */
  function EvalStack(p: Program, fuel: nat, st: Store, args: Args, k: nat): (r: ArgRes)
    ensures r.Values? ==> |r.st| == |st|
    decreases fuel, 1, args, 0
  {
    match args
    case ANil => Values([], st)
    case ACons(a, tl) => (
      match EvalStack(p, fuel, st, tl, k + 1)
      case ArgsHalted(h) => ArgsHalted(h)
      case Values(vs, st1) =>
        if k < 6 then Values(vs, st1)
        else match Eval(p, fuel, st1, a)
          case Halted(h) => ArgsHalted(h)
          case Value(v, st2) => Values([v] + vs, st2))
  }

  /** The values of the arguments with index below 6, in order. */
  function EvalRegs(p: Program, fuel: nat, st: Store, args: Args, k: nat): (r: ArgRes)
    ensures r.Values? ==> |r.st| == |st|
    decreases fuel, 1, args, 0
  {
    match args
    case ANil => Values([], st)
    case ACons(a, tl) =>
      if k >= 6 then Values([], st)
      else match Eval(p, fuel, st, a)
        case Halted(h) => ArgsHalted(h)
        case Value(v, st1) => (
          match EvalRegs(p, fuel, st1, tl, k + 1)
          case ArgsHalted(h) => ArgsHalted(h)
          case Values(vs, st2) => Values([v] + vs, st2))
  }

  /** Parameters hold the arguments; the other slots are not initialised. */
  function EntryStore(f: Func, args: seq<int>): (st: Store)
    requires |args| <= f.slots
    ensures |st| == f.slots
  {
    seq(f.slots, i => if 0 <= i < |args| then Set(args[i]) else Unset)
  }

  // ----- Statements -----

  /** Outcomes keep the size of the store, and returned values are ints. */
  predicate Sane(o: Out, size: nat)
  {
    match o
    case Returned(v) => v.Set? ==> IsInt(v.v)
    case Stopped(_) => true
    case _ => |o.st| == size
  }

  /** Where to start: at the top, or at a label inside (after a goto). */
  datatype Entry = Top | AtLabel(l: string)

  predicate HasLabel(s: Stmt, l: string)
  {
    match s
    case Label(l') => l == l'
    case If(_, t) => HasLabel(t, l)
    case IfElse(_, t, e) => HasLabel(t, l) || HasLabel(e, l)
    case While(_, b) => HasLabel(b, l)
    case DoWhile(b, _) => HasLabel(b, l)
    case For(_, _, _, b) => HasLabel(b, l)
    case Block(ss) => HasLabelIn(ss, l)
    case Switch(_, items) => HasLabelItem(items, l)
    case _ => false
  }

  predicate HasLabelIn(ss: Stmts, l: string)
  {
    match ss case SNil => false case SCons(s, rest) => HasLabel(s, l) || HasLabelIn(rest, l)
  }

  predicate HasLabelItem(items: Items, l: string)
  {
    match items
    case INil => false
    case ICase(_, _, rest) => HasLabelItem(rest, l)
    case IDefault(rest) => HasLabelItem(rest, l)
    case IStmt(s, rest) => HasLabel(s, l) || HasLabelItem(rest, l)
  }

  /** All labels of a statement, wherever they stand in it. */
  function Labels(s: Stmt): set<string>
  {
    match s
    case Label(l) => {l}
    case If(_, t) => Labels(t)
    case IfElse(_, t, e) => Labels(t) + Labels(e)
    case While(_, b) => Labels(b)
    case DoWhile(b, _) => Labels(b)
    case For(_, _, _, b) => Labels(b)
    case Block(ss) => LabelsOf(ss)
    case Switch(_, items) => LabelsOfItems(items)
    case _ => {}
  }

  function LabelsOf(ss: Stmts): set<string>
  {
    match ss case SNil => {} case SCons(s, rest) => Labels(s) + LabelsOf(rest)
  }

  function LabelsOfItems(items: Items): set<string>
  {
    match items
    case INil => {}
    case ICase(_, _, rest) => LabelsOfItems(rest)
    case IDefault(rest) => LabelsOfItems(rest)
    case IStmt(s, rest) => Labels(s) + LabelsOfItems(rest)
  }

  /** A goto finds every label of the function, however deep it stands. */
  lemma {:induction false} LabelReached(s: Stmt, l: string)
    ensures HasLabel(s, l) <==> l in Labels(s)
    decreases s
  {
    match s {
      case If(_, t) => LabelReached(t, l);
      case IfElse(_, t, e) => LabelReached(t, l); LabelReached(e, l);
      case While(_, b) => LabelReached(b, l);
      case DoWhile(b, _) => LabelReached(b, l);
      case For(_, _, _, b) => LabelReached(b, l);
      case Block(ss) => LabelReachedIn(ss, l);
      case Switch(_, items) => LabelReachedItem(items, l);
      case _ =>
    }
  }

  lemma {:induction false} LabelReachedIn(ss: Stmts, l: string)
    ensures HasLabelIn(ss, l) <==> l in LabelsOf(ss)
    decreases ss
  {
    match ss {
      case SNil =>
      case SCons(s, rest) => LabelReached(s, l); LabelReachedIn(rest, l);
    }
  }

  lemma {:induction false} LabelReachedItem(items: Items, l: string)
    ensures HasLabelItem(items, l) <==> l in LabelsOfItems(items)
    decreases items
  {
    match items {
      case INil =>
      case ICase(_, _, rest) => LabelReachedItem(rest, l);
      case IDefault(rest) => LabelReachedItem(rest, l);
      case IStmt(s, rest) => LabelReached(s, l); LabelReachedItem(rest, l);
    }
  }

  function Exec(p: Program, fuel: nat, s: Stmt, from: Entry, st: Store): (o: Out)
    ensures Sane(o, |st|)
    decreases fuel, 2, s, 0
  {
    match s
    case ExprStmt(e) => (
      match Eval(p, fuel, st, e)
      case Halted(h) => Stopped(h)
      case Value(_, st1) => Normal(st1))
    case CallStmt(fn, args) => (
      match CallFn(p, fuel, st, fn, args)
      case CallHalted(h) => Stopped(h)
      case Called(_, st1) => Normal(st1))
    case Null => Normal(st)
    case If(c, t) =>
      if from.AtLabel? then Exec(p, fuel, t, from, st)
      else (
        match Eval(p, fuel, st, c)
        case Halted(h) => Stopped(h)
        case Value(v, st1) => if v != 0 then Exec(p, fuel, t, Top, st1) else Normal(st1))
    case IfElse(c, t, e) =>
      if from.AtLabel? then
        (if HasLabel(t, from.l) then Exec(p, fuel, t, from, st) else Exec(p, fuel, e, from, st))
      else (
        match Eval(p, fuel, st, c)
        case Halted(h) => Stopped(h)
        case Value(v, st1) => if v != 0 then Exec(p, fuel, t, Top, st1) else Exec(p, fuel, e, Top, st1))
    case While(c, b) => ExecLoop(p, fuel, SomeExpr(c), NoExpr, b, from, st)
    case DoWhile(b, c) => ExecDo(p, fuel, b, c, from, st)
    case For(init, cond, step, b) =>
      if from.AtLabel? then ExecLoop(p, fuel, cond, step, b, from, st)
      else (
        match EvalOpt(p, fuel, st, init)
        case Halted(h) => Stopped(h)
        case Value(_, st1) => ExecLoop(p, fuel, cond, step, b, Top, st1))
    case Block(ss) => ExecList(p, fuel, ss, from, st)
    case Switch(c, items) =>
      if from.AtLabel? then LeaveSwitch(ExecItems(p, fuel, items, ToLabel(from.l), st))
      else (
        match Eval(p, fuel, st, c)
        case Halted(h) => Stopped(h)
        case Value(v, st1) => (
          match Target(items, v)
          case NoItem => Normal(st1)
          case Item(k) => LeaveSwitch(ExecItems(p, fuel, items, Skip(k), st1))))
    case Break => Broke(st)
    case Continue => Continued(st)
    case Goto(l) => Jumped(l, st)
    case Label(_) => Normal(st)
    case Return(NoExpr) => Returned(Unset)
    case Return(SomeExpr(e)) => (
      match Eval(p, fuel, st, e)
      case Halted(h) => Stopped(h)
      case Value(v, _) => Returned(Set(v)))
  }

  /** A missing expression has the value 1 (an absent loop condition is true). */
  function EvalOpt(p: Program, fuel: nat, st: Store, e: OptExpr): (r: Res)
    ensures r.Value? ==> IsInt(r.v) && |r.st| == |st|
    decreases fuel, 1, e, 1
  {
    match e case NoExpr => Value(1, st) case SomeExpr(e1) => Eval(p, fuel, st, e1)
  }

  /** while and for: test, body, step. */
  function ExecLoop(p: Program, fuel: nat, cond: OptExpr, step: OptExpr, b: Stmt, from: Entry, st: Store): (o: Out)
    ensures Sane(o, |st|)
    decreases fuel, 2, b, 1
  {
    if from.AtLabel? then AfterBody(p, fuel, cond, step, b, Exec(p, fuel, b, from, st), |st|)
    else (
      match EvalOpt(p, fuel, st, cond)
      case Halted(h) => Stopped(h)
      case Value(v, st1) =>
        if v == 0 then Normal(st1) else AfterBody(p, fuel, cond, step, b, Exec(p, fuel, b, Top, st1), |st|))
  }

  /** What a loop does with the outcome of its body. */
  function AfterBody(p: Program, fuel: nat, cond: OptExpr, step: OptExpr, b: Stmt, o: Out, size: nat): (r: Out)
    requires Sane(o, size)
    ensures Sane(r, size)
    decreases fuel, 2, b, 0
  {
    match o
    case Broke(st1) => Normal(st1)
    case Jumped(_, _) => o
    case Returned(_) => o
    case Stopped(_) => o
    case _ => (
      match EvalOpt(p, fuel, o.st, step)
      case Halted(h) => Stopped(h)
      case Value(_, st2) =>
        if fuel == 0 then Stopped(Timeout) else ExecLoop(p, fuel - 1, cond, step, b, Top, st2))
  }

  /** do-while.  A continue in the body departs: C would test the condition. */
  function ExecDo(p: Program, fuel: nat, b: Stmt, c: Expr, from: Entry, st: Store): (o: Out)
    ensures Sane(o, |st|)
    decreases fuel, 2, b, 1
  {
    match Exec(p, fuel, b, from, st)
    case Normal(st1) => (
      match Eval(p, fuel, st1, c)
      case Halted(h) => Stopped(h)
      case Value(v, st2) =>
        if v == 0 then Normal(st2)
        else if fuel == 0 then Stopped(Timeout) else ExecDo(p, fuel - 1, b, c, Top, st2))
    case Broke(st1) => Normal(st1)
    case Continued(_) => Stopped(Departs)
    case o1 => o1
  }

  function ExecList(p: Program, fuel: nat, ss: Stmts, from: Entry, st: Store): (o: Out)
    ensures Sane(o, |st|)
    decreases fuel, 2, ss, 0
  {
    match ss
    case SNil => Normal(st)
    case SCons(s, rest) =>
      if from.AtLabel? && !HasLabel(s, from.l) then ExecList(p, fuel, rest, from, st)
      else (
        match Exec(p, fuel, s, from, st)
        case Normal(st1) => ExecList(p, fuel, rest, Top, st1)
        case o1 => o1)
  }

  datatype ItemEntry = Skip(k: nat) | ToLabel(l: string)

  function ExecItems(p: Program, fuel: nat, items: Items, from: ItemEntry, st: Store): (o: Out)
    ensures Sane(o, |st|)
    decreases fuel, 2, items, 0
  {
    match items
    case INil => Normal(st)
    case ICase(_, _, rest) => ExecItems(p, fuel, rest, Advance(from), st)
    case IDefault(rest) => ExecItems(p, fuel, rest, Advance(from), st)
    case IStmt(s, rest) =>
      if (from.Skip? && from.k > 0) || (from.ToLabel? && !HasLabel(s, from.l)) then
        ExecItems(p, fuel, rest, Advance(from), st)
      else (
        match Exec(p, fuel, s, if from.ToLabel? then AtLabel(from.l) else Top, st)
        case Normal(st1) => ExecItems(p, fuel, rest, Skip(0), st1)
        case o1 => o1)
  }

  function Advance(from: ItemEntry): ItemEntry
  {
    if from.Skip? && from.k > 0 then Skip(from.k - 1) else from
  }

  /** break ends the switch.  A body that runs off its end departs: C would
      continue after the switch. */
  function LeaveSwitch(o: Out): Out
  {
    match o
    case Broke(st) => Normal(st)
    case Normal(_) => Stopped(Departs)
    case _ => o
  }

  datatype Target_ = NoItem | Item(k: nat)

  /** The index of the first case that matches v. */
  function FirstCase(items: Items, v: int): Target_
  {
    match items
    case INil => NoItem
    case ICase(lo, hi, rest) =>
      if lo <= v <= hi then Item(0) else ShiftTarget(FirstCase(rest, v))
    case IDefault(rest) => ShiftTarget(FirstCase(rest, v))
    case IStmt(_, rest) => ShiftTarget(FirstCase(rest, v))
  }

  function LastDefault(items: Items): Target_
  {
    match items
    case INil => NoItem
    case ICase(_, _, rest) => ShiftTarget(LastDefault(rest))
    case IDefault(rest) =>
      var later := LastDefault(rest);
      if later.Item? then ShiftTarget(later) else Item(0)
    case IStmt(_, rest) => ShiftTarget(LastDefault(rest))
  }

  function ShiftTarget(t: Target_): Target_ { match t case NoItem => NoItem case Item(k) => Item(k + 1) }

  /** Where a switch on v enters its body: the first matching case, else the default. */
  function Target(items: Items, v: int): Target_
  {
    var c := FirstCase(items, v);
    if c.Item? then c else LastDefault(items)
  }

  /** A function body, restarted at a label after each goto. */
  function RunBody(p: Program, fuel: nat, fn: nat, from: Entry, st: Store): (o: Out)
    requires fn < |p|
    ensures Sane(o, |st|)
    decreases fuel, 3
  {
    match Exec(p, fuel, p[fn].body, from, st)
    case Jumped(l, st1) =>
      if !HasLabel(p[fn].body, l) then Stopped(Undef)
      else if fuel == 0 then Stopped(Timeout)
      else RunBody(p, fuel - 1, fn, AtLabel(l), st1)
    case o1 => o1
  }

  /** A whole function: running off the end is a return only if there is one. */
  function RunFunction(p: Program, fuel: nat, fn: nat, st: Store): (o: Out)
    requires fn < |p|
    ensures Sane(o, |st|)
    decreases fuel, 4
  {
    var o := RunBody(p, fuel, fn, Top, st);
    if o.Normal? && !p[fn].sealed then Stopped(Departs) else o
  }
}
