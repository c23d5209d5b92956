/** Statement code: label numbers are defined once, and every jump finds its label. */
module Uniqueness {
  import opened Words
  import opened X86
  import opened CSource
  import opened CodeGen
  import opened Blocks
  import opened Statements
  import opened Emission
  import opened Labels

  // ----- Source side -----

  /** How often s defines the label name. */
  function NameCount(s: Stmt, name: string): nat
  {
    match s
    case Label(l) => if l == name then 1 else 0
    case If(_, t) => NameCount(t, name)
    case IfElse(_, t, e) => NameCount(t, name) + NameCount(e, name)
    case While(_, b) => NameCount(b, name)
    case DoWhile(b, _) => NameCount(b, name)
    case For(_, _, _, b) => NameCount(b, name)
    case Block(ss) => NameCountIn(ss, name)
    case Switch(_, items) => NameCountItem(items, name)
    case _ => 0
  }

  function NameCountIn(ss: Stmts, name: string): nat
  {
    match ss case SNil => 0 case SCons(s, rest) => NameCount(s, name) + NameCountIn(rest, name)
  }

  function NameCountItem(items: Items, name: string): nat
  {
    match items
    case INil => 0
    case ICase(_, _, rest) => NameCountItem(rest, name)
    case IDefault(rest) => NameCountItem(rest, name)
    case IStmt(s, rest) => NameCount(s, name) + NameCountItem(rest, name)
  }

  predicate JumpsTo(s: Stmt, name: string)
  {
    match s
    case Goto(l) => l == name
    case If(_, t) => JumpsTo(t, name)
    case IfElse(_, t, e) => JumpsTo(t, name) || JumpsTo(e, name)
    case While(_, b) => JumpsTo(b, name)
    case DoWhile(b, _) => JumpsTo(b, name)
    case For(_, _, _, b) => JumpsTo(b, name)
    case Block(ss) => JumpsToIn(ss, name)
    case Switch(_, items) => JumpsToItem(items, name)
    case _ => false
  }

  predicate JumpsToIn(ss: Stmts, name: string)
  {
    match ss case SNil => false case SCons(s, rest) => JumpsTo(s, name) || JumpsToIn(rest, name)
  }

  predicate JumpsToItem(items: Items, name: string)
  {
    match items
    case INil => false
    case ICase(_, _, rest) => JumpsToItem(rest, name)
    case IDefault(rest) => JumpsToItem(rest, name)
    case IStmt(s, rest) => JumpsTo(s, name) || JumpsToItem(rest, name)
  }

  predicate ScopedOpt(e: OptExpr, slots: nat, n: nat)
  {
    match e case NoExpr => true case SomeExpr(e1) => Scoped(e1, slots, n)
  }

  /** Every variable is a slot of the function, and every call names a function. */
  predicate ScopedStmt(s: Stmt, slots: nat, n: nat)
  {
    match s
    case ExprStmt(e) => Scoped(e, slots, n)
    case CallStmt(fn, args) => fn < n && ScopedArgs(args, slots, n)
    case If(c, t) => Scoped(c, slots, n) && ScopedStmt(t, slots, n)
    case IfElse(c, t, e) => Scoped(c, slots, n) && ScopedStmt(t, slots, n) && ScopedStmt(e, slots, n)
    case While(c, b) => Scoped(c, slots, n) && ScopedStmt(b, slots, n)
    case DoWhile(b, c) => Scoped(c, slots, n) && ScopedStmt(b, slots, n)
    case For(init, cond, step, b) =>
      ScopedOpt(init, slots, n) && ScopedOpt(cond, slots, n) && ScopedOpt(step, slots, n) && ScopedStmt(b, slots, n)
    case Block(ss) => ScopedList(ss, slots, n)
    case Switch(c, items) => Scoped(c, slots, n) && ScopedItems(items, slots, n)
    case Return(r) => ScopedOpt(r, slots, n)
    case _ => true
  }

  predicate ScopedList(ss: Stmts, slots: nat, n: nat)
  {
    match ss case SNil => true case SCons(s, rest) => ScopedStmt(s, slots, n) && ScopedList(rest, slots, n)
  }

  predicate ScopedItems(items: Items, slots: nat, n: nat)
  {
    match items
    case INil => true
    case ICase(_, _, rest) => ScopedItems(rest, slots, n)
    case IDefault(rest) => ScopedItems(rest, slots, n)
    case IStmt(s, rest) => ScopedStmt(s, slots, n) && ScopedItems(rest, slots, n)
  }

  // ----- What is shown of a piece of code and one label number -----

  /** The goto name that label l belongs to, if any. */
  datatype Owner = Free | Owned(name: string)

  ghost predicate Owns(g: G, l: int, who: Owner)
  {
    match who
    case Free => forall k {:trigger g.gotos[k]} :: k in g.gotos ==> g.gotos[k] != l
    case Owned(name) => name in g.gotos && g.gotos[name] == l
  }

  /** Goto names have different numbers below the counter. */
  ghost predicate Sound(g: G)
  {
    && g.next >= 0
    && (forall k {:trigger g.gotos[k]} :: k in g.gotos ==> 0 <= g.gotos[k] < g.next)
    && (forall j, k {:trigger g.gotos[j], g.gotos[k]} :: j in g.gotos && k in g.gotos && g.gotos[j] == g.gotos[k] ==> j == k)
  }

  /** c is loadable; it defines l as often as names says if l is a goto label, and
      otherwise at most once, only if l is among its own numbers; and it jumps to l
      only if ok. */
  predicate Facts(c: Code, n: nat, l: int, who: Owner, names: nat, mine: bool, ok: bool)
  {
    && Loadable(c, n)
    && (who.Owned? ==> DefCount(c, l) == names)
    && (who.Free? ==> DefCount(c, l) <= if mine then 1 else 0)
    && (Uses(c, l) ==> ok)
  }

  /** A jump to l is fine if l is an enclosing target, is defined in c, or is a goto. */
  predicate Reachable(c: Code, l: int, who: Owner, jumps: bool, brk: int, cont: int)
  {
    (l >= 0 && (l == brk || l == cont)) || DefCount(c, l) >= 1 || (who.Owned? && jumps)
  }

  function Name(who: Owner): string { if who.Owned? then who.name else "" }

  lemma {:induction false} FactsCat(a: Code, b: Code, n: nat, l: int, who: Owner, na: nat, nb: nat, ma: bool, mb: bool,
                                    oka: bool, okb: bool)
    requires Facts(a, n, l, who, na, ma, oka) && Facts(b, n, l, who, nb, mb, okb) && !(ma && mb)
    ensures Facts(Cat(a, b), n, l, who, na + nb, ma || mb, oka || okb)
    ensures DefCount(Cat(a, b), l) == DefCount(a, l) + DefCount(b, l)
  {
  }

  lemma {:induction false} FactsPlain(c: Code, n: nat, l: int, who: Owner)
    requires Plain(c, n)
    ensures Facts(c, n, l, who, 0, false, false) && DefCount(c, l) == 0
  {
    PlainFacts(c, n, l);
  }

  /** A label of the construct itself: not a goto label. */
  lemma {:induction false} FactsLab(k: int, n: nat, l: int, who: Owner)
    requires who.Owned? ==> l != k
    ensures Facts(Lab(k), n, l, who, 0, l == k, false) && DefCount(Lab(k), l) == if l == k then 1 else 0
  {
  }

  lemma {:induction false} FactsJmp(k: int, cc: Cc, n: nat, l: int, who: Owner)
    ensures Facts(JmpL(k), n, l, who, 0, false, l == k) && DefCount(JmpL(k), l) == 0
    ensures Facts(JccL(cc, k), n, l, who, 0, false, l == k) && DefCount(JccL(cc, k), l) == 0
  {
  }

  lemma {:induction false} FactsNil(n: nat, l: int, who: Owner)
    ensures Facts(Nil, n, l, who, 0, false, false) && DefCount(Nil, l) == 0
  {
  }

  lemma {:induction false} FactsMore(c: Code, n: nat, l: int, who: Owner, names: nat, mine: bool, ok: bool, mine': bool,
                                     ok': bool)
    requires Facts(c, n, l, who, names, mine, ok) && (mine ==> mine') && (Uses(c, l) && ok ==> ok')
    ensures Facts(c, n, l, who, names, mine', ok')
  {
  }

  /** Numbers taken between g and g1 are not goto numbers. */
  lemma {:induction false} OwnNumbers(g: G, n: int, gF: G, l: int, who: Owner)
    requires Sound(g) && g.next <= n && Grows(g.(next := n), gF) && Owns(gF, l, who)
    ensures who.Owned? ==> !(g.next <= l < n)
  {
    if who.Owned? {
      var k := who.name;
      assert gF.gotos[k] == l;
      if k in g.gotos { assert g.gotos[k] < g.next; assert g.(next := n).gotos[k] == gF.gotos[k]; }
    }
  }

  lemma {:induction false} SoundSkip(g: G, n: int)
    requires Sound(g) && g.next <= n
    ensures Sound(g.(next := n))
  {
  }

  lemma {:induction false} FactsTest(c: Expr, cc: Cc, k: int, slots: nat, n: nat, l: int, who: Owner)
    requires Faithful(c) && Scoped(c, slots, n) && slots <= SLOT_LIMIT && Size(TestCode(c, cc, k)) <= CODE_LIMIT
    ensures Facts(TestCode(c, cc, k), n, l, who, 0, false, l == k) && DefCount(TestCode(c, cc, k), l) == 0
  {
    hide Plain, Size, Loadable, DefCount, Uses, Facts, Faithful, Scoped;
    var t := I(TestRax(Wide(c)));
    var j := JccL(cc, k);
    PlainCat(ECode(c), Cat(t, j), n);
    PlainExpr(c, slots, n); PlainI(TestRax(Wide(c)), n);
    FactsPlain(ECode(c), n, l, who); FactsPlain(t, n, l, who); FactsJmp(k, cc, n, l, who);
    FactsCat(t, j, n, l, who, 0, 0, false, false, false, l == k);
    FactsCat(ECode(c), Cat(t, j), n, l, who, 0, 0, false, false, false, l == k);
  }

  lemma {:induction false} FactsOpt(e: OptExpr, slots: nat, n: nat, l: int, who: Owner)
    requires FaithfulOpt(e) && ScopedOpt(e, slots, n) && slots <= SLOT_LIMIT && Size(OptCode(e)) <= CODE_LIMIT
    ensures Facts(OptCode(e), n, l, who, 0, false, false) && DefCount(OptCode(e), l) == 0
  {
    hide Plain, Size, Loadable, DefCount, Uses, Facts, Faithful, Scoped;
    FactsNil(n, l, who);
    if e.SomeExpr? {
      PlainExpr(e.e, slots, n);
      FactsPlain(ECode(e.e), n, l, who);
    }
  }

  lemma {:induction false} FactsOptTest(e: OptExpr, k: int, slots: nat, n: nat, l: int, who: Owner)
    requires FaithfulOpt(e) && ScopedOpt(e, slots, n) && slots <= SLOT_LIMIT && Size(OptTest(e, k)) <= CODE_LIMIT
    ensures Facts(OptTest(e, k), n, l, who, 0, false, l == k) && DefCount(OptTest(e, k), l) == 0
  {
    hide Plain, Size, Loadable, DefCount, Uses, Facts, Faithful, Scoped, TestCode;
    FactsNil(n, l, who);
    if e.SomeExpr? {
      FactsTest(e.e, Eq, k, slots, n, l, who);
    } else {
      FactsMore(Nil, n, l, who, 0, false, false, false, l == k);
    }
  }

  lemma {:induction false} FactsEpilogue(n: nat, l: int, who: Owner)
    ensures Facts(EPILOGUE, n, l, who, 0, false, false) && DefCount(EPILOGUE, l) == 0
  {
    hide Plain, Facts, Size;
    PlainI(MovRspRbp, n); PlainI(PopRbp, n); PlainI(Ret, n);
    PlainCat(I(PopRbp), I(Ret), n);
    PlainCat(I(MovRspRbp), Cat(I(PopRbp), I(Ret)), n);
    FactsPlain(EPILOGUE, n, l, who);
  }

  /** Generation keeps goto numbers distinct. */
  lemma {:induction false} SCodeSound(s: Stmt, brk: int, cont: int, g: G)
    requires Sound(g)
    ensures Sound(SCode(s, brk, cont, g).g)
    decreases s
  {
    hide Sound, Grows, Size, ECode, CallCode, Dispatch, GotoId;
    var n := g.next;
    match s {
      case If(_, t) => SoundSkip(g, n + 2); SCodeSound(t, brk, cont, g.(next := n + 2));
      case IfElse(_, t, e) =>
        SoundSkip(g, n + 2);
        SCodeSound(t, brk, cont, g.(next := n + 2));
        SCodeSound(e, brk, cont, SCode(t, brk, cont, g.(next := n + 2)).g);
      case While(_, b) => SoundSkip(g, n + 2); SCodeSound(b, n + 1, n, g.(next := n + 2));
      case DoWhile(b, _) => SoundSkip(g, n + 2); SCodeSound(b, n + 1, n, g.(next := n + 2));
      case For(_, _, _, b) => SoundSkip(g, n + 3); SCodeSound(b, n + 1, n + 2, g.(next := n + 3));
      case Block(ss) => ListSound(ss, brk, cont, g);
      case Switch(_, items) =>
        var k := LabelCount(items);
        var g1 := g.(next := n + k + 2);
        SoundSkip(g, n + k + 2);
        ItemsSound(items, n, n + k + 1, cont, g1);
        var g2 := ItemCode(items, n, n + k + 1, cont, g1).g;
        SoundSkip(g2, g2.next + RangeCount(items));
      case Goto(l) => SoundGoto(g, l);
      case Label(l) => SoundGoto(g, l);
      case ExprStmt(_) =>
      case CallStmt(_, _) =>
      case Null =>
      case Break =>
      case Continue =>
      case Return(_) =>
    }
  }

  lemma {:induction false} ListSound(ss: Stmts, brk: int, cont: int, g: G)
    requires Sound(g)
    ensures Sound(ListCode(ss, brk, cont, g).g)
    decreases ss
  {
    hide Sound;
    if ss.SCons? {
      SCodeSound(ss.s, brk, cont, g);
      ListSound(ss.rest, brk, cont, SCode(ss.s, brk, cont, g).g);
    }
  }

  lemma {:induction false} ItemsSound(items: Items, l: int, brk: int, cont: int, g: G)
    requires Sound(g)
    ensures Sound(ItemCode(items, l, brk, cont, g).g)
    decreases items
  {
    hide Sound;
    match items {
      case INil =>
      case ICase(_, _, rest) => ItemsSound(rest, l + 1, brk, cont, g);
      case IDefault(rest) => ItemsSound(rest, l + 1, brk, cont, g);
      case IStmt(s, rest) =>
        SCodeSound(s, brk, cont, g);
        ItemsSound(rest, l, brk, cont, SCode(s, brk, cont, g).g);
    }
  }

  // ----- The induction -----

  /** What is shown of statement code: StmtFacts, ListFacts and ItemFacts prove it. */
  predicate Shown(c: Code, n: nat, l: int, who: Owner, names: nat, jumps: bool, lo: int, hi: int, brk: int, cont: int)
  {
    Facts(c, n, l, who, names, lo <= l < hi, Reachable(c, l, who, jumps, brk, cont))
  }

  lemma {:induction false} StmtFacts(s: Stmt, brk: int, cont: int, g: G, gF: G, l: int, who: Owner, inB: bool, inC: bool,
                                     slots: nat, n: nat)
    requires FaithfulStmt(s, inB, inC) && ScopedStmt(s, slots, n) && slots <= SLOT_LIMIT
    requires Size(SCode(s, brk, cont, g).code) <= CODE_LIMIT
    requires Sound(g) && Grows(SCode(s, brk, cont, g).g, gF) && Sound(gF) && Owns(gF, l, who)
    ensures Sound(SCode(s, brk, cont, g).g)
    ensures var r := SCode(s, brk, cont, g);
      Shown(r.code, n, l, who, NameCount(s, Name(who)), JumpsTo(s, Name(who)), g.next, r.g.next, brk, cont)
    decreases s, 1
  {
    hide Size, Facts, DefCount, Uses, Loadable, Plain, Sound, Grows, Owns, Faithful, Scoped, FaithfulArgs, ScopedArgs, ECode,
      CallCode, TestCode, GotoId, EPILOGUE, OptCode, OptTest;
    match s {
      case ExprStmt(e) =>
        PlainExpr(e, slots, n); FactsPlain(ECode(e), n, l, who);
        FactsMore(ECode(e), n, l, who, 0, false, false, g.next <= l < g.next, Reachable(ECode(e), l, who, false, brk, cont));
      case CallStmt(fn, args) =>
        PlainCall(fn, args, slots, n); FactsPlain(CallCode(fn, args), n, l, who);
        FactsMore(CallCode(fn, args), n, l, who, 0, false, false, g.next <= l < g.next,
                  Reachable(CallCode(fn, args), l, who, false, brk, cont));
      case Null =>
        FactsNil(n, l, who);
        FactsMore(Nil, n, l, who, 0, false, false, g.next <= l < g.next, Reachable(Nil, l, who, false, brk, cont));
      case Break => FactsLeave(brk, brk, cont, g.next, n, l, who);
      case Continue => FactsLeave(cont, brk, cont, g.next, n, l, who);
      case Goto(name) => FactsGoto(name, g, gF, l, who, n, brk, cont);
      case Label(name) => FactsLabel(name, g, gF, l, who, n, brk, cont);
      case Return(e) =>
        PlainCat(OptCode(e), EPILOGUE, n);
        FactsOpt(e, slots, n, l, who); FactsEpilogue(n, l, who);
        FactsCat(OptCode(e), EPILOGUE, n, l, who, 0, 0, false, false, false, false);
        var c := Cat(OptCode(e), EPILOGUE);
        FactsMore(c, n, l, who, 0, false, false, g.next <= l < g.next, Reachable(c, l, who, false, brk, cont));
      case If(c, t) => IfFacts(c, t, brk, cont, g, gF, l, who, inB, inC, slots, n);
      case IfElse(c, t, e) => IfElseFacts(c, t, e, brk, cont, g, gF, l, who, inB, inC, slots, n);
      case While(c, b) => WhileFacts(c, b, brk, cont, g, gF, l, who, slots, n);
      case DoWhile(b, c) => DoFacts(b, c, brk, cont, g, gF, l, who, slots, n);
      case For(init, cond, step, b) => ForFacts(init, cond, step, b, brk, cont, g, gF, l, who, slots, n);
      case Block(ss) => ListFacts(ss, brk, cont, g, gF, l, who, inB, inC, slots, n);
      case Switch(c, items) => SwitchFacts(c, items, brk, cont, g, gF, l, who, inC, slots, n);
    }
  }

  /** break and continue. */
  lemma {:induction false} FactsLeave(k: int, brk: int, cont: int, next: int, n: nat, l: int, who: Owner)
    requires k == brk || k == cont
    ensures var c := if k >= 0 then JmpL(k) else Nil;
      Shown(c, n, l, who, 0, false, next, next, brk, cont)
  {
    FactsNil(n, l, who); FactsJmp(k, Eq, n, l, who);
  }

  lemma {:induction false} FactsGoto(name: string, g: G, gF: G, l: int, who: Owner, n: nat, brk: int, cont: int)
    requires Sound(g) && Grows(GotoId(g, name).1, gF) && Sound(gF) && Owns(gF, l, who)
    ensures Sound(GotoId(g, name).1)
    ensures Shown(JmpL(GotoId(g, name).0), n, l, who, 0, name == Name(who), g.next, GotoId(g, name).1.next, brk, cont)
  {
    NamedFacts(name, g, gF, l, who);
    FactsJmp(GotoId(g, name).0, Eq, n, l, who);
  }

  /** The number of a goto name is l exactly when the name owns l. */
  lemma {:induction false} NamedFacts(name: string, g: G, gF: G, l: int, who: Owner)
    requires Sound(g) && Grows(GotoId(g, name).1, gF) && Sound(gF) && Owns(gF, l, who)
    ensures Sound(GotoId(g, name).1)
    ensures GotoId(g, name).0 == l <==> who == Owned(name)
  {
    var (k, g') := GotoId(g, name);
    assert g'.gotos[name] == k;
    assert name in gF.gotos && gF.gotos[name] == k;
    SoundGoto(g, name);
  }

  lemma {:induction false} SoundGoto(g: G, name: string)
    requires Sound(g)
    ensures Sound(GotoId(g, name).1)
  {
  }

  lemma {:induction false} FactsLabel(name: string, g: G, gF: G, l: int, who: Owner, n: nat, brk: int, cont: int)
    requires Sound(g) && Grows(GotoId(g, name).1, gF) && Sound(gF) && Owns(gF, l, who)
    ensures Sound(GotoId(g, name).1)
    ensures Shown(Lab(GotoId(g, name).0), n, l, who, if name == Name(who) then 1 else 0, false,
      g.next, GotoId(g, name).1.next, brk, cont)
  {
    hide Grows, Sound, Owns, GotoId;
    NamedFacts(name, g, gF, l, who);
  }

  lemma {:induction false} IfFacts(c: Expr, t: Stmt, brk: int, cont: int, g: G, gF: G, l: int, who: Owner, inB: bool, inC: bool,
                                   slots: nat, n: nat)
    requires Faithful(c) && FaithfulStmt(t, inB, inC) && Scoped(c, slots, n) && ScopedStmt(t, slots, n) && slots <= SLOT_LIMIT
    requires Size(SCode(If(c, t), brk, cont, g).code) <= CODE_LIMIT
    requires Sound(g) && Grows(SCode(If(c, t), brk, cont, g).g, gF) && Sound(gF) && Owns(gF, l, who)
    ensures Sound(SCode(If(c, t), brk, cont, g).g)
    ensures var r := SCode(If(c, t), brk, cont, g);
      Shown(r.code, n, l, who, NameCount(t, Name(who)), JumpsTo(t, Name(who)), g.next, r.g.next, brk, cont)
    decreases If(c, t), 0
  {
    hide Size, Facts, DefCount, Uses, Loadable, Plain, Sound, Grows, Owns, Faithful, Scoped, FaithfulStmt, ScopedStmt, TestCode,
      NameCount, JumpsTo;
    var k := g.next;
    var g1 := g.(next := k + 2);
    var t' := SCode(t, brk, cont, g1);
    var test := TestCode(c, Eq, k);
    SoundSkip(g, k + 2);
    SCodeGrows(t, brk, cont, g1);
    GrowsThen(g1, t'.g, gF);
    OwnNumbers(g, k + 2, gF, l, who);
    PlainCat(t'.code, Lab(k), n); PlainCat(test, Cat(t'.code, Lab(k)), n);
    StmtFacts(t, brk, cont, g1, gF, l, who, inB, inC, slots, n);
    FactsTest(c, Eq, k, slots, n, l, who); FactsLab(k, n, l, who);
    var nt := NameCount(t, Name(who));
    var ot := Reachable(t'.code, l, who, JumpsTo(t, Name(who)), brk, cont);
    FactsCat(t'.code, Lab(k), n, l, who, nt, 0, g1.next <= l < t'.g.next, l == k, ot, false);
    FactsCat(test, Cat(t'.code, Lab(k)), n, l, who, 0, nt, false, g1.next <= l < t'.g.next || l == k, l == k, ot);
    GrowsNext(g1, t'.g);
    var code := IfCode(test, t'.code, k);
    FactsMore(code, n, l, who, nt, g1.next <= l < t'.g.next || l == k, l == k || ot,
              g.next <= l < t'.g.next, Reachable(code, l, who, JumpsTo(t, Name(who)), brk, cont));
  }

  lemma {:induction false} IfElseFacts(c: Expr, t: Stmt, e: Stmt, brk: int, cont: int, g: G, gF: G, l: int, who: Owner,
                                       inB: bool, inC: bool, slots: nat, n: nat)
    requires Faithful(c) && FaithfulStmt(t, inB, inC) && FaithfulStmt(e, inB, inC) && slots <= SLOT_LIMIT
    requires Scoped(c, slots, n) && ScopedStmt(t, slots, n) && ScopedStmt(e, slots, n)
    requires Size(SCode(IfElse(c, t, e), brk, cont, g).code) <= CODE_LIMIT
    requires Sound(g) && Grows(SCode(IfElse(c, t, e), brk, cont, g).g, gF) && Sound(gF) && Owns(gF, l, who)
    ensures Sound(SCode(IfElse(c, t, e), brk, cont, g).g)
    ensures var r := SCode(IfElse(c, t, e), brk, cont, g);
      Shown(r.code, n, l, who, NameCount(t, Name(who)) + NameCount(e, Name(who)),
            JumpsTo(t, Name(who)) || JumpsTo(e, Name(who)), g.next, r.g.next, brk, cont)
    decreases IfElse(c, t, e), 0
  {
    hide Size, Facts, DefCount, Uses, Loadable, Plain, Sound, Grows, Owns, Faithful, Scoped, FaithfulStmt, ScopedStmt, TestCode,
      NameCount, JumpsTo;
    var k := g.next;
    var g1 := g.(next := k + 2);
    var t' := SCode(t, brk, cont, g1);
    var e' := SCode(e, brk, cont, t'.g);
    var test := TestCode(c, Eq, k);
    SoundSkip(g, k + 2);
    SCodeGrows(t, brk, cont, g1); SCodeGrows(e, brk, cont, t'.g);
    GrowsThen(t'.g, e'.g, gF);
    GrowsThen(g1, t'.g, gF);
    OwnNumbers(g, k + 2, gF, l, who);
    var c1 := Cat(e'.code, Lab(k + 1));
    var c2 := Cat(Lab(k), c1);
    var c3 := Cat(JmpL(k + 1), c2);
    PlainCat(e'.code, Lab(k + 1), n); PlainCat(Lab(k), c1, n); PlainCat(JmpL(k + 1), c2, n);
    PlainCat(t'.code, c3, n); PlainCat(test, Cat(t'.code, c3), n);
    StmtFacts(t, brk, cont, g1, gF, l, who, inB, inC, slots, n);
    StmtFacts(e, brk, cont, t'.g, gF, l, who, inB, inC, slots, n);
    FactsTest(c, Eq, k, slots, n, l, who); FactsLab(k, n, l, who); FactsLab(k + 1, n, l, who);
    FactsJmp(k + 1, Eq, n, l, who);
    var nt, ne := NameCount(t, Name(who)), NameCount(e, Name(who));
    var ot := Reachable(t'.code, l, who, JumpsTo(t, Name(who)), brk, cont);
    var oe := Reachable(e'.code, l, who, JumpsTo(e, Name(who)), brk, cont);
    var mt, me := g1.next <= l < t'.g.next, t'.g.next <= l < e'.g.next;
    GrowsNext(g1, t'.g); GrowsNext(t'.g, e'.g);
    FactsCat(e'.code, Lab(k + 1), n, l, who, ne, 0, me, l == k + 1, oe, false);
    FactsCat(Lab(k), c1, n, l, who, 0, ne, l == k, me || l == k + 1, false, oe);
    FactsCat(JmpL(k + 1), c2, n, l, who, 0, ne, false, me || l == k + 1 || l == k, l == k + 1, oe);
    FactsCat(t'.code, c3, n, l, who, nt, ne, mt, me || l == k + 1 || l == k, ot, oe || l == k + 1);
    FactsCat(test, Cat(t'.code, c3), n, l, who, 0, nt + ne, false, mt || me || l == k + 1 || l == k, l == k,
             ot || oe || l == k + 1);
    var code := Cat(test, Cat(t'.code, c3));
    FactsMore(code, n, l, who, nt + ne, mt || me || l == k + 1 || l == k, ot || oe || l == k + 1 || l == k,
      g.next <= l < e'.g.next, Reachable(code, l, who, JumpsTo(t, Name(who)) || JumpsTo(e, Name(who)), brk, cont));
  }

  lemma {:induction false} WhileFacts(c: Expr, b: Stmt, brk: int, cont: int, g: G, gF: G, l: int, who: Owner,
                                      slots: nat, n: nat)
    requires Faithful(c) && FaithfulStmt(b, true, true) && Scoped(c, slots, n) && ScopedStmt(b, slots, n)
    requires slots <= SLOT_LIMIT && Size(SCode(While(c, b), brk, cont, g).code) <= CODE_LIMIT
    requires Sound(g) && Grows(SCode(While(c, b), brk, cont, g).g, gF) && Sound(gF) && Owns(gF, l, who)
    ensures Sound(SCode(While(c, b), brk, cont, g).g)
    ensures var r := SCode(While(c, b), brk, cont, g);
      Shown(r.code, n, l, who, NameCount(b, Name(who)), JumpsTo(b, Name(who)), g.next, r.g.next, brk, cont)
    decreases While(c, b), 0
  {
    hide Size, Facts, DefCount, Uses, Loadable, Plain, Sound, Grows, Owns, Faithful, Scoped, FaithfulStmt, ScopedStmt, TestCode,
      NameCount, JumpsTo;
    var k := g.next;
    var g1 := g.(next := k + 2);
    var b' := SCode(b, k + 1, k, g1);
    var test := TestCode(c, Eq, k + 1);
    SoundSkip(g, k + 2);
    SCodeGrows(b, k + 1, k, g1); GrowsThen(g1, b'.g, gF); GrowsNext(g1, b'.g);
    OwnNumbers(g, k + 2, gF, l, who);
    var c1 := Cat(JmpL(k), Lab(k + 1));
    var c2 := Cat(b'.code, c1);
    var c3 := Cat(test, c2);
    PlainCat(JmpL(k), Lab(k + 1), n); PlainCat(b'.code, c1, n); PlainCat(test, c2, n); PlainCat(Lab(k), c3, n);
    StmtFacts(b, k + 1, k, g1, gF, l, who, true, true, slots, n);
    FactsTest(c, Eq, k + 1, slots, n, l, who); FactsLab(k, n, l, who); FactsLab(k + 1, n, l, who);
    FactsJmp(k, Eq, n, l, who);
    var nb := NameCount(b, Name(who));
    var ob := Reachable(b'.code, l, who, JumpsTo(b, Name(who)), k + 1, k);
    var mb := g1.next <= l < b'.g.next;
    FactsCat(JmpL(k), Lab(k + 1), n, l, who, 0, 0, false, l == k + 1, l == k, false);
    FactsCat(b'.code, c1, n, l, who, nb, 0, mb, l == k + 1, ob, l == k);
    FactsCat(test, c2, n, l, who, 0, nb, false, mb || l == k + 1, l == k + 1, ob || l == k);
    FactsCat(Lab(k), c3, n, l, who, 0, nb, l == k, mb || l == k + 1, false, ob || l == k + 1 || l == k);
    var code := Cat(Lab(k), c3);
    FactsMore(code, n, l, who, nb, mb || l == k + 1 || l == k, ob || l == k + 1 || l == k,
              g.next <= l < b'.g.next, Reachable(code, l, who, JumpsTo(b, Name(who)), brk, cont));
  }

  lemma {:induction false} DoFacts(b: Stmt, c: Expr, brk: int, cont: int, g: G, gF: G, l: int, who: Owner,
                                   slots: nat, n: nat)
    requires Faithful(c) && FaithfulStmt(b, true, true) && Scoped(c, slots, n) && ScopedStmt(b, slots, n)
    requires slots <= SLOT_LIMIT && Size(SCode(DoWhile(b, c), brk, cont, g).code) <= CODE_LIMIT
    requires Sound(g) && Grows(SCode(DoWhile(b, c), brk, cont, g).g, gF) && Sound(gF) && Owns(gF, l, who)
    ensures Sound(SCode(DoWhile(b, c), brk, cont, g).g)
    ensures var r := SCode(DoWhile(b, c), brk, cont, g);
      Shown(r.code, n, l, who, NameCount(b, Name(who)), JumpsTo(b, Name(who)), g.next, r.g.next, brk, cont)
    decreases DoWhile(b, c), 0
  {
    hide Size, Facts, DefCount, Uses, Loadable, Plain, Sound, Grows, Owns, Faithful, Scoped, FaithfulStmt, ScopedStmt, TestCode,
      NameCount, JumpsTo;
    var k := g.next;
    var g1 := g.(next := k + 2);
    var b' := SCode(b, k + 1, k, g1);
    var test := TestCode(c, Ne, k);
    SoundSkip(g, k + 2);
    SCodeGrows(b, k + 1, k, g1); GrowsThen(g1, b'.g, gF); GrowsNext(g1, b'.g);
    OwnNumbers(g, k + 2, gF, l, who);
    var c1 := Cat(test, Lab(k + 1));
    var c2 := Cat(b'.code, c1);
    PlainCat(test, Lab(k + 1), n); PlainCat(b'.code, c1, n); PlainCat(Lab(k), c2, n);
    StmtFacts(b, k + 1, k, g1, gF, l, who, true, true, slots, n);
    FactsTest(c, Ne, k, slots, n, l, who); FactsLab(k, n, l, who); FactsLab(k + 1, n, l, who);
    var nb := NameCount(b, Name(who));
    var ob := Reachable(b'.code, l, who, JumpsTo(b, Name(who)), k + 1, k);
    var mb := g1.next <= l < b'.g.next;
    FactsCat(test, Lab(k + 1), n, l, who, 0, 0, false, l == k + 1, l == k, false);
    FactsCat(b'.code, c1, n, l, who, nb, 0, mb, l == k + 1, ob, l == k);
    FactsCat(Lab(k), c2, n, l, who, 0, nb, l == k, mb || l == k + 1, false, ob || l == k);
    var code := Cat(Lab(k), c2);
    FactsMore(code, n, l, who, nb, mb || l == k + 1 || l == k, ob || l == k,
              g.next <= l < b'.g.next, Reachable(code, l, who, JumpsTo(b, Name(who)), brk, cont));
  }

  lemma {:induction false} ForFacts(init: OptExpr, cond: OptExpr, step: OptExpr, b: Stmt, brk: int, cont: int, g: G, gF: G,
                                    l: int, who: Owner, slots: nat, n: nat)
    requires FaithfulOpt(init) && FaithfulOpt(cond) && FaithfulOpt(step) && FaithfulStmt(b, true, true)
    requires ScopedOpt(init, slots, n) && ScopedOpt(cond, slots, n) && ScopedOpt(step, slots, n) && ScopedStmt(b, slots, n)
    requires slots <= SLOT_LIMIT && Size(SCode(For(init, cond, step, b), brk, cont, g).code) <= CODE_LIMIT
    requires Sound(g) && Grows(SCode(For(init, cond, step, b), brk, cont, g).g, gF) && Sound(gF) && Owns(gF, l, who)
    ensures Sound(SCode(For(init, cond, step, b), brk, cont, g).g)
    ensures var r := SCode(For(init, cond, step, b), brk, cont, g);
      Shown(r.code, n, l, who, NameCount(b, Name(who)), JumpsTo(b, Name(who)), g.next, r.g.next, brk, cont)
    decreases For(init, cond, step, b), 0
  {
    hide Size, Facts, DefCount, Uses, Loadable, Plain, Sound, Grows, Owns, Faithful, Scoped, FaithfulStmt, ScopedStmt, TestCode,
      NameCount, JumpsTo, OptCode, OptTest, FaithfulOpt, ScopedOpt;
    var k := g.next;
    var g1 := g.(next := k + 3);
    var b' := SCode(b, k + 1, k + 2, g1);
    var test := OptTest(cond, k + 1);
    var st := OptCode(step);
    SoundSkip(g, k + 3);
    SCodeGrows(b, k + 1, k + 2, g1); GrowsThen(g1, b'.g, gF); GrowsNext(g1, b'.g);
    OwnNumbers(g, k + 3, gF, l, who);
    var c1 := Cat(JmpL(k), Lab(k + 1));
    var c2 := Cat(st, c1);
    var c3 := Cat(Lab(k + 2), c2);
    var c4 := Cat(b'.code, c3);
    var c5 := Cat(test, c4);
    var c6 := Cat(Lab(k), c5);
    PlainCat(JmpL(k), Lab(k + 1), n); PlainCat(st, c1, n); PlainCat(Lab(k + 2), c2, n); PlainCat(b'.code, c3, n);
    PlainCat(test, c4, n); PlainCat(Lab(k), c5, n); PlainCat(OptCode(init), c6, n);
    StmtFacts(b, k + 1, k + 2, g1, gF, l, who, true, true, slots, n);
    FactsOpt(init, slots, n, l, who); FactsOpt(step, slots, n, l, who); FactsOptTest(cond, k + 1, slots, n, l, who);
    FactsLab(k, n, l, who); FactsLab(k + 1, n, l, who); FactsLab(k + 2, n, l, who); FactsJmp(k, Eq, n, l, who);
    var nb := NameCount(b, Name(who));
    var ob := Reachable(b'.code, l, who, JumpsTo(b, Name(who)), k + 1, k + 2);
    var mb := g1.next <= l < b'.g.next;
    FactsCat(JmpL(k), Lab(k + 1), n, l, who, 0, 0, false, l == k + 1, l == k, false);
    FactsCat(st, c1, n, l, who, 0, 0, false, l == k + 1, false, l == k);
    FactsCat(Lab(k + 2), c2, n, l, who, 0, 0, l == k + 2, l == k + 1, false, l == k);
    FactsCat(b'.code, c3, n, l, who, nb, 0, mb, l == k + 2 || l == k + 1, ob, l == k);
    FactsCat(test, c4, n, l, who, 0, nb, false, mb || l == k + 2 || l == k + 1, l == k + 1, ob || l == k);
    FactsCat(Lab(k), c5, n, l, who, 0, nb, l == k, mb || l == k + 2 || l == k + 1, false, ob || l == k || l == k + 1);
    FactsCat(OptCode(init), c6, n, l, who, 0, nb, false, mb || l == k + 2 || l == k + 1 || l == k, false,
             ob || l == k || l == k + 1);
    var code := Cat(OptCode(init), c6);
    FactsMore(code, n, l, who, nb, mb || l == k + 2 || l == k + 1 || l == k, ob || l == k || l == k + 1,
              g.next <= l < b'.g.next, Reachable(code, l, who, JumpsTo(b, Name(who)), brk, cont));
  }

  lemma {:induction false} ListFacts(ss: Stmts, brk: int, cont: int, g: G, gF: G, l: int, who: Owner, inB: bool, inC: bool,
                                     slots: nat, n: nat)
    requires FaithfulList(ss, inB, inC) && ScopedList(ss, slots, n) && slots <= SLOT_LIMIT
    requires Size(ListCode(ss, brk, cont, g).code) <= CODE_LIMIT
    requires Sound(g) && Grows(ListCode(ss, brk, cont, g).g, gF) && Sound(gF) && Owns(gF, l, who)
    ensures Sound(ListCode(ss, brk, cont, g).g)
    ensures var r := ListCode(ss, brk, cont, g);
      Shown(r.code, n, l, who, NameCountIn(ss, Name(who)), JumpsToIn(ss, Name(who)), g.next, r.g.next, brk, cont)
    decreases ss, 1
  {
    hide Size, Facts, DefCount, Uses, Loadable, Plain, Sound, Grows, Owns, Faithful, Scoped, FaithfulStmt, ScopedStmt, TestCode,
      NameCount, JumpsTo, SCode;
    match ss {
      case SNil =>
        FactsNil(n, l, who);
        FactsMore(Nil, n, l, who, 0, false, false, g.next <= l < g.next, Reachable(Nil, l, who, false, brk, cont));
      case SCons(s, rest) =>
        var s' := SCode(s, brk, cont, g);
        var r' := ListCode(rest, brk, cont, s'.g);
        SCodeGrows(s, brk, cont, g); ListGrows(rest, brk, cont, s'.g);
        GrowsThen(s'.g, r'.g, gF); GrowsNext(g, s'.g); GrowsNext(s'.g, r'.g);
        PlainCat(s'.code, r'.code, n);
        StmtFacts(s, brk, cont, g, gF, l, who, inB, inC, slots, n);
        ListFacts(rest, brk, cont, s'.g, gF, l, who, inB, inC, slots, n);
        SeqFacts(s'.code, r'.code, n, l, who, NameCount(s, Name(who)), NameCountIn(rest, Name(who)),
          JumpsTo(s, Name(who)), JumpsToIn(rest, Name(who)), g.next, s'.g.next, r'.g.next, brk, cont);
    }
  }

  /** Two pieces one after the other, numbered one after the other. */
  lemma {:induction false} SeqFacts(a: Code, b: Code, n: nat, l: int, who: Owner, na: nat, nb: nat, ja: bool, jb: bool,
                                    lo: int, mid: int, hi: int, brk: int, cont: int)
    requires lo <= mid <= hi
    requires Shown(a, n, l, who, na, ja, lo, mid, brk, cont) && Shown(b, n, l, who, nb, jb, mid, hi, brk, cont)
    ensures Shown(Cat(a, b), n, l, who, na + nb, ja || jb, lo, hi, brk, cont)
  {
    hide Facts, DefCount, Uses;
    var oa, ob := Reachable(a, l, who, ja, brk, cont), Reachable(b, l, who, jb, brk, cont);
    FactsCat(a, b, n, l, who, na, nb, lo <= l < mid, mid <= l < hi, oa, ob);
    FactsMore(Cat(a, b), n, l, who, na + nb, lo <= l < mid || mid <= l < hi, oa || ob, lo <= l < hi,
              Reachable(Cat(a, b), l, who, ja || jb, brk, cont));
  }

  // ----- Switch -----

  /** The body of a switch: its case labels are numbered from k, its other labels from g. */
  lemma {:induction false} ItemFacts(items: Items, k: int, brk: int, cont: int, g: G, gF: G, l: int, who: Owner, inC: bool,
                                     slots: nat, n: nat)
    requires FaithfulItems(items, inC) && ScopedItems(items, slots, n) && slots <= SLOT_LIMIT
    requires Size(ItemCode(items, k, brk, cont, g).code) <= CODE_LIMIT && k + LabelCount(items) <= g.next
    requires Sound(g) && Grows(ItemCode(items, k, brk, cont, g).g, gF) && Sound(gF) && Owns(gF, l, who)
    requires who.Owned? ==> !(k <= l < k + LabelCount(items))
    ensures Sound(ItemCode(items, k, brk, cont, g).g)
    ensures var r := ItemCode(items, k, brk, cont, g);
      Facts(r.code, n, l, who, NameCountItem(items, Name(who)), k <= l < k + LabelCount(items) || g.next <= l < r.g.next,
            Reachable(r.code, l, who, JumpsToItem(items, Name(who)), brk, cont))
    ensures k <= l < k + LabelCount(items) ==> DefCount(ItemCode(items, k, brk, cont, g).code, l) >= 1
    decreases items, 1
  {
    hide Size, Facts, DefCount, Uses, Loadable, Plain, Sound, Grows, Owns, Faithful, Scoped, FaithfulStmt, ScopedStmt, TestCode,
      NameCount, JumpsTo, SCode;
    match items {
      case INil =>
        FactsNil(n, l, who);
        FactsMore(Nil, n, l, who, 0, false, false, g.next <= l < g.next, Reachable(Nil, l, who, false, brk, cont));
      case ICase(_, _, rest) => CaseFacts(rest, k, brk, cont, g, gF, l, who, inC, slots, n);
      case IDefault(rest) => CaseFacts(rest, k, brk, cont, g, gF, l, who, inC, slots, n);
      case IStmt(s, rest) =>
        var s' := SCode(s, brk, cont, g);
        var r' := ItemCode(rest, k, brk, cont, s'.g);
        SCodeGrows(s, brk, cont, g); ItemsGrow(rest, k, brk, cont, s'.g);
        GrowsThen(s'.g, r'.g, gF); GrowsNext(g, s'.g); GrowsNext(s'.g, r'.g);
        PlainCat(s'.code, r'.code, n);
        StmtFacts(s, brk, cont, g, gF, l, who, true, inC, slots, n);
        ItemFacts(rest, k, brk, cont, s'.g, gF, l, who, inC, slots, n);
        var own := k <= l < k + LabelCount(rest);
        var ns, nr := NameCount(s, Name(who)), NameCountItem(rest, Name(who));
        var os := Reachable(s'.code, l, who, JumpsTo(s, Name(who)), brk, cont);
        var or := Reachable(r'.code, l, who, JumpsToItem(rest, Name(who)), brk, cont);
        FactsCat(s'.code, r'.code, n, l, who, ns, nr, g.next <= l < s'.g.next, own || s'.g.next <= l < r'.g.next, os, or);
        var code := Cat(s'.code, r'.code);
        FactsMore(code, n, l, who, ns + nr, g.next <= l < s'.g.next || own || s'.g.next <= l < r'.g.next, os || or,
          own || g.next <= l < r'.g.next, Reachable(code, l, who, JumpsTo(s, Name(who)) || JumpsToItem(rest, Name(who)), brk, cont));
    }
  }

  /** A case or default label in front of rest. */
  lemma {:induction false} CaseFacts(rest: Items, k: int, brk: int, cont: int, g: G, gF: G, l: int, who: Owner, inC: bool,
                                     slots: nat, n: nat)
    requires FaithfulItems(rest, inC) && ScopedItems(rest, slots, n) && slots <= SLOT_LIMIT
    requires Size(Cat(Lab(k), ItemCode(rest, k + 1, brk, cont, g).code)) <= CODE_LIMIT && k + 1 + LabelCount(rest) <= g.next
    requires Sound(g) && Grows(ItemCode(rest, k + 1, brk, cont, g).g, gF) && Sound(gF) && Owns(gF, l, who)
    requires who.Owned? ==> !(k <= l < k + 1 + LabelCount(rest))
    ensures Sound(ItemCode(rest, k + 1, brk, cont, g).g)
    ensures var r := ItemCode(rest, k + 1, brk, cont, g);
      var code := Cat(Lab(k), r.code);
      Facts(code, n, l, who, NameCountItem(rest, Name(who)), k <= l < k + 1 + LabelCount(rest) || g.next <= l < r.g.next,
            Reachable(code, l, who, JumpsToItem(rest, Name(who)), brk, cont))
      && (k <= l < k + 1 + LabelCount(rest) ==> DefCount(code, l) >= 1)
    decreases rest, 2
  {
    hide Size, Facts, DefCount, Uses, Loadable, Plain, Sound, Grows, Owns, Faithful, Scoped, FaithfulStmt, ScopedStmt, TestCode,
      NameCount, JumpsTo, SCode, ItemCode, FaithfulItems, ScopedItems;
    var r := ItemCode(rest, k + 1, brk, cont, g);
    PlainCat(Lab(k), r.code, n);
    ItemFacts(rest, k + 1, brk, cont, g, gF, l, who, inC, slots, n);
    FactsLab(k, n, l, who);
    var nr := NameCountItem(rest, Name(who));
    var mr := k + 1 <= l < k + 1 + LabelCount(rest) || g.next <= l < r.g.next;
    var or := Reachable(r.code, l, who, JumpsToItem(rest, Name(who)), brk, cont);
    FactsCat(Lab(k), r.code, n, l, who, 0, nr, l == k, mr, false, or);
    var code := Cat(Lab(k), r.code);
    FactsMore(code, n, l, who, nr, l == k || mr, or, k <= l < k + 1 + LabelCount(rest) || g.next <= l < r.g.next,
              Reachable(code, l, who, JumpsToItem(rest, Name(who)), brk, cont));
  }

  /** The dispatch code: it jumps to case labels and to its own skip labels. */
  lemma {:induction false} DispatchFacts(items: Items, k: int, d: int, l: int, who: Owner, n: nat)
    requires IntCases(items) && k + LabelCount(items) <= d
    requires who.Owned? ==> !(d <= l < d + RangeCount(items))
    ensures Facts(Dispatch(items, k, d), n, l, who, 0, d <= l < d + RangeCount(items),
      k <= l < k + LabelCount(items) || DefCount(Dispatch(items, k, d), l) >= 1)
    decreases items
  {
    hide Size, Facts, DefCount, Uses, Loadable, Plain;
    match items {
      case INil =>
        FactsNil(n, l, who);
        FactsMore(Nil, n, l, who, 0, false, false, d <= l < d, k <= l < k || DefCount(Nil, l) >= 1);
      case ICase(lo, hi, rest) =>
        var range := lo != hi;
        var head := if range then RangeTest(lo, hi, k, d) else CaseTest(lo, k);
        var d' := if range then d + 1 else d;
        var tail := Dispatch(rest, k + 1, d');
        DispatchFacts(rest, k + 1, d', l, who, n);
        if range { RangeFacts(lo, hi, k, d, l, who, n); } else { CompareFacts(lo, Eq, k, l, who, n); }
        var mt := d' <= l < d' + RangeCount(rest);
        var ot := k + 1 <= l < k + 1 + LabelCount(rest) || DefCount(tail, l) >= 1;
        var mh := range && l == d;
        FactsMore(head, n, l, who, 0, mh, l == k || mh, mh, l == k || mh);
        FactsCat(head, tail, n, l, who, 0, 0, mh, mt, l == k || mh, ot);
        FactsMore(Cat(head, tail), n, l, who, 0, mh || mt, l == k || mh || ot, d <= l < d + RangeCount(items),
          k <= l < k + LabelCount(items) || DefCount(Cat(head, tail), l) >= 1);
      case IDefault(rest) =>
        DispatchFacts(rest, k + 1, d, l, who, n);
        var c := Dispatch(rest, k + 1, d);
        FactsMore(c, n, l, who, 0, d <= l < d + RangeCount(rest),
          k + 1 <= l < k + 1 + LabelCount(rest) || DefCount(c, l) >= 1, d <= l < d + RangeCount(rest),
          k <= l < k + LabelCount(items) || DefCount(c, l) >= 1);
      case IStmt(_, rest) => DispatchFacts(rest, k, d, l, who, n);
    }
  }

  lemma {:induction false} CompareFacts(v: int, cc: Cc, k: int, l: int, who: Owner, n: nat)
    requires IsInt(v)
    ensures Facts(Cat(I(CmpEaxImm(v)), JccL(cc, k)), n, l, who, 0, false, l == k)
    ensures DefCount(Cat(I(CmpEaxImm(v)), JccL(cc, k)), l) == 0
  {
    hide Size, Facts, DefCount, Uses, Plain;
    PlainI(CmpEaxImm(v), n); FactsPlain(I(CmpEaxImm(v)), n, l, who);
    FactsJmp(k, cc, n, l, who);
    FactsCat(I(CmpEaxImm(v)), JccL(cc, k), n, l, who, 0, 0, false, false, false, l == k);
  }

  lemma {:induction false} RangeFacts(lo: int, hi: int, k: int, d: int, l: int, who: Owner, n: nat)
    requires IsInt(lo) && IsInt(hi) && (who.Owned? ==> l != d)
    ensures Facts(RangeTest(lo, hi, k, d), n, l, who, 0, l == d, l == k || l == d)
    ensures DefCount(RangeTest(lo, hi, k, d), l) == if l == d then 1 else 0
  {
    hide Size, Facts, DefCount, Uses, Plain;
    var c1 := Cat(JmpL(k), Lab(d));
    var c2 := Cat(JccL(Gt, d), c1);
    var c3 := Cat(I(CmpEaxImm(hi)), c2);
    var c4 := Cat(JccL(Lt, d), c3);
    PlainI(CmpEaxImm(lo), n); FactsPlain(I(CmpEaxImm(lo)), n, l, who);
    PlainI(CmpEaxImm(hi), n); FactsPlain(I(CmpEaxImm(hi)), n, l, who);
    FactsJmp(k, Eq, n, l, who); FactsJmp(d, Lt, n, l, who); FactsJmp(d, Gt, n, l, who); FactsLab(d, n, l, who);
    FactsCat(JmpL(k), Lab(d), n, l, who, 0, 0, false, l == d, l == k, false);
    FactsCat(JccL(Gt, d), c1, n, l, who, 0, 0, false, l == d, l == d, l == k);
    FactsCat(I(CmpEaxImm(hi)), c2, n, l, who, 0, 0, false, l == d, false, l == d || l == k);
    FactsCat(JccL(Lt, d), c3, n, l, who, 0, 0, false, l == d, l == d, l == d || l == k);
    FactsCat(I(CmpEaxImm(lo)), c4, n, l, who, 0, 0, false, l == d, false, l == d || l == k);
  }

  lemma {:induction false} DefaultFacts(items: Items, k: int, l: int, who: Owner, n: nat)
    requires k >= 0
    ensures Facts(DefaultJump(items, k), n, l, who, 0, false, k <= l < k + LabelCount(items))
    ensures DefCount(DefaultJump(items, k), l) == 0
  {
    hide Facts, DefCount;
    DefaultRange(items, k);
    FactsNil(n, l, who);
    FactsMore(Nil, n, l, who, 0, false, false, false, k <= l < k + LabelCount(items));
    var j := DefaultLabel(items, k);
    FactsJmp(j, Eq, n, l, who);
    if j >= 0 {
      FactsMore(JmpL(j), n, l, who, 0, false, l == j, false, k <= l < k + LabelCount(items));
    }
  }

  lemma {:induction false} DefaultRange(items: Items, k: int)
    requires k >= 0
    ensures DefaultLabel(items, k) == -1 || k <= DefaultLabel(items, k) < k + LabelCount(items)
    decreases items
  {
    match items {
      case INil =>
      case ICase(_, _, rest) => DefaultRange(rest, k + 1);
      case IDefault(rest) => DefaultRange(rest, k + 1);
      case IStmt(_, rest) => DefaultRange(rest, k);
    }
  }

  lemma {:induction false} SwitchFacts(c: Expr, items: Items, brk: int, cont: int, g: G, gF: G, l: int, who: Owner, inC: bool,
                                       slots: nat, n: nat)
    requires Faithful(c) && FaithfulItems(items, inC) && Scoped(c, slots, n) && ScopedItems(items, slots, n)
    requires slots <= SLOT_LIMIT && Size(SCode(Switch(c, items), brk, cont, g).code) <= CODE_LIMIT
    requires Sound(g) && Grows(SCode(Switch(c, items), brk, cont, g).g, gF) && Sound(gF) && Owns(gF, l, who)
    ensures Sound(SCode(Switch(c, items), brk, cont, g).g)
    ensures var r := SCode(Switch(c, items), brk, cont, g);
      Shown(r.code, n, l, who, NameCountItem(items, Name(who)), JumpsToItem(items, Name(who)), g.next, r.g.next, brk, cont)
    decreases Switch(c, items), 0
  {
    hide Size, Facts, DefCount, Uses, Loadable, Plain, Sound, Grows, Owns, Faithful, Scoped, FaithfulStmt, ScopedStmt, TestCode,
      NameCount, JumpsTo, ItemCode, Dispatch, DefaultJump, FaithfulItems, ScopedItems, ECode, LabelCount, RangeCount, IntCases;
    var k, j := g.next, LabelCount(items);
    var g1 := g.(next := k + j + 2);
    var b := ItemCode(items, k, k + j + 1, cont, g1);
    var rc := RangeCount(items);
    var g2 := b.g.(next := b.g.next + rc);
    var disp := Dispatch(items, k, b.g.next);
    var def := DefaultJump(items, k);
    SoundSkip(g, k + j + 2);
    ItemsGrow(items, k, k + j + 1, cont, g1);
    GrowsNext(g1, b.g); GrowsSelf(b.g, b.g.next + rc); GrowsThen(b.g, g2, gF); GrowsThen(g1, b.g, gF);
    OwnNumbers(g, k + j + 2, gF, l, who);
    var sel := Cat(disp, def);
    var c1 := Cat(sel, Lab(k + j + 1));
    var c2 := Cat(I(PopRax), c1);
    var c3 := Cat(Lab(k + j), c2);
    var c4 := Cat(b.code, c3);
    var c5 := Cat(JmpL(k + j), c4);
    var c6 := Cat(I(PushRax), c5);
    var code := Cat(ECode(c), c6);
    PlainCat(disp, def, n); PlainCat(sel, Lab(k + j + 1), n); PlainCat(I(PopRax), c1, n); PlainCat(Lab(k + j), c2, n);
    PlainCat(b.code, c3, n); PlainCat(JmpL(k + j), c4, n); PlainCat(I(PushRax), c5, n); PlainCat(ECode(c), c6, n);
    ItemFacts(items, k, k + j + 1, cont, g1, gF, l, who, inC, slots, n);
    SoundSkip(b.g, b.g.next + rc);
    OwnNumbers(b.g, b.g.next + rc, gF, l, who);
    FaithfulIntCases(items, inC);
    DispatchFacts(items, k, b.g.next, l, who, n);
    SoundNext(g);
    DefaultFacts(items, k, l, who, n);
    PlainExpr(c, slots, n); FactsPlain(ECode(c), n, l, who);
    PlainI(PushRax, n); FactsPlain(I(PushRax), n, l, who);
    PlainI(PopRax, n); FactsPlain(I(PopRax), n, l, who);
    FactsLab(k + j, n, l, who); FactsLab(k + j + 1, n, l, who); FactsJmp(k + j, Eq, n, l, who);
    var own := k <= l < k + j;
    var md := b.g.next <= l < b.g.next + rc;
    var mb := own || g1.next <= l < b.g.next;
    var od := own || DefCount(disp, l) >= 1;
    var ob := Reachable(b.code, l, who, JumpsToItem(items, Name(who)), k + j + 1, cont);
    var nb := NameCountItem(items, Name(who));
    FactsCat(disp, def, n, l, who, 0, 0, md, false, od, own);
    FactsCat(sel, Lab(k + j + 1), n, l, who, 0, 0, md, l == k + j + 1, od || own, false);
    FactsCat(I(PopRax), c1, n, l, who, 0, 0, false, md || l == k + j + 1, false, od || own);
    FactsCat(Lab(k + j), c2, n, l, who, 0, 0, l == k + j, md || l == k + j + 1, false, od || own);
    FactsCat(b.code, c3, n, l, who, nb, 0, mb, md || l == k + j + 1 || l == k + j, ob, od || own);
    FactsCat(JmpL(k + j), c4, n, l, who, 0, nb, false, mb || md || l == k + j + 1 || l == k + j, l == k + j, ob || od || own);
    FactsCat(I(PushRax), c5, n, l, who, 0, nb, false, mb || md || l == k + j + 1 || l == k + j, false,
             ob || od || own || l == k + j);
    FactsCat(ECode(c), c6, n, l, who, 0, nb, false, mb || md || l == k + j + 1 || l == k + j, false,
             ob || od || own || l == k + j);
    FactsMore(code, n, l, who, nb, mb || md || l == k + j + 1 || l == k + j, ob || od || own || l == k + j,
              g.next <= l < g2.next, Reachable(code, l, who, JumpsToItem(items, Name(who)), brk, cont));
  }

  lemma {:induction false} SoundNext(g: G)
    requires Sound(g)
    ensures g.next >= 0
  {
  }

  lemma {:induction false} FaithfulIntCases(items: Items, inC: bool)
    requires FaithfulItems(items, inC)
    ensures IntCases(items)
    decreases items
  {
    hide FaithfulStmt;
    match items {
      case INil =>
      case ICase(_, _, rest) => FaithfulIntCases(rest, inC);
      case IDefault(rest) => FaithfulIntCases(rest, inC);
      case IStmt(_, rest) => FaithfulIntCases(rest, inC);
    }
  }

  lemma {:induction false} GrowsNext(g: G, g': G)
    requires Grows(g, g')
    ensures g.next <= g'.next
  {
  }
}
