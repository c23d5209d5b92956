/** Two walks over a function body: one gives every local variable a slot and the
    number of its block, the other one numbers the blocks again while it generates
    code and looks variables up.  Beside them, the scopes that C gives to the names. */
module Scopes {

  const MAX_SCOPES: nat := 256

  /** The initialiser of a declaration: the names it uses. */
  datatype Init = NoInit | Init(names: seq<string>)

  /** A statement, as far as the walks look at it; an expression is the names it uses. */
  datatype Node =
    | Block(stmts: seq<Node>)
    | Switch(cond: seq<string>, stmts: seq<Node>)
    | If(cond: seq<string>, yes: Node, no: Node)
    | While(cond: seq<string>, body: Node)
    | DoWhile(body: Node, cond: seq<string>)
    | For(start: Node, cond: seq<string>, step: seq<string>, body: Node)
    | Decl(name: string, size: nat, isStatic: bool, init: Init)
    | Uses(names: seq<string>)
    | Other

  /** A local variable, with the depth and the number of its block. */
  datatype Seen = Seen(name: string, size: nat, depth: nat, id: nat)

  /** chain holds the numbers of the open blocks. */
  datatype Walk = Walk(chain: seq<nat>, next: nat, seen: seq<Seen>) | Overflow

  function Top(chain: seq<nat>): nat { if chain == [] then 0 else chain[|chain| - 1] }

  /** A declaration; static variables get no slot. */
  function Declared(n: Node, w: Walk): Walk
    requires n.Decl? && w.Walk?
  {
    if n.isStatic || n.name == "" then w
    else w.(seen := w.seen + [Seen(n.name, if n.size > 0 then n.size else 4, |w.chain|, Top(w.chain))])
  }

  /** Into a block, and out of it. */
  function Entered(w: Walk): Walk
    requires w.Walk?
  {
    w.(chain := w.chain + [w.next + 1], next := w.next + 1)
  }

  function Left(r: Walk): Walk
  {
    if r.Overflow? || r.chain == [] then Overflow else r.(chain := r.chain[..|r.chain| - 1])
  }

  /** The first walk: too many nested blocks end the program. */
  function Collect(n: Node, w: Walk): Walk
    decreases n, 0
  {
    if w.Overflow? then w
    else match n
      case Block(stmts) => if |w.chain| >= MAX_SCOPES then Overflow else Left(CollectAll(stmts, Entered(w)))
      case Switch(_, stmts) => CollectAll(stmts, w)
      case If(_, a, b) => Collect(b, Collect(a, w))
      case While(_, b) => Collect(b, w)
      case DoWhile(b, _) => Collect(b, w)
      case For(a, _, _, b) => Collect(b, Collect(a, w))
      case Decl(_, _, _, _) => Declared(n, w)
      case Uses(_) => w
      case Other => w
  }

  function CollectAll(ns: seq<Node>, w: Walk): Walk
    decreases ns, 1
  {
    if ns == [] then w else CollectAll(ns[1..], Collect(ns[0], w))
  }

  /** The second walk: when the chain is full, a block is not entered, but left. */
  function Generate(n: Node, w: Walk): Walk
    decreases n, 0
  {
    if w.Overflow? then w
    else match n
      case Block(stmts) => Left(GenerateAll(stmts, if |w.chain| < MAX_SCOPES then Entered(w) else w))
      case Switch(_, stmts) => GenerateAll(stmts, w)
      case If(_, a, b) => Generate(b, Generate(a, w))
      case While(_, b) => Generate(b, w)
      case DoWhile(b, _) => Generate(b, w)
      case For(a, _, _, b) => Generate(b, Generate(a, w))
      case Decl(_, _, _, _) => Declared(n, w)
      case Uses(_) => w
      case Other => w
  }

  function GenerateAll(ns: seq<Node>, w: Walk): Walk
    decreases ns, 1
  {
    if ns == [] then w else GenerateAll(ns[1..], Generate(ns[0], w))
  }

  lemma {:induction false} OverflowStays(ns: seq<Node>)
    ensures CollectAll(ns, Overflow) == Overflow
    decreases |ns|
  {
    if ns != [] { OverflowStays(ns[1..]); }
  }

  /** Both walks see every declaration in the same block, unless blocks nest too deep;
      the open blocks are afterwards what they were. */
  lemma {:induction false} WalksAgree(n: Node, w: Walk)
    requires w.Walk? && Collect(n, w).Walk?
    ensures Generate(n, w) == Collect(n, w) && Collect(n, w).chain == w.chain
    decreases n, 0
  {
    match n
    case Block(stmts) =>
      AllAgree(stmts, Entered(w));
      assert Entered(w).chain[..|w.chain|] == w.chain;
    case Switch(_, stmts) => AllAgree(stmts, w);
    case If(_, a, b) => if Collect(a, w).Walk? { WalksAgree(a, w); WalksAgree(b, Collect(a, w)); }
    case While(_, b) => WalksAgree(b, w);
    case DoWhile(b, _) => WalksAgree(b, w);
    case For(a, _, _, b) => if Collect(a, w).Walk? { WalksAgree(a, w); WalksAgree(b, Collect(a, w)); }
    case _ =>
  }

  lemma {:induction false} AllAgree(ns: seq<Node>, w: Walk)
    requires w.Walk? && CollectAll(ns, w).Walk?
    ensures GenerateAll(ns, w) == CollectAll(ns, w) && CollectAll(ns, w).chain == w.chain
    decreases ns, 1
  {
    if ns != [] {
      if Collect(ns[0], w).Overflow? { OverflowStays(ns[1..]); }
      WalksAgree(ns[0], w);
      AllAgree(ns[1..], Collect(ns[0], w));
    }
  }

  // ----- The scopes of C -----

  /** A declaration with the number of its scope, and of its local variable; -1 if it is
      static. */
  datatype Scoped = Scoped(name: string, scope: nat, local: int)

  /** scopes holds the numbers of the open scopes, and locals counts local variables. */
  datatype View = View(scopes: seq<nat>, last: nat, decls: seq<Scoped>, locals: nat)

  function Inside(v: View): View { v.(scopes := v.scopes + [v.last + 1], last := v.last + 1) }

  function Outside(r: View, v: View): View { r.(scopes := v.scopes) }

  function Declare(n: Node, v: View): View
    requires n.Decl?
  {
    if n.name == "" then v
    else if n.isStatic then v.(decls := v.decls + [Scoped(n.name, Top(v.scopes), -1)])
    else v.(decls := v.decls + [Scoped(n.name, Top(v.scopes), v.locals)], locals := v.locals + 1)
  }

  /** Sections 6.2.1, 6.8.2, 6.8.4 and 6.8.5 of ISO C11: a compound statement is a scope, the
      one of a switch too, and so are a whole for statement, the body of every loop and the
      arms of an if. */
  function Named(n: Node, v: View): View
    decreases n, 0
  {
    match n
    case Block(stmts) => Outside(NamedAll(stmts, Inside(v)), v)
    case Switch(_, stmts) => Outside(NamedAll(stmts, Inside(v)), v)
    case If(_, a, b) => var v1 := Outside(Named(a, Inside(v)), v); Outside(Named(b, Inside(v1)), v1)
    case While(_, b) => Outside(Named(b, Inside(v)), v)
    case DoWhile(b, _) => Outside(Named(b, Inside(v)), v)
    case For(a, _, _, b) =>
      var v1 := Named(a, Inside(v));
      Outside(Outside(Named(b, Inside(v1)), v1), v)
    case Decl(_, _, _, _) => Declare(n, v)
    case Uses(_) => v
    case Other => v
  }

  function NamedAll(ns: seq<Node>, v: View): View
    decreases ns, 1
  {
    if ns == [] then v else NamedAll(ns[1..], Named(ns[0], v))
  }

  // ----- What names mean -----

  /** A place where a name is looked up: the open blocks of the program, the open scopes of
      C, and how many declarations stand before it. */
  datatype Look = Look(name: string, chain: seq<nat>, scopes: seq<nat>, before: nat)

  /** An expression at that place. */
  function At(names: seq<string>, w: Walk, v: View): (r: seq<Look>)
    requires w.Walk?
    ensures |r| == |names|
  {
    seq(|names|, k requires 0 <= k < |names| => Look(names[k], w.chain, v.scopes, |v.decls|))
  }

  /** The places in n, in the order in which code is generated.  A declaration with an
      initialiser looks up the names in it, which may be its own, and then itself. */
  function Looks(n: Node, w: Walk, v: View): seq<Look>
    decreases n, 0
  {
    if w.Overflow? then []
    else match n
      case Block(stmts) => LooksAll(stmts, if |w.chain| < MAX_SCOPES then Entered(w) else w, Inside(v))
      case Switch(cond, stmts) => At(cond, w, v) + LooksAll(stmts, w, Inside(v))
      case If(cond, a, b) =>
        At(cond, w, v) + (Looks(a, w, Inside(v)) + Looks(b, Generate(a, w), Inside(Outside(Named(a, Inside(v)), v))))
      case While(cond, b) => At(cond, w, v) + Looks(b, w, Inside(v))
      case DoWhile(b, cond) => Looks(b, w, Inside(v)) + LooksAfter(cond, Generate(b, w), Outside(Named(b, Inside(v)), v))
      case For(a, cond, step, b) =>
        var w1, v1 := Generate(a, w), Named(a, Inside(v));
        Looks(a, w, Inside(v)) + (LooksAfter(cond, w1, v1)
          + (Looks(b, w1, Inside(v1)) + LooksAfter(step, Generate(b, w1), Outside(Named(b, Inside(v1)), v1))))
      case Decl(name, _, _, init) =>
        if name == "" || init.NoInit? then [] else At(init.names + [name], Declared(n, w), Declare(n, v))
      case Uses(names) => At(names, w, v)
      case Other => []
  }

  function LooksAfter(names: seq<string>, w: Walk, v: View): seq<Look> { if w.Overflow? then [] else At(names, w, v) }

  function LooksAll(ns: seq<Node>, w: Walk, v: View): seq<Look>
    decreases ns, 1
  {
    if ns == [] then [] else Looks(ns[0], w, v) + LooksAll(ns[1..], Generate(ns[0], w), Named(ns[0], v))
  }

  /** The scope of a declaration is open. */
  predicate OpenIn(d: Scoped, scopes: seq<nat>) { d.scope == 0 || d.scope in scopes }

  /** The block of s is open for the program. */
  predicate Open(s: Seen, chain: seq<nat>) { s.id == 0 || s.id in chain }

  /** C: the name refers to declaration d, the last one of the innermost open scope that
      declares it before that place. */
  ghost predicate Means(decls: seq<Scoped>, p: Look, d: nat)
  {
    && d < p.before <= |decls| && decls[d].name == p.name && OpenIn(decls[d], p.scopes)
    && forall e :: 0 <= e < p.before && decls[e].name == p.name && OpenIn(decls[e], p.scopes) ==>
         decls[e].scope < decls[d].scope || (decls[e].scope == decls[d].scope && e <= d)
  }

  /** The local variable that C means: -1 for a static one, and for a name from outside the
      function. */
  ghost predicate Meant(decls: seq<Scoped>, p: Look, i: int)
  {
    (exists d: nat :: Means(decls, p, d) && decls[d].local == i) || (i == -1 && forall d: nat :: !Means(decls, p, d))
  }

  /** Every name at every place means exactly one thing. */
  lemma {:induction false} OneMeaning(decls: seq<Scoped>, p: Look, i: int, j: int)
    requires p.before <= |decls|
    ensures exists k :: Meant(decls, p, k)
    ensures Meant(decls, p, i) && Meant(decls, p, j) ==> i == j
  {
    if d: nat :| Means(decls, p, d) {
      assert Meant(decls, p, decls[d].local);
      if Meant(decls, p, i) && Meant(decls, p, j) {
        var a: nat :| Means(decls, p, a) && decls[a].local == i;
        var b: nat :| Means(decls, p, b) && decls[b].local == j;
        assert decls[a].name == decls[b].name;
      }
    } else {
      assert Meant(decls, p, -1);
    }
  }

  // ----- Scopes and blocks -----

  ghost predicate Grows(chain: seq<nat>, last: nat)
  {
    && (forall a, b :: 0 <= a < b < |chain| ==> chain[a] < chain[b])
    && forall a :: 0 <= a < |chain| ==> 0 < chain[a] <= last
  }

  /** Block numbers grow along the chain, and each local knows the depth of its block. */
  ghost predicate Orderly(w: Walk)
  {
    w.Walk? ==>
      && Grows(w.chain, w.next)
      && (forall i :: 0 <= i < |w.seen| ==> w.seen[i].id <= w.next && (w.seen[i].id == 0 ==> w.seen[i].depth == 0))
      && (forall i, a :: 0 <= i < |w.seen| && 0 <= a < |w.chain| && w.seen[i].id == w.chain[a] ==> w.seen[i].depth == a + 1)
  }

  /** A declared local is in the table under its name. */
  ghost predicate Listed(decls: seq<Scoped>, seen: seq<Seen>, n: nat)
  {
    n <= |decls| && forall d :: 0 <= d < n ==>
      decls[d].local == -1 || (0 <= decls[d].local < |seen| && seen[decls[d].local].name == decls[d].name)
  }

  /** The program's walk and C's: what is open in C is open for the program. */
  ghost predicate Agree(w: Walk, v: View)
  {
    && w.Walk? && Orderly(w) && |w.seen| == v.locals && Listed(v.decls, w.seen, |v.decls|) && Grows(v.scopes, v.last)
    && (forall d :: 0 <= d < |v.decls| ==> v.decls[d].scope <= v.last)
    && forall d :: 0 <= d < |v.decls| && v.decls[d].local >= 0 && OpenIn(v.decls[d], v.scopes) ==>
         Open(w.seen[v.decls[d].local], w.chain)
  }

  /** From one place to a later one in the same scope: new declarations are in this scope or
      in new ones. */
  ghost predicate After(w: Walk, v: View, w1: Walk, v1: View)
  {
    && w.Walk? && w1.Walk? && Agree(w1, v1)
    && w1.chain == w.chain && v1.scopes == v.scopes && w.next <= w1.next && v.last <= v1.last
    && w.seen <= w1.seen && v.decls <= v1.decls
    && forall d :: |v.decls| <= d < |v1.decls| ==> v1.decls[d].scope == Top(v.scopes) || v1.decls[d].scope > v.last
  }

  lemma {:induction false} AfterSelf(w: Walk, v: View)
    requires Agree(w, v)
    ensures After(w, v, w, v)
  {
  }

  lemma {:induction false} AfterThen(w: Walk, v: View, w1: Walk, v1: View, w2: Walk, v2: View)
    requires After(w, v, w1, v1) && After(w1, v1, w2, v2)
    ensures After(w, v, w2, v2)
  {
    hide Agree, Top;
    forall d | |v.decls| <= d < |v2.decls| ensures v2.decls[d].scope == Top(v.scopes) || v2.decls[d].scope > v.last {
      if d < |v1.decls| { assert v2.decls[d] == v1.decls[d]; }
    }
  }

  /** A scope that is no block of the program. */
  lemma {:induction false} ScopeOpens(w: Walk, v: View)
    requires Agree(w, v)
    ensures Agree(w, Inside(v))
  {
    hide Orderly, Listed, Open;
  }

  /** Declarations of an inner scope are not open behind it. */
  lemma {:induction false} ScopeCloses(w: Walk, v: View, w1: Walk, r: View)
    requires Agree(w, v) && After(w, Inside(v), w1, r)
    ensures After(w, v, w1, Outside(r, v))
  {
    hide Orderly, Listed, Open;
    NewScope(v);
    forall d | 0 <= d < |r.decls| && r.decls[d].local >= 0 && OpenIn(r.decls[d], v.scopes)
      ensures r.decls[d].local < |w1.seen| && Open(w1.seen[r.decls[d].local], w1.chain)
    {
      StillListed(r, w1, d);
      if d < |v.decls| { StillListed(v, w, d); assert r.decls[d] == v.decls[d]; }
    }
    LowerGrows(v.scopes, v.last, r.last);
  }

  lemma {:induction false} NewScope(v: View)
    ensures Top(Inside(v).scopes) == v.last + 1
  {
  }

  lemma {:induction false} StillListed(v: View, w: Walk, d: nat)
    requires w.Walk? && Listed(v.decls, w.seen, |v.decls|) && d < |v.decls|
    ensures v.decls[d].local < |w.seen|
  {
  }

  lemma {:induction false} LowerGrows(chain: seq<nat>, last: nat, more: nat)
    requires Grows(chain, last) && last <= more
    ensures Grows(chain, more)
  {
  }

  /** A block is a scope of both. */
  lemma {:induction false} BlockOpens(w: Walk, v: View)
    requires Agree(w, v)
    ensures Agree(Entered(w), Inside(v))
  {
    hide Listed;
    EnterOrderly(w);
  }

  lemma {:induction false} BlockCloses(w: Walk, v: View, r: Walk, s: View)
    requires Agree(w, v) && After(Entered(w), Inside(v), r, s)
    ensures Left(r).Walk? && After(w, v, Left(r), Outside(s, v))
  {
    hide Orderly, Listed, Open;
    assert Entered(w).chain[..|w.chain|] == w.chain;
    LeaveOrderly(r);
    NewScope(v);
    forall d | 0 <= d < |s.decls| && s.decls[d].local >= 0 && OpenIn(s.decls[d], v.scopes)
      ensures s.decls[d].local < |r.seen| && Open(r.seen[s.decls[d].local], w.chain)
    {
      StillListed(s, r, d);
      if d < |v.decls| { StillListed(v, w, d); assert s.decls[d] == v.decls[d]; }
    }
    LowerGrows(v.scopes, v.last, s.last);
  }

  lemma {:induction false} EnterOrderly(w: Walk)
    requires w.Walk? && Orderly(w)
    ensures Orderly(Entered(w))
  {
  }

  lemma {:induction false} LeaveOrderly(w: Walk)
    requires w.Walk? && Orderly(w) && w.chain != []
    ensures Orderly(w.(chain := w.chain[..|w.chain| - 1]))
  {
  }

  lemma {:induction false} DeclareOrderly(n: Node, w: Walk)
    requires n.Decl? && w.Walk? && Orderly(w)
    ensures Orderly(Declared(n, w)) && w.seen <= Declared(n, w).seen
  {
    if !n.isStatic && n.name != "" && w.chain != [] {
      var t := |w.chain| - 1;
      assert forall a :: 0 <= a < t ==> w.chain[a] < w.chain[t];
    }
  }

  lemma {:induction false} DeclareAfter(n: Node, w: Walk, v: View)
    requires n.Decl? && Agree(w, v)
    ensures After(w, v, Declared(n, w), Declare(n, v))
  {
    hide Orderly;
    DeclareOrderly(n, w);
    TopOf(w.chain); TopOf(v.scopes);
    assert Grows(v.scopes, v.last) ==> Top(v.scopes) <= v.last;
  }

  lemma {:induction false} TopOf(chain: seq<nat>)
    ensures if chain == [] then Top(chain) == 0 else Top(chain) in chain
  {
  }

  /** Every node leads from its place to the place behind it. */
  lemma {:induction false} Keeps(n: Node, w: Walk, v: View)
    requires Agree(w, v) && Collect(n, w).Walk?
    ensures After(w, v, Generate(n, w), Named(n, v))
    decreases n, 0, 1
  {
    hide Agree, After, Declared, Declare;
    AgreeWalk(w, v);
    match n
    case Block(stmts) =>
      BlockOpens(w, v);
      AllKeep(stmts, Entered(w), Inside(v));
      BlockCloses(w, v, GenerateAll(stmts, Entered(w)), NamedAll(stmts, Inside(v)));
    case Switch(_, stmts) =>
      ScopeOpens(w, v);
      AllKeep(stmts, w, Inside(v));
      ScopeCloses(w, v, GenerateAll(stmts, w), NamedAll(stmts, Inside(v)));
    case If(_, a, b) =>
      WalksAgree(a, w);
      InnerKeeps(n, a, w, v);
      var w1, v1 := Generate(a, w), Outside(Named(a, Inside(v)), v);
      InnerKeeps(n, b, w1, v1);
      AfterThen(w, v, w1, v1, Generate(b, w1), Outside(Named(b, Inside(v1)), v1));
    case While(_, b) => InnerKeeps(n, b, w, v);
    case DoWhile(b, _) => InnerKeeps(n, b, w, v);
    case For(a, _, _, b) =>
      WalksAgree(a, w);
      ScopeOpens(w, v);
      Keeps(a, w, Inside(v));
      var w1, v1 := Generate(a, w), Named(a, Inside(v));
      AfterAgree(w, Inside(v), w1, v1);
      InnerKeeps(n, b, w1, v1);
      AfterThen(w, Inside(v), w1, v1, Generate(b, w1), Outside(Named(b, Inside(v1)), v1));
      ScopeCloses(w, v, Generate(b, w1), Outside(Named(b, Inside(v1)), v1));
    case Decl(_, _, _, _) => DeclareAfter(n, w, v);
    case Uses(_) => AfterSelf(w, v);
    case Other => AfterSelf(w, v);
  }

  lemma {:induction false} AgreeWalk(w: Walk, v: View)
    requires Agree(w, v)
    ensures w.Walk?
  {
  }

  lemma {:induction false} AfterAgree(w: Walk, v: View, w1: Walk, v1: View)
    requires After(w, v, w1, v1)
    ensures Agree(w1, v1) && w1.Walk? && w1.chain == w.chain && v1.scopes == v.scopes && w.seen <= w1.seen && v.decls <= v1.decls
  {
  }

  /** A substatement that is a scope of its own. */
  lemma {:induction false} InnerKeeps(n: Node, b: Node, w: Walk, v: View)
    requires b < n && Agree(w, v) && Collect(b, w).Walk?
    ensures After(w, v, Generate(b, w), Outside(Named(b, Inside(v)), v)) && Agree(Generate(b, w), Outside(Named(b, Inside(v)), v))
    decreases n, 0, 0
  {
    hide Agree, After, Collect, Generate, Named;
    ScopeOpens(w, v);
    Keeps(b, w, Inside(v));
    ScopeCloses(w, v, Generate(b, w), Named(b, Inside(v)));
    AfterAgree(w, v, Generate(b, w), Outside(Named(b, Inside(v)), v));
  }

  lemma {:induction false} AllKeep(ns: seq<Node>, w: Walk, v: View)
    requires Agree(w, v) && CollectAll(ns, w).Walk?
    ensures After(w, v, GenerateAll(ns, w), NamedAll(ns, v))
    decreases ns, 1, 0
  {
    hide Agree, After, Collect, Generate, Named;
    AgreeWalk(w, v);
    if ns == [] {
      AfterSelf(w, v);
    } else {
      if Collect(ns[0], w).Overflow? { OverflowStays(ns[1..]); }
      WalksAgree(ns[0], w);
      Keeps(ns[0], w, v);
      var w1, v1 := Generate(ns[0], w), Named(ns[0], v);
      AfterAgree(w, v, w1, v1);
      AllKeep(ns[1..], w1, v1);
      AfterThen(w, v, w1, v1, GenerateAll(ns[1..], w1), NamedAll(ns[1..], v1));
    }
  }

  /** At place p every local that is open in C is in the table under its name, with an open
      depth and number. */
  ghost predicate Settled(seen: seq<Seen>, decls: seq<Scoped>, p: Look)
  {
    Listed(decls, seen, p.before) && forall d :: 0 <= d < p.before && decls[d].local >= 0 && OpenIn(decls[d], p.scopes) ==>
      seen[decls[d].local].depth <= |p.chain| && seen[decls[d].local].id <= Top(p.chain)
  }

  ghost predicate AllSettled(seen: seq<Seen>, decls: seq<Scoped>, ps: seq<Look>)
  {
    forall k :: 0 <= k < |ps| ==> Settled(seen, decls, ps[k])
  }

  lemma {:induction false} AgreeSettled(w: Walk, v: View, seen: seq<Seen>, decls: seq<Scoped>, p: Look)
    requires Agree(w, v) && w.seen <= seen && v.decls <= decls
    requires p.chain == w.chain && p.scopes == v.scopes && p.before == |v.decls|
    ensures Settled(seen, decls, p)
  {
    forall d | 0 <= d < p.before
      ensures decls[d].local == -1 || (0 <= decls[d].local < |seen| && seen[decls[d].local].name == decls[d].name)
      ensures decls[d].local >= 0 && OpenIn(decls[d], p.scopes) ==>
        seen[decls[d].local].depth <= |p.chain| && seen[decls[d].local].id <= Top(p.chain)
    {
      assert decls[d] == v.decls[d];
      if decls[d].local >= 0 {
        var i := decls[d].local;
        assert seen[i] == w.seen[i];
        if OpenIn(decls[d], p.scopes) { OpenBelow(w, i); }
      }
    }
  }

  lemma {:induction false} OpenBelow(w: Walk, i: nat)
    requires w.Walk? && Orderly(w) && i < |w.seen| && Open(w.seen[i], w.chain)
    ensures w.seen[i].depth <= |w.chain| && w.seen[i].id <= Top(w.chain)
  {
    if w.seen[i].id != 0 {
      var a :| 0 <= a < |w.chain| && w.chain[a] == w.seen[i].id;
      assert a < |w.chain| - 1 ==> w.chain[a] < w.chain[|w.chain| - 1];
    }
  }

  /** The names of an expression. */
  lemma {:induction false} AtSettled(names: seq<string>, w: Walk, v: View, seen: seq<Seen>, decls: seq<Scoped>)
    requires Agree(w, v) && w.Walk? && w.seen <= seen && v.decls <= decls
    ensures AllSettled(seen, decls, At(names, w, v))
  {
    hide Agree, Settled;
    forall k | 0 <= k < |names| ensures Settled(seen, decls, At(names, w, v)[k]) {
      AgreeSettled(w, v, seen, decls, At(names, w, v)[k]);
    }
  }

  lemma {:induction false} BothSettled(seen: seq<Seen>, decls: seq<Scoped>, a: seq<Look>, b: seq<Look>)
    requires AllSettled(seen, decls, a) && AllSettled(seen, decls, b)
    ensures AllSettled(seen, decls, a + b)
  {
    hide Settled;
  }

  /** Every place in n is settled. */
  lemma {:induction false} LooksSettled(n: Node, w: Walk, v: View, seen: seq<Seen>, decls: seq<Scoped>)
    requires Agree(w, v) && Collect(n, w).Walk? && Generate(n, w).Walk?
    requires Generate(n, w).seen <= seen && Named(n, v).decls <= decls
    ensures AllSettled(seen, decls, Looks(n, w, v))
    decreases n, 0, 3
  {
    hide Agree, After, Declared, Declare, Settled, AllSettled, At, Outside, Inside;
    AgreeWalk(w, v);
    Keeps(n, w, v);
    AfterAgree(w, v, Generate(n, w), Named(n, v));
    match n
    case Block(stmts) =>
      BlockOpens(w, v);
      SameDecls(NamedAll(stmts, Inside(v)), v);
      ListSettled(stmts, Entered(w), Inside(v), seen, decls);
    case Switch(cond, stmts) =>
      ScopeOpens(w, v);
      AtSettled(cond, w, v, seen, decls);
      SameDecls(NamedAll(stmts, Inside(v)), v);
      ListSettled(stmts, w, Inside(v), seen, decls);
      BothSettled(seen, decls, At(cond, w, v), LooksAll(stmts, w, Inside(v)));
    case If(cond, a, b) =>
      AtSettled(cond, w, v, seen, decls);
      ArmsSettled(n, a, b, w, v, seen, decls);
      BothSettled(seen, decls, At(cond, w, v), Looks(a, w, Inside(v)) + Looks(b, Generate(a, w), Inside(Outside(Named(a, Inside(v)), v))));
    case While(cond, b) =>
      AtSettled(cond, w, v, seen, decls);
      InnerSettled(n, b, w, v, seen, decls);
      BothSettled(seen, decls, At(cond, w, v), Looks(b, w, Inside(v)));
    case DoWhile(b, cond) =>
      InnerSettled(n, b, w, v, seen, decls);
      InnerKeeps(n, b, w, v);
      AtSettled(cond, Generate(b, w), Outside(Named(b, Inside(v)), v), seen, decls);
      BothSettled(seen, decls, Looks(b, w, Inside(v)), At(cond, Generate(b, w), Outside(Named(b, Inside(v)), v)));
    case For(_, _, _, _) => ForSettled(n, w, v, seen, decls);
    case Decl(name, _, _, init) =>
      if name != "" && init.Init? { AtSettled(init.names + [name], Declared(n, w), Declare(n, v), seen, decls); }
      else { NoneSettled(seen, decls); }
    case Uses(names) => AtSettled(names, w, v, seen, decls);
    case Other => NoneSettled(seen, decls);
  }

  lemma {:induction false} NoneSettled(seen: seq<Seen>, decls: seq<Scoped>)
    ensures AllSettled(seen, decls, [])
  {
  }

  lemma {:induction false} SameDecls(r: View, v: View)
    ensures Outside(r, v).decls == r.decls && Inside(v).decls == v.decls
  {
  }

  lemma {:induction false} InnerSettled(n: Node, b: Node, w: Walk, v: View, seen: seq<Seen>, decls: seq<Scoped>)
    requires b < n && Agree(w, v) && Collect(b, w).Walk? && Generate(b, w).Walk?
    requires Generate(b, w).seen <= seen && Outside(Named(b, Inside(v)), v).decls <= decls
    ensures AllSettled(seen, decls, Looks(b, w, Inside(v)))
    decreases n, 0, 0
  {
    hide Agree, Collect, Generate, Named, AllSettled, Looks, Outside, Inside;
    ScopeOpens(w, v);
    SameDecls(Named(b, Inside(v)), v);
    LooksSettled(b, w, Inside(v), seen, decls);
  }

  lemma {:induction false} ArmsSettled(n: Node, a: Node, b: Node, w: Walk, v: View, seen: seq<Seen>, decls: seq<Scoped>)
    requires a < n && b < n && Agree(w, v) && Collect(a, w).Walk? && Collect(b, Collect(a, w)).Walk?
    requires var w1, v1 := Generate(a, w), Outside(Named(a, Inside(v)), v);
      Generate(b, w1).Walk? && Generate(b, w1).seen <= seen && Outside(Named(b, Inside(v1)), v1).decls <= decls
    ensures var v1 := Outside(Named(a, Inside(v)), v);
      AllSettled(seen, decls, Looks(a, w, Inside(v)) + Looks(b, Generate(a, w), Inside(v1)))
    decreases n, 0, 1
  {
    hide Agree, After, Collect, Generate, Named, AllSettled, Looks, Outside, Inside;
    AgreeWalk(w, v);
    var w1, v1 := Generate(a, w), Outside(Named(a, Inside(v)), v);
    WalksAgree(a, w);
    InnerKeeps(n, a, w, v);
    InnerKeeps(n, b, w1, v1);
    AfterAgree(w1, v1, Generate(b, w1), Outside(Named(b, Inside(v1)), v1));
    InnerSettled(n, a, w, v, seen, decls);
    InnerSettled(n, b, w1, v1, seen, decls);
    BothSettled(seen, decls, Looks(a, w, Inside(v)), Looks(b, w1, Inside(v1)));
  }

  lemma {:induction false} ForSettled(n: Node, w: Walk, v: View, seen: seq<Seen>, decls: seq<Scoped>)
    requires n.For? && Agree(w, v) && Collect(n, w).Walk? && Generate(n, w).Walk?
    requires Generate(n, w).seen <= seen && Named(n, v).decls <= decls
    ensures AllSettled(seen, decls, Looks(n, w, v))
    decreases n, 0, 2
  {
    hide Agree, After, Settled, AllSettled, At, Outside, Inside;
    var a, b := n.start, n.body;
    AgreeWalk(w, v);
    ScopeOpens(w, v);
    var v0 := Inside(v);
    var w1, v1 := Generate(a, w), Named(a, v0);
    WalksAgree(a, w);
    Keeps(a, w, v0);
    AfterAgree(w, v0, w1, v1);
    InnerKeeps(n, b, w1, v1);
    var w2, v2 := Generate(b, w1), Outside(Named(b, Inside(v1)), v1);
    AfterAgree(w1, v1, w2, v2);
    SameDecls(v2, v);
    LooksSettled(a, w, v0, seen, decls);
    AtSettled(n.cond, w1, v1, seen, decls);
    InnerSettled(n, b, w1, v1, seen, decls);
    AtSettled(n.step, w2, v2, seen, decls);
    BothSettled(seen, decls, Looks(b, w1, Inside(v1)), At(n.step, w2, v2));
    BothSettled(seen, decls, At(n.cond, w1, v1), Looks(b, w1, Inside(v1)) + At(n.step, w2, v2));
    BothSettled(seen, decls, Looks(a, w, v0), At(n.cond, w1, v1) + (Looks(b, w1, Inside(v1)) + At(n.step, w2, v2)));
  }

  lemma {:induction false} ListSettled(ns: seq<Node>, w: Walk, v: View, seen: seq<Seen>, decls: seq<Scoped>)
    requires Agree(w, v) && CollectAll(ns, w).Walk? && GenerateAll(ns, w).Walk?
    requires GenerateAll(ns, w).seen <= seen && NamedAll(ns, v).decls <= decls
    ensures AllSettled(seen, decls, LooksAll(ns, w, v))
    decreases ns, 1, 0
  {
    hide Agree, After, Collect, Generate, Named, AllSettled, Looks;
    AgreeWalk(w, v);
    if ns == [] {
      NoneSettled(seen, decls);
    } else {
      if Collect(ns[0], w).Overflow? { OverflowStays(ns[1..]); }
      WalksAgree(ns[0], w);
      Keeps(ns[0], w, v);
      var w1, v1 := Generate(ns[0], w), Named(ns[0], v);
      AfterAgree(w, v, w1, v1);
      AllKeep(ns[1..], w1, v1);
      AfterAgree(w1, v1, GenerateAll(ns[1..], w1), NamedAll(ns[1..], v1));
      LooksSettled(ns[0], w, v, seen, decls);
      ListSettled(ns[1..], w1, v1, seen, decls);
      BothSettled(seen, decls, Looks(ns[0], w, v), LooksAll(ns[1..], w1, v1));
    }
  }

  // ----- Slots -----

  /** The frame after the first k declarations. */
  function Frame(seen: seq<Seen>, k: nat): nat
    requires k <= |seen|
  {
    if k == 0 then 0 else Frame(seen, k - 1) + seen[k - 1].size
  }

  /** The slot of declaration k, below the frame pointer. */
  function Offset(seen: seq<Seen>, k: nat): int
    requires k < |seen|
  {
    0 - Frame(seen, k + 1)
  }

  lemma {:induction false} FrameGrows(seen: seq<Seen>, i: nat, j: nat)
    requires i <= j <= |seen|
    ensures Frame(seen, i) <= Frame(seen, j)
    decreases j
  {
    if i < j { FrameGrows(seen, i, j - 1); }
  }

  /** Slots lie inside the frame and do not overlap. */
  lemma {:induction false} SlotsApart(seen: seq<Seen>, i: nat, j: nat)
    requires i < j < |seen|
    ensures 0 - Frame(seen, |seen|) <= Offset(seen, i) && Offset(seen, i) + seen[i].size <= 0
    ensures 0 - Frame(seen, |seen|) <= Offset(seen, j) && Offset(seen, j) + seen[j].size <= Offset(seen, i)
  {
    FrameGrows(seen, i + 1, |seen|); FrameGrows(seen, j + 1, |seen|); FrameGrows(seen, i + 1, j);
  }

  /** Every byte of the frame belongs to a slot. */
  lemma {:induction false} FrameFilled(seen: seq<Seen>, n: nat, b: int) returns (k: nat)
    requires n <= |seen| && 0 - Frame(seen, n) <= b < 0
    ensures k < n && Offset(seen, k) <= b < Offset(seen, k) + seen[k].size
    decreases n
  {
    if b < 0 - Frame(seen, n - 1) { k := n - 1; } else { k := FrameFilled(seen, n - 1, b); }
  }

  // ----- Looking up -----

  /** Whether variable s answers to a name used at that depth inside block top. */
  predicate Answers(s: Seen, name: string, depth: nat, top: nat)
  {
    s.name == name && s.depth <= depth && (s.id == 0 || s.id <= top)
  }

  /** The search from the last local backwards; -1 when none answers. */
  function Search(seen: seq<Seen>, name: string, depth: nat, top: nat, k: nat): int
    requires k <= |seen|
    decreases k
  {
    if k == 0 then -1
    else if Answers(seen[k - 1], name, depth, top) then k - 1
    else Search(seen, name, depth, top, k - 1)
  }

  /** The second search, when the first one finds nothing: any block of that depth. */
  function Fallback(seen: seq<Seen>, name: string, depth: nat, k: nat): int
    requires k <= |seen|
    decreases k
  {
    if k == 0 then -1
    else if seen[k - 1].name == name && seen[k - 1].depth <= depth then k - 1
    else Fallback(seen, name, depth, k - 1)
  }

  /** What a name means at that depth inside block top. */
  function Lookup(seen: seq<Seen>, name: string, depth: nat, top: nat): int
  {
    var i := Search(seen, name, depth, top, |seen|);
    if i >= 0 then i else Fallback(seen, name, depth, |seen|)
  }

  lemma {:induction false} SearchIs(seen: seq<Seen>, name: string, depth: nat, top: nat, k: nat, i: nat)
    requires i < k <= |seen| && Answers(seen[i], name, depth, top)
    ensures Search(seen, name, depth, top, k) == i
      <==> forall j :: i < j < k ==> !Answers(seen[j], name, depth, top)
    ensures Search(seen, name, depth, top, k) >= i
    decreases k
  {
    if i < k - 1 { SearchIs(seen, name, depth, top, k - 1, i); }
  }

  const START: Walk := Walk([], 0, [])
  const NO_NAMES: View := View([], 0, [], 0)

  /** The table of a function, the declarations as C sees them, and the places. */
  function Body(body: Node): Walk { Collect(body, START) }

  function Decls(body: Node): seq<Scoped> { Named(body, NO_NAMES).decls }

  function Places(body: Node): seq<Look> { Looks(body, START, NO_NAMES) }

  /** What the search finds at a place. */
  function Found(locals: seq<Seen>, p: Look): int { Lookup(locals, p.name, |p.chain|, Top(p.chain)) }

  lemma {:induction false} PlaceSettled(body: Node, q: nat)
    requires Body(body).Walk? && q < |Places(body)|
    ensures Settled(Body(body).seen, Decls(body), Places(body)[q])
  {
    hide Collect, Generate, Looks, Named, Settled;
    WalksAgree(body, START);
    assert Agree(START, NO_NAMES);
    LooksSettled(body, START, NO_NAMES, Body(body).seen, Decls(body));
  }

  /** Nothing hides variable i at place p.  If it is a local, no later local of that name,
      wherever it is declared, is at most as deep as p and belongs to a block that was opened
      no later than the innermost open one.  If it is none, no local of that name at all is at
      most as deep. */
  ghost predicate Clear(seen: seq<Seen>, p: Look, i: int)
  {
    forall j :: 0 <= j < |seen| && i < j && seen[j].name == p.name ==>
      seen[j].depth > |p.chain| || (i >= 0 && seen[j].id != 0 && seen[j].id > Top(p.chain))
  }

  /** Everywhere in a function: the variable that C means is found if and only if nothing
      hides it. */
  lemma {:induction false} UseFound(body: Node, q: nat, i: int)
    requires Body(body).Walk? && q < |Places(body)| && Meant(Decls(body), Places(body)[q], i)
    ensures Found(Body(body).seen, Places(body)[q]) == i <==> Clear(Body(body).seen, Places(body)[q], i)
  {
    hide Collect, Looks, Named, Fallback, Search;
    var seen, decls, p := Body(body).seen, Decls(body), Places(body)[q];
    PlaceSettled(body, q);
    if i < 0 {
      MeantBelow(seen, decls, p, i);
      OutsideFound(seen, p);
    } else {
      MeantAnswers(seen, decls, p, i);
      SearchIs(seen, p.name, |p.chain|, Top(p.chain), |seen|, i);
      if forall j :: i < j < |seen| ==> !Answers(seen[j], p.name, |p.chain|, Top(p.chain)) {
        forall j | 0 <= j < |seen| && i < j && seen[j].name == p.name
          ensures seen[j].depth > |p.chain| || (i >= 0 && seen[j].id != 0 && seen[j].id > Top(p.chain))
        {
          assert !Answers(seen[j], p.name, |p.chain|, Top(p.chain));
        }
      }
    }
  }

  lemma {:induction false} MeantBelow(seen: seq<Seen>, decls: seq<Scoped>, p: Look, i: int)
    requires Settled(seen, decls, p) && Meant(decls, p, i) && i < 0
    ensures i == -1
  {
  }

  lemma {:induction false} MeantAnswers(seen: seq<Seen>, decls: seq<Scoped>, p: Look, i: int)
    requires Settled(seen, decls, p) && Meant(decls, p, i) && i >= 0
    ensures i < |seen| && Answers(seen[i], p.name, |p.chain|, Top(p.chain))
  {
    var d: nat :| Means(decls, p, d) && decls[d].local == i;
  }

  /** A name is not found among the locals if and only if no local of that name, in whatever
      block, is at most as deep. */
  lemma {:induction false} OutsideFound(seen: seq<Seen>, p: Look)
    ensures Found(seen, p) == -1 <==> Clear(seen, p, -1)
  {
    SearchNone(seen, p.name, |p.chain|, Top(p.chain), |seen|);
    FallbackNone(seen, p.name, |p.chain|, |seen|);
  }

  lemma {:induction false} SearchNone(seen: seq<Seen>, name: string, depth: nat, top: nat, k: nat)
    requires k <= |seen|
    ensures Search(seen, name, depth, top, k) >= 0 ==> exists j :: 0 <= j < k && seen[j].name == name && seen[j].depth <= depth
    ensures Search(seen, name, depth, top, k) >= -1
    decreases k
  {
    if k > 0 { SearchNone(seen, name, depth, top, k - 1); }
  }

  lemma {:induction false} FallbackNone(seen: seq<Seen>, name: string, depth: nat, k: nat)
    requires k <= |seen|
    ensures Fallback(seen, name, depth, k) == -1 <==> forall j :: 0 <= j < k && seen[j].name == name ==> seen[j].depth > depth
    ensures Fallback(seen, name, depth, k) >= -1
    decreases k
  {
    if k > 0 { FallbackNone(seen, name, depth, k - 1); }
  }

  /** With one local of each name every local that C means is found. */
  lemma {:induction false} DistinctFound(body: Node, q: nat, i: int)
    requires Body(body).Walk? && q < |Places(body)| && Meant(Decls(body), Places(body)[q], i) && i >= 0
    requires var seen := Body(body).seen; forall a, b :: 0 <= a < b < |seen| ==> seen[a].name != seen[b].name
    ensures Found(Body(body).seen, Places(body)[q]) == i
  {
    hide Collect, Looks, Named, Lookup;
    UseFound(body, q, i);
    PlaceSettled(body, q);
    MeantAnswers(Body(body).seen, Decls(body), Places(body)[q], i);
  }

  // ----- The program -----

  class Function {
    var chain: seq<nat>
    var next: nat
    var frameSize: nat
    var locals: seq<Seen>
    var offsets: seq<int>

    constructor ()
      ensures chain == [] && next == 0 && locals == [] && offsets == [] && frameSize == 0
    {
      chain, next, frameSize, locals, offsets := [], 0, 0, [], [];
    }

    /** Every local has its slot. */
    ghost predicate Placed()
      reads this
    {
      && |offsets| == |locals| && frameSize == Frame(locals, |locals|)
      && forall k :: 0 <= k < |locals| ==> offsets[k] == Offset(locals, k)
    }

    ghost function State(): (w: Walk)
      reads this
      ensures w.Walk?
    {
      Walk(chain, next, locals)
    }

    /** The first walk; false when blocks nest too deep. */
    method CollectLocals(n: Node) returns (ok: bool)
      requires Placed()
      modifies this
      ensures ok <==> Collect(n, old(State())).Walk?
      ensures ok ==> Placed() && State() == Collect(n, old(State()))
      decreases n, 0
    {
      ok := true;
      match n {
        case Block(stmts) =>
          if |chain| >= MAX_SCOPES { return false; }
          next := next + 1;
          chain := chain + [next];
          ghost var inner := State();
          ok := CollectList(stmts);
          if !ok { return; }
          AllAgree(stmts, inner);
          chain := chain[..|chain| - 1];
        case Decl(name, size, isStatic, _) =>
          if !isStatic && name != "" { Add(name, if size > 0 then size else 4); }
        case If(_, a, b) =>
          ok := CollectLocals(a);
          if ok { ok := CollectLocals(b); }
        case While(_, b) => ok := CollectLocals(b);
        case For(a, _, _, b) =>
          ok := CollectLocals(a);
          if ok { ok := CollectLocals(b); }
        case DoWhile(b, _) => ok := CollectLocals(b);
        case Switch(_, stmts) => ok := CollectList(stmts);
        case Uses(_) =>
        case Other =>
      }
    }

    method CollectList(ns: seq<Node>) returns (ok: bool)
      requires Placed()
      modifies this
      ensures ok <==> CollectAll(ns, old(State())).Walk?
      ensures ok ==> Placed() && State() == CollectAll(ns, old(State()))
      decreases ns, 1
    {
      ok := true;
      if |ns| > 0 {
        ok := CollectLocals(ns[0]);
        if ok { ok := CollectList(ns[1..]); } else { OverflowStays(ns[1..]); }
      }
    }

    /** A slot for one more local. */
    method Add(name: string, size: nat)
      requires Placed()
      modifies this
      ensures Placed() && State() == Walk(old(chain), old(next), old(locals) + [Seen(name, size, |old(chain)|, Top(old(chain)))])
    {
      ghost var before := locals;
      frameSize := frameSize + size;
      locals := locals + [Seen(name, size, |chain|, Top(chain))];
      offsets := offsets + [0 - frameSize];
      SameFrame(before, locals, |before|);
      forall k | 0 <= k < |locals| ensures offsets[k] == Offset(locals, k) {
        if k < |before| { SameFrame(before, locals, k + 1); }
      }
    }

    /** Looks a name up in the innermost open block. */
    method SearchLocal(name: string) returns (i: int)
      ensures i == Lookup(locals, name, |chain|, Top(chain))
    {
      i := |locals| - 1;
      while i >= 0
        invariant -1 <= i < |locals|
        invariant Search(locals, name, |chain|, Top(chain), |locals|) == Search(locals, name, |chain|, Top(chain), i + 1)
      {
        if Answers(locals[i], name, |chain|, Top(chain)) { return; }
        i := i - 1;
      }
      i := |locals| - 1;
      while i >= 0
        invariant -1 <= i < |locals| && Fallback(locals, name, |chain|, |locals|) == Fallback(locals, name, |chain|, i + 1)
      {
        if locals[i].name == name && locals[i].depth <= |chain| { return; }
        i := i - 1;
      }
    }

    /** The names of an expression, one after the other. */
    method SearchAll(names: seq<string>, ghost w: Walk, ghost v: View) returns (found: seq<int>)
      requires w.Walk? && w.chain == chain
      ensures found == AllFound(locals, At(names, w, v))
    {
      hide Lookup;
      found := [];
      var k := 0;
      while k < |names|
        invariant k <= |names| && |found| == k
        invariant forall j :: 0 <= j < k ==> found[j] == Lookup(locals, names[j], |chain|, Top(chain))
      {
        var i := SearchLocal(names[k]);
        found := found + [i];
        k := k + 1;
      }
    }

    /** The second walk: the local that is found at each place.  seen and v stand for the
        declarations passed so far. */
    method GenerateStores(n: Node, ghost seen: seq<Seen>, ghost v: View) returns (found: seq<int>)
      requires Generate(n, Walk(chain, next, seen)).Walk?
      modifies `chain, `next
      ensures var w := Generate(n, Walk(old(chain), old(next), seen)); chain == w.chain && next == w.next
      ensures found == AllFound(locals, Looks(n, Walk(old(chain), old(next), seen), v))
      decreases n, 1
    {
      hide Lookup, AllFound, At, Named;
      NoneFound(locals);
      found := [];
      ghost var w := Walk(chain, next, seen);
      match n {
        case Block(stmts) =>
          if |chain| < MAX_SCOPES {
            next := next + 1;
            chain := chain + [next];
          }
          found := GenerateList(stmts, seen, Inside(v));
          chain := chain[..|chain| - 1];
        case Decl(name, _, _, init) =>
          if name != "" && init.Init? { found := SearchAll(init.names + [name], Declared(n, w), Declare(n, v)); }
        case Uses(names) => found := SearchAll(names, w, v);
        case If(cond, a, b) =>
          GenerateEnds(n, a, b, w);
          var x := SearchAll(cond, w, v);
          var y := GenerateStores(a, seen, Inside(v));
          ghost var w1, v1 := Generate(a, w), Outside(Named(a, Inside(v)), v);
          var z := GenerateStores(b, w1.seen, Inside(v1));
          found := x + (y + z);
          TwoFound(locals, Looks(a, w, Inside(v)), Looks(b, w1, Inside(v1)));
          TwoFound(locals, At(cond, w, v), Looks(a, w, Inside(v)) + Looks(b, w1, Inside(v1)));
        case While(cond, b) =>
          var x := SearchAll(cond, w, v);
          var y := GenerateStores(b, seen, Inside(v));
          found := x + y;
          TwoFound(locals, At(cond, w, v), Looks(b, w, Inside(v)));
        case DoWhile(b, cond) =>
          var x := GenerateStores(b, seen, Inside(v));
          ghost var w1, v1 := Generate(b, w), Outside(Named(b, Inside(v)), v);
          var y := SearchAll(cond, w1, v1);
          found := x + y;
          TwoFound(locals, Looks(b, w, Inside(v)), At(cond, w1, v1));
        case For(_, _, _, _) => found := GenerateFor(n, seen, v);
        case Switch(cond, stmts) =>
          var x := SearchAll(cond, w, v);
          var y := GenerateList(stmts, seen, Inside(v));
          found := x + y;
          TwoFound(locals, At(cond, w, v), LooksAll(stmts, w, Inside(v)));
        case Other =>
      }
    }

    /** A for statement: initialisation, condition, body, step. */
    method GenerateFor(n: Node, ghost seen: seq<Seen>, ghost v: View) returns (found: seq<int>)
      requires n.For? && Generate(n, Walk(chain, next, seen)).Walk?
      modifies `chain, `next
      ensures var w := Generate(n, Walk(old(chain), old(next), seen)); chain == w.chain && next == w.next
      ensures found == AllFound(locals, Looks(n, Walk(old(chain), old(next), seen), v))
      decreases n, 0
    {
      hide Lookup, AllFound, At, Named, Inside, Outside;
      ghost var w, v0 := Walk(chain, next, seen), Inside(v);
      GenerateEnds(n, n.start, n.body, w);
      ghost var w1, v1 := Generate(n.start, w), Named(n.start, v0);
      ghost var w2, v2 := Generate(n.body, w1), Outside(Named(n.body, Inside(v1)), v1);
      var a := GenerateStores(n.start, seen, v0);
      var b := SearchAll(n.cond, w1, v1);
      var c := GenerateStores(n.body, w1.seen, Inside(v1));
      var d := SearchAll(n.step, w2, v2);
      found := a + (b + (c + d));
      TwoFound(locals, Looks(n.body, w1, Inside(v1)), At(n.step, w2, v2));
      TwoFound(locals, At(n.cond, w1, v1), Looks(n.body, w1, Inside(v1)) + At(n.step, w2, v2));
      TwoFound(locals, Looks(n.start, w, v0), At(n.cond, w1, v1) + (Looks(n.body, w1, Inside(v1)) + At(n.step, w2, v2)));
    }

    method GenerateList(ns: seq<Node>, ghost seen: seq<Seen>, ghost v: View) returns (found: seq<int>)
      requires GenerateAll(ns, Walk(chain, next, seen)).Walk?
      modifies `chain, `next
      ensures var w := GenerateAll(ns, Walk(old(chain), old(next), seen)); chain == w.chain && next == w.next
      ensures found == AllFound(locals, LooksAll(ns, Walk(old(chain), old(next), seen), v))
      decreases ns, 2
    {
      hide Lookup, AllFound, Named;
      NoneFound(locals);
      found := [];
      if |ns| > 0 {
        ghost var w := Walk(chain, next, seen);
        ghost var first := Generate(ns[0], w);
        if first.Overflow? { NoWalk(ns[1..]); }
        var x := GenerateStores(ns[0], seen, v);
        var y := GenerateList(ns[1..], first.seen, Named(ns[0], v));
        found := x + y;
        TwoFound(locals, Looks(ns[0], w, v), LooksAll(ns[1..], first, Named(ns[0], v)));
      }
    }
  }

  /** A walk that does not fail has not failed before. */
  lemma {:induction false} GenerateEnds(n: Node, a: Node, b: Node, w: Walk)
    requires Generate(b, Generate(a, w)).Walk?
    ensures Generate(a, w).Walk?
  {
  }

  lemma {:induction false} NoWalk(ns: seq<Node>)
    ensures GenerateAll(ns, Overflow) == Overflow
    decreases |ns|
  {
    if ns != [] { NoWalk(ns[1..]); }
  }

  /** The locals that are found at the places. */
  function AllFound(locals: seq<Seen>, ps: seq<Look>): (r: seq<int>)
    ensures |r| == |ps|
  {
    seq(|ps|, k requires 0 <= k < |ps| => Lookup(locals, ps[k].name, |ps[k].chain|, Top(ps[k].chain)))
  }

  lemma {:induction false} NoneFound(locals: seq<Seen>)
    ensures AllFound(locals, []) == []
  {
  }

  lemma {:induction false} TwoFound(locals: seq<Seen>, a: seq<Look>, b: seq<Look>)
    ensures AllFound(locals, a + b) == AllFound(locals, a) + AllFound(locals, b)
  {
    hide Lookup;
  }

  /** Both walks: at every place the search finds the variable that C means, if and only if
      nothing hides it; with one local of each name every local that C means is found. */
  method BothWalks(body: Node) returns (ok: bool, found: seq<int>)
    ensures ok <==> Body(body).Walk?
    ensures ok ==> found == AllFound(Body(body).seen, Places(body))
    ensures ok ==> forall q, i :: 0 <= q < |found| && Meant(Decls(body), Places(body)[q], i) ==>
      (found[q] == i <==> Clear(Body(body).seen, Places(body)[q], i))
    ensures ok && (var s := Body(body).seen; forall a, b :: 0 <= a < b < |s| ==> s[a].name != s[b].name) ==>
      forall q, i :: 0 <= q < |found| && 0 <= i && Meant(Decls(body), Places(body)[q], i) ==> found[q] == i
  {
    hide Collect, Generate, Lookup, Looks, Named, Meant, Clear;
    var f := new Function();
    ok := f.CollectLocals(body);
    found := [];
    if ok {
      ghost var s, ps := f.locals, Places(body);
      WalksAgree(body, START);
      f.chain, f.next := [], 0;
      found := f.GenerateStores(body, [], NO_NAMES);
      forall q, i | 0 <= q < |found| && Meant(Decls(body), ps[q], i) ensures found[q] == i <==> Clear(s, ps[q], i) {
        UseFound(body, q, i);
      }
      if forall a, b :: 0 <= a < b < |s| ==> s[a].name != s[b].name {
        forall q, i | 0 <= q < |found| && 0 <= i && Meant(Decls(body), ps[q], i) ensures found[q] == i { DistinctFound(body, q, i); }
      }
    }
  }

  lemma {:induction false} SameFrame(a: seq<Seen>, b: seq<Seen>, k: nat)
    requires k <= |a| <= |b| && forall i :: 0 <= i < |a| ==> a[i] == b[i]
    ensures Frame(a, k) == Frame(b, k)
    decreases k
  {
    if k > 0 { SameFrame(a, b, k - 1); }
  }
}
