/** Function bodies in which the search for a name does not find the variable that C means. */
module Shadowing {
  import opened Scopes

  /** int x; */
  function Plain(x: string): Node { Decl(x, 4, false, NoInit) }

  /** The first statement of a list. */
  lemma {:induction false} FirstStep(n: Node, rest: seq<Node>, w: Walk, v: View)
    requires w.Walk? && Collect(n, w).Walk?
    ensures CollectAll([n] + rest, w) == CollectAll(rest, Collect(n, w)) && NamedAll([n] + rest, v) == NamedAll(rest, Named(n, v))
    ensures LooksAll([n] + rest, w, v) == Looks(n, w, v) + LooksAll(rest, Collect(n, w), Named(n, v))
  {
    hide Collect, Generate, Looks, Named;
    assert ([n] + rest)[1..] == rest;
    WalksAgree(n, w);
  }

  lemma {:induction false} NoStep(w: Walk, v: View)
    ensures CollectAll([], w) == w && NamedAll([], v) == v && LooksAll([], w, v) == []
  {
  }

  const TOP: Walk := Walk([1], 1, [])
  const TOP_NAMES: View := View([1], 1, [], 0)

  lemma {:induction false} OuterBlock(ns: seq<Node>)
    requires CollectAll(ns, TOP).Walk?
    ensures var r := CollectAll(ns, TOP); Body(Block(ns)) == Walk([], r.next, r.seen)
    ensures Decls(Block(ns)) == NamedAll(ns, TOP_NAMES).decls && Places(Block(ns)) == LooksAll(ns, TOP, TOP_NAMES)
  {
    hide CollectAll, LooksAll, NamedAll;
    assert [] + [1] == [1] && [1][..0] == [];
    AllAgree(ns, TOP);
    assert Entered(START) == TOP && Inside(NO_NAMES) == TOP_NAMES;
  }

  lemma {:induction false} LeafStep(n: Node, w: Walk, v: View, s: Seen, d: Scoped)
    requires w.Walk? && n.Decl? && n.name != "" && !n.isStatic
    requires s == Seen(n.name, if n.size > 0 then n.size else 4, |w.chain|, Top(w.chain)) && d == Scoped(n.name, Top(v.scopes), v.locals)
    ensures Collect(n, w) == Walk(w.chain, w.next, w.seen + [s])
    ensures Named(n, v) == View(v.scopes, v.last, v.decls + [d], v.locals + 1)
    ensures n.init.NoInit? ==> Looks(n, w, v) == []
  {
  }

  lemma {:induction false} UseStep(x: string, w: Walk, v: View)
    requires w.Walk?
    ensures Collect(Uses([x]), w) == w && Named(Uses([x]), v) == v
    ensures Looks(Uses([x]), w, v) == [Look(x, w.chain, v.scopes, |v.decls|)]
  {
  }

  /** A block with one statement that holds no block. */
  lemma {:induction false} OneLeaf(n: Node, w: Walk, v: View)
    requires w.Walk? && |w.chain| < MAX_SCOPES && (n.Decl? || n.Uses?)
    ensures Collect(n, Entered(w)).Walk? && Collect(Block([n]), w) == w.(next := w.next + 1, seen := Collect(n, Entered(w)).seen)
    ensures Named(Block([n]), v) == Outside(Named(n, Inside(v)), v)
    ensures Looks(Block([n]), w, v) == Looks(n, Entered(w), Inside(v))
  {
    assert [n][1..] == [];
    assert CollectAll([n], Entered(w)) == CollectAll([], Collect(n, Entered(w)));
    assert NamedAll([n], Inside(v)) == NamedAll([], Named(n, Inside(v)));
    assert LooksAll([n], Entered(w), Inside(v)) == Looks(n, Entered(w), Inside(v)) + LooksAll([], Generate(n, Entered(w)), Named(n, Inside(v)));
    assert Entered(w).chain[..|w.chain|] == w.chain;
  }

  /** int x; for (int x = 0; ; ) ; x */
  function ForShadows(x: string): Node { Block([Plain(x), For(Decl(x, 4, false, Init([])), [], [], Other), Uses([x])]) }

  /** int x; switch (0) { int x; } x */
  function SwitchShadows(x: string): Node { Block([Plain(x), Switch([], [Plain(x)]), Uses([x])]) }

  /** for (int x = 0; ; ) ; x */
  function ForLeaks(x: string): Node { Block([For(Decl(x, 4, false, Init([])), [], [], Other), Uses([x])]) }

  /** A statement that declares x in a scope of its own and opens no block. */
  ghost predicate DeclaresInside(n: Node, x: string)
  {
    forall w: Walk, v: View :: w.Walk? && w.chain == [1] && v.scopes == [1] && v.last == 1 && v.locals == |w.seen| ==>
      && Collect(n, w) == Walk([1], w.next, w.seen + [Seen(x, 4, 1, 1)])
      && Named(n, v).decls == v.decls + [Scoped(x, 2, v.locals)] && Named(n, v).scopes == [1]
  }

  lemma {:induction false} LoopDeclares(x: string)
    requires x != ""
    ensures DeclaresInside(For(Decl(x, 4, false, Init([])), [], [], Other), x)
  {
    var d := Decl(x, 4, false, Init([]));
    var n := For(d, [], [], Other);
    forall w: Walk, v: View | w.Walk? && w.chain == [1] && v.scopes == [1] && v.last == 1 && v.locals == |w.seen|
      ensures Collect(n, w) == Walk([1], w.next, w.seen + [Seen(x, 4, 1, 1)])
      ensures Named(n, v).decls == v.decls + [Scoped(x, 2, v.locals)] && Named(n, v).scopes == [1]
    {
      LeafStep(d, w, Inside(v), Seen(x, 4, 1, 1), Scoped(x, 2, v.locals));
      assert Named(Other, Inside(Named(d, Inside(v)))) == Inside(Named(d, Inside(v)));
    }
  }

  lemma {:induction false} SwitchDeclares(x: string)
    requires x != ""
    ensures DeclaresInside(Switch([], [Plain(x)]), x)
  {
    var n := Switch([], [Plain(x)]);
    forall w: Walk, v: View | w.Walk? && w.chain == [1] && v.scopes == [1] && v.last == 1 && v.locals == |w.seen|
      ensures Collect(n, w) == Walk([1], w.next, w.seen + [Seen(x, 4, 1, 1)])
      ensures Named(n, v).decls == v.decls + [Scoped(x, 2, v.locals)] && Named(n, v).scopes == [1]
    {
      var s, d, v' := Seen(x, 4, 1, 1), Scoped(x, 2, v.locals), Inside(v);
      assert [1] + [2] == [1, 2] && [Plain(x)] + [] == [Plain(x)];
      LeafStep(Plain(x), w, v', s, d);
      FirstStep(Plain(x), [], w, v');
      NoStep(Collect(Plain(x), w), Named(Plain(x), v'));
    }
  }

  /** Behind such a statement the variable in front of it is meant, and the search finds the
      one inside. */
  lemma {:induction false} InsideWins(x: string, n: Node)
    requires x != "" && DeclaresInside(n, x)
    ensures var body, p := Block([Plain(x), n, Uses([x])]), Look(x, [1], [1], 2);
      Body(body).Walk? && p in Places(body) && Meant(Decls(body), p, 0) && Found(Body(body).seen, p) == 1
  {
    hide Collect, Looks, Named, CollectAll, LooksAll, NamedAll, Body, Decls, Places, Fallback, Search, Means;
    var d, use, s := Plain(x), Uses([x]), Seen(x, 4, 1, 1);
    var w0, v0 := Walk([1], 1, [s]), View([1], 1, [Scoped(x, 1, 0)], 1);
    assert [] + [s] == [s] && [] + [Scoped(x, 1, 0)] == [Scoped(x, 1, 0)];
    LeafStep(d, TOP, TOP_NAMES, s, Scoped(x, 1, 0));
    var w1, v1 := Collect(n, w0), Named(n, v0);
    assert w1 == Walk([1], 1, [s] + [s]) && v1.decls == [Scoped(x, 1, 0)] + [Scoped(x, 2, 1)] && v1.scopes == [1];
    UseStep(x, w1, v1);
    assert [d, n, use] == [d] + [n, use] && [n, use] == [n] + [use] && [use] + [] == [use];
    FirstStep(d, [n, use], TOP, TOP_NAMES);
    FirstStep(n, [use], w0, v0);
    FirstStep(use, [], w1, v1);
    NoStep(w1, v1);
    OuterBlock([d, n, use]);
    BehindMeans(x, v1.decls);
    SearchIs([s] + [s], x, 1, 1, 2, 1);
  }

  lemma {:induction false} BehindMeans(x: string, decls: seq<Scoped>)
    requires decls == [Scoped(x, 1, 0)] + [Scoped(x, 2, 1)]
    ensures Meant(decls, Look(x, [1], [1], 2), 0)
  {
    assert Means(decls, Look(x, [1], [1], 2), 0);
  }

  /** A loop that declares x, and x behind it: the outer one is meant, the loop's is found. */
  lemma {:induction false} ForWins(x: string)
    requires x != ""
    ensures var body, p := ForShadows(x), Look(x, [1], [1], 2);
      Body(body).Walk? && p in Places(body) && Meant(Decls(body), p, 0) && Found(Body(body).seen, p) == 1
  {
    hide Collect, Looks, Named, Body, Decls, Places, Meant, Found;
    LoopDeclares(x);
    InsideWins(x, For(Decl(x, 4, false, Init([])), [], [], Other));
  }

  /** The same for the braces of a switch. */
  lemma {:induction false} SwitchWins(x: string)
    requires x != ""
    ensures var body, p := SwitchShadows(x), Look(x, [1], [1], 2);
      Body(body).Walk? && p in Places(body) && Meant(Decls(body), p, 0) && Found(Body(body).seen, p) == 1
  {
    hide Collect, Looks, Named, Body, Decls, Places, Meant, Found;
    SwitchDeclares(x);
    InsideWins(x, Switch([], [Plain(x)]));
  }

  /** Without the outer one, x comes from outside the function, and the loop's is found. */
  lemma {:induction false} LoopFound(x: string)
    requires x != ""
    ensures var body, p := ForLeaks(x), Look(x, [1], [1], 1);
      Body(body).Walk? && p in Places(body) && Meant(Decls(body), p, -1) && Found(Body(body).seen, p) == 0
  {
    hide Collect, Looks, Named, CollectAll, LooksAll, NamedAll, Body, Decls, Places, Fallback, Search, Means;
    var n, use, s := For(Decl(x, 4, false, Init([])), [], [], Other), Uses([x]), Seen(x, 4, 1, 1);
    LoopDeclares(x);
    var w1, v1 := Collect(n, TOP), Named(n, TOP_NAMES);
    assert w1 == Walk([1], 1, [] + [s]) && v1.decls == [] + [Scoped(x, 2, 0)] && v1.scopes == [1];
    assert [] + [s] == [s] && [] + [Scoped(x, 2, 0)] == [Scoped(x, 2, 0)];
    UseStep(x, w1, v1);
    assert [n, use] == [n] + [use] && [use] + [] == [use];
    FirstStep(n, [use], TOP, TOP_NAMES);
    FirstStep(use, [], w1, v1);
    NoStep(w1, v1);
    OuterBlock([n, use]);
    NothingMeant(x);
    SearchIs([s], x, 1, 1, 1, 0);
  }

  lemma {:induction false} NothingMeant(x: string)
    ensures Meant([Scoped(x, 2, 0)], Look(x, [1], [1], 1), -1)
  {
    assert forall d: nat :: !Means([Scoped(x, 2, 0)], Look(x, [1], [1], 1), d);
  }

  /** int x; { static int x; x } */
  function StaticHides(x: string): Node { Block([Plain(x), Block([Decl(x, 4, true, NoInit), Uses([x])])]) }

  /** A static variable is meant, and the automatic one in front of it is found. */
  lemma {:induction false} StaticLost(x: string)
    requires x != ""
    ensures var body, p := StaticHides(x), Look(x, [1, 2], [1, 2], 2);
      Body(body).Walk? && p in Places(body) && Meant(Decls(body), p, -1) && Found(Body(body).seen, p) == 0
  {
    hide Collect, Looks, Named, CollectAll, LooksAll, NamedAll, Body, Decls, Places, Fallback, Search, Means;
    var d, t, use, s := Plain(x), Decl(x, 4, true, NoInit), Uses([x]), Seen(x, 4, 1, 1);
    var first, second := Scoped(x, 1, 0), Scoped(x, 2, -1);
    var w0, v0 := Walk([1], 1, [s]), View([1], 1, [first], 1);
    var w1, v1 := Walk([1, 2], 2, [s]), View([1, 2], 2, [first], 1);
    var v2 := View([1, 2], 2, [first, second], 1);
    assert [] + [s] == [s] && [] + [first] == [first] && [1] + [2] == [1, 2] && [first] + [second] == [first, second];
    assert [1, 2][..1] == [1];
    LeafStep(d, TOP, TOP_NAMES, s, first);
    StaticStep(t, w1, v1);
    UseStep(x, w1, v2);
    assert [t, use] == [t] + [use] && [use] + [] == [use];
    FirstStep(t, [use], w1, v1);
    FirstStep(use, [], w1, v2);
    NoStep(w1, v2);
    BlockStep([t, use], w0, v0);
    assert [d, Block([t, use])] == [d] + [Block([t, use])] && [Block([t, use])] + [] == [Block([t, use])];
    FirstStep(d, [Block([t, use])], TOP, TOP_NAMES);
    FirstStep(Block([t, use]), [], w0, v0);
    NoStep(Collect(Block([t, use]), w0), Named(Block([t, use]), v0));
    OuterBlock([d, Block([t, use])]);
    StaticMeant(x);
    SearchIs([s], x, 2, 2, 1, 0);
  }

  lemma {:induction false} StaticStep(n: Node, w: Walk, v: View)
    requires w.Walk? && n.Decl? && n.name != "" && n.isStatic && n.init.NoInit?
    ensures Collect(n, w) == w && Looks(n, w, v) == []
    ensures Named(n, v) == View(v.scopes, v.last, v.decls + [Scoped(n.name, Top(v.scopes), -1)], v.locals)
  {
  }

  lemma {:induction false} BlockStep(ns: seq<Node>, w: Walk, v: View)
    requires w.Walk? && |w.chain| < MAX_SCOPES && CollectAll(ns, Entered(w)).Walk?
    ensures var r := CollectAll(ns, Entered(w)); Collect(Block(ns), w) == w.(next := r.next, seen := r.seen)
    ensures Named(Block(ns), v) == Outside(NamedAll(ns, Inside(v)), v)
    ensures Looks(Block(ns), w, v) == LooksAll(ns, Entered(w), Inside(v))
  {
    hide CollectAll, LooksAll, NamedAll;
    AllAgree(ns, Entered(w));
    assert Entered(w).chain[..|w.chain|] == w.chain;
  }

  lemma {:induction false} StaticMeant(x: string)
    ensures Meant([Scoped(x, 1, 0), Scoped(x, 2, -1)], Look(x, [1, 2], [1, 2], 2), -1)
  {
    var decls, p := [Scoped(x, 1, 0), Scoped(x, 2, -1)], Look(x, [1, 2], [1, 2], 2);
    assert Means(decls, p, 1);
    assert decls[1].local == -1;
  }

  /** { { int x = 0; } int x; } */
  function Later(x: string): Node { Block([Block([Decl(x, 4, false, Init([]))]), Plain(x)]) }

  /** The declaration of an inner variable stores into the outer one of the same name that is
      declared behind it. */
  lemma {:induction false} LaterOuterWins(x: string)
    requires x != ""
    ensures var body, p := Later(x), Look(x, [1, 2], [1, 2], 1);
      Body(body).Walk? && p in Places(body) && Meant(Decls(body), p, 0) && Found(Body(body).seen, p) == 1
  {
    hide Collect, Looks, Named, CollectAll, LooksAll, NamedAll, Body, Decls, Places, Fallback, Search, Means;
    var d, e := Decl(x, 4, false, Init([])), Plain(x);
    var s, t, first, second := Seen(x, 4, 2, 2), Seen(x, 4, 1, 1), Scoped(x, 2, 0), Scoped(x, 1, 1);
    var w1, v1 := Walk([1], 2, [s]), View([1], 2, [first], 1);
    assert [] + [s] == [s] && [s] + [t] == [s, t] && [] + [first] == [first] && [first] + [second] == [first, second] && [1] + [2] == [1, 2];
    LeafStep(d, Walk([1, 2], 2, []), View([1, 2], 2, [], 0), s, first);
    InitLook(x, Walk([1, 2], 2, []), View([1, 2], 2, [], 0));
    OneLeaf(d, TOP, TOP_NAMES);
    LeafStep(e, w1, v1, t, second);
    assert [Block([d]), e] == [Block([d])] + [e] && [e] + [] == [e];
    FirstStep(Block([d]), [e], TOP, TOP_NAMES);
    FirstStep(e, [], w1, v1);
    NoStep(Collect(e, w1), Named(e, v1));
    OuterBlock([Block([d]), e]);
    LaterMeant(x);
    SearchIs([s, t], x, 2, 2, 2, 1);
  }

  lemma {:induction false} InitLook(x: string, w: Walk, v: View)
    requires w.Walk? && x != ""
    ensures Looks(Decl(x, 4, false, Init([])), w, v) == [Look(x, w.chain, v.scopes, |v.decls| + 1)]
  {
    assert [] + [x] == [x];
  }

  lemma {:induction false} LaterMeant(x: string)
    ensures Meant([Scoped(x, 2, 0), Scoped(x, 1, 1)], Look(x, [1, 2], [1, 2], 1), 0)
  {
    assert Means([Scoped(x, 2, 0), Scoped(x, 1, 1)], Look(x, [1, 2], [1, 2], 1), 0);
  }

  /** { int x; { int x; } { x } } */
  function Siblings(x: string): Node { Block([Plain(x), Block([Plain(x)]), Block([Uses([x])])]) }

  /** The use in the second inner block means the outer variable; the search finds that of
      the first inner block, which is closed. */
  lemma {:induction false} SiblingWins(x: string)
    requires x != ""
    ensures var body, p := Siblings(x), Look(x, [1, 3], [1, 3], 2);
      Body(body).Walk? && p in Places(body) && Meant(Decls(body), p, 0) && Found(Body(body).seen, p) == 1
  {
    hide Collect, Looks, Named, CollectAll, LooksAll, NamedAll, Body, Decls, Places, Fallback, Search, Means;
    var d, use, s, t := Plain(x), Uses([x]), Seen(x, 4, 1, 1), Seen(x, 4, 2, 2);
    var one, two := Scoped(x, 1, 0), Scoped(x, 2, 1);
    var w0, v0 := Walk([1], 1, [s]), View([1], 1, [one], 1);
    var w1, v1 := Walk([1], 2, [s, t]), View([1], 2, [one, two], 2);
    var first, second := Block([d]), Block([use]);
    assert [] + [s] == [s] && [s] + [t] == [s, t] && [] + [one] == [one] && [one] + [two] == [one, two];
    assert [1] + [2] == [1, 2] && [1] + [3] == [1, 3];
    LeafStep(d, TOP, TOP_NAMES, s, one);
    LeafStep(d, Walk([1, 2], 2, [s]), View([1, 2], 2, [one], 1), t, two);
    OneLeaf(d, w0, v0);
    UseStep(x, Walk([1, 3], 3, [s, t]), View([1, 3], 3, [one, two], 2));
    OneLeaf(use, w1, v1);
    assert [d, first, second] == [d] + [first, second] && [first, second] == [first] + [second] && [second] + [] == [second];
    FirstStep(d, [first, second], TOP, TOP_NAMES);
    FirstStep(first, [second], w0, v0);
    FirstStep(second, [], w1, v1);
    NoStep(Collect(second, w1), Named(second, v1));
    OuterBlock([d, first, second]);
    SiblingMeant(x);
    SearchIs([s, t], x, 2, 3, 2, 1);
  }

  lemma {:induction false} SiblingMeant(x: string)
    ensures Meant([Scoped(x, 1, 0), Scoped(x, 2, 1)], Look(x, [1, 3], [1, 3], 2), 0)
  {
    assert Means([Scoped(x, 1, 0), Scoped(x, 2, 1)], Look(x, [1, 3], [1, 3], 2), 0);
  }
}
