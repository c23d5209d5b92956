/** Which calls of function macros a scan leaves over: each chain of nested calls is
    shortened by itself, and nothing is left if and only if every chain vanishes. */
module CallPaths {
  import opened CallTerms
  import S = Substitution

  // ----- Chains -----

  /** Parameter j occurs. */
  predicate Occurs(bs: seq<Body>, j: nat)
    decreases bs
  {
    bs != [] && ((match bs[0] case Nest(cs) => Occurs(cs, j) case Leaf(x) => x == S.Parameter(j)) || Occurs(bs[1..], j))
  }

  predicate Uses(defs: seq<Def>, fi: nat, j: nat) { fi < |defs| && Occurs(defs[fi].body, j) }

  /** p is a chain of macros, each called in an argument of the one before that its
      replacement text uses. */
  predicate IsPath(defs: seq<Def>, ts: seq<Term>, p: seq<nat>)
    decreases ts, 0
  {
    ts != [] && (TermPath(defs, ts[0], p) || IsPath(defs, ts[1..], p))
  }

  predicate TermPath(defs: seq<Def>, x: Term, p: seq<nat>)
    decreases x, 1
  {
    match x
    case Piece(_) => false
    case Paren(ts) => IsPath(defs, ts, p)
    case Invoke(fi, args) =>
      p != [] && p[0] == fi
      && (|p| == 1 || exists j: nat :: j < |args| && Uses(defs, fi, j) && IsPath(defs, args[j].ts, p[1..]))
  }

  /** What scanning leaves of a chain: a macro on the stack stays, another one vanishes
      when what is behind it has been scanned twice, as an argument and in its place. */
  function Reduce(stack: seq<nat>, p: seq<nat>): (r: seq<nat>)
    ensures |r| <= |p|
    decreases |p|
  {
    if p == [] then []
    else if p[0] in stack then [p[0]] + Reduce(stack, p[1..])
    else Reduce(stack + [p[0]], Reduce(stack + [p[0]], p[1..]))
  }

  // ----- Lists -----

  lemma {:induction false} PathJoin(defs: seq<Def>, a: seq<Term>, b: seq<Term>, p: seq<nat>)
    ensures IsPath(defs, a + b, p) <==> IsPath(defs, a, p) || IsPath(defs, b, p)
    decreases |a|
  {
    hide TermPath;
    if a == [] {
      assert a + b == b;
    } else {
      assert (a + b)[1..] == a[1..] + b;
      PathJoin(defs, a[1..], b, p);
    }
  }

  lemma {:induction false} PathOne(defs: seq<Def>, x: Term, p: seq<nat>)
    ensures IsPath(defs, [x], p) <==> TermPath(defs, x, p)
  {
    hide TermPath;
    assert [x][1..] == [];
    assert !IsPath(defs, [], p);
  }

  /** A chain in a filled replacement text comes from an argument that is used. */
  lemma {:induction false} FillFrom(defs: seq<Def>, params: seq<string>, bs: seq<Body>, args: seq<Argument>, p: seq<nat>) returns (j: nat)
    requires IsPath(defs, Fill(params, bs, args), p)
    ensures j < |args| && Occurs(bs, j) && IsPath(defs, args[j].ts, p)
    decreases bs
  {
    hide IsPath, TermPath;
    if bs == [] {
      assert !IsPath(defs, [], p) by { NoPath(defs, p); }
    } else {
      var a, b := FillPart(params, bs[0], args), Fill(params, bs[1..], args);
      PathJoin(defs, a, b, p);
      if IsPath(defs, b, p) {
        j := FillFrom(defs, params, bs[1..], args, p);
      } else {
        match bs[0]
        case Nest(cs) =>
          PathOne(defs, Paren(Fill(params, cs, args)), p);
          InParen(defs, Fill(params, cs, args), p);
          j := FillFrom(defs, params, cs, args, p);
        case Leaf(x) =>
          if x.Parameter? && x.j < |args| {
            j := x.j;
          } else {
            PathOne(defs, Piece(S.PartText(params, x)), p);
            InPiece(defs, S.PartText(params, x), p);
          }
      }
    }
  }

  lemma {:induction false} NoPath(defs: seq<Def>, p: seq<nat>)
    ensures !IsPath(defs, [], p)
  {
  }

  lemma {:induction false} InPiece(defs: seq<Def>, t: string, p: seq<nat>)
    ensures !TermPath(defs, Piece(t), p)
  {
  }

  lemma {:induction false} InParen(defs: seq<Def>, ts: seq<Term>, p: seq<nat>)
    ensures TermPath(defs, Paren(ts), p) <==> IsPath(defs, ts, p)
  {
  }

  lemma {:induction false} FillTo(defs: seq<Def>, params: seq<string>, bs: seq<Body>, args: seq<Argument>, p: seq<nat>, j: nat)
    requires j < |args| && Occurs(bs, j) && IsPath(defs, args[j].ts, p)
    ensures IsPath(defs, Fill(params, bs, args), p)
    decreases bs
  {
    hide IsPath, TermPath;
    PathJoin(defs, FillPart(params, bs[0], args), Fill(params, bs[1..], args), p);
    if Occurs(bs[1..], j) {
      FillTo(defs, params, bs[1..], args, p, j);
    } else {
      match bs[0]
      case Nest(cs) =>
        FillTo(defs, params, cs, args, p, j);
        PathOne(defs, Paren(Fill(params, cs, args)), p);
        InParen(defs, Fill(params, cs, args), p);
      case Leaf(x) =>
    }
  }

  // ----- Scanning shortens each chain -----

  /** A chain behind a scan is what is left of one before it. */
  lemma {:induction false} PathFrom(defs: seq<Def>, banned: set<string>, stack: seq<nat>, ts: seq<Term>, q: seq<nat>) returns (p: seq<nat>)
    requires GoodDefs(defs, banned) && Good(defs, banned, ts) && IsPath(defs, Eval(defs, stack, ts), q)
    ensures IsPath(defs, ts, p) && Reduce(stack, p) == q
    decreases Free(defs, stack), ts, 0
  {
    hide TermPath, Reduce, EvalTerm, GoodDefs, GoodTerm, Joins;
    if ts == [] {
      NoPath(defs, q);
      assert false;
    } else {
      PathJoin(defs, EvalTerm(defs, stack, ts[0]), Eval(defs, stack, ts[1..]), q);
      if IsPath(defs, EvalTerm(defs, stack, ts[0]), q) {
        p := TermFrom(defs, banned, stack, ts[0], q);
      } else {
        p := PathFrom(defs, banned, stack, ts[1..], q);
      }
    }
  }

  lemma {:induction false} TermFrom(defs: seq<Def>, banned: set<string>, stack: seq<nat>, x: Term, q: seq<nat>) returns (p: seq<nat>)
    requires GoodDefs(defs, banned) && GoodTerm(defs, banned, x) && IsPath(defs, EvalTerm(defs, stack, x), q)
    ensures TermPath(defs, x, p) && Reduce(stack, p) == q
    decreases Free(defs, stack), x, 1
  {
    hide IsPath, GoodDefs, Good, GoodArguments, Eval, EvalArguments, Fill, Occurs, Reduce;
    match x
    case Piece(t) =>
      PathOne(defs, x, q);
      assert false;
    case Paren(ts) =>
      PathOne(defs, Paren(Eval(defs, stack, ts)), q);
      p := PathFrom(defs, banned, stack, ts, q);
    case Invoke(fi, args) =>
      if fi in stack {
        p := StaysFrom(defs, banned, stack, fi, args, q);
      } else {
        FreeLess(defs, stack, fi);
        p := CallFrom(defs, banned, stack, fi, args, q);
      }
  }

  lemma {:induction false} StaysFrom(defs: seq<Def>, banned: set<string>, stack: seq<nat>, fi: nat, args: seq<Argument>, q: seq<nat>)
    returns (p: seq<nat>)
    requires GoodDefs(defs, banned) && GoodTerm(defs, banned, Invoke(fi, args)) && fi in stack
    requires IsPath(defs, [Invoke(fi, EvalArguments(defs, stack, args))], q)
    ensures TermPath(defs, Invoke(fi, args), p) && Reduce(stack, p) == q
    decreases Free(defs, stack), args, 2
  {
    hide IsPath, GoodDefs, Good, Eval, EvalArguments, Occurs;
    var vals := EvalArguments(defs, stack, args);
    InvokeParts(defs, banned, fi, args);
    PathOne(defs, Invoke(fi, vals), q);
    if |q| == 1 {
      p := q;
      assert Reduce(stack, p) == [fi] + Reduce(stack, p[1..]) && p[1..] == [];
    } else {
      var j: nat :| j < |vals| && Uses(defs, fi, j) && IsPath(defs, vals[j].ts, q[1..]);
      ArgumentIs(defs, stack, args, j);
      GoodArgument(defs, banned, args, j);
      var r := PathFrom(defs, banned, stack, args[j].ts, q[1..]);
      p := [fi] + r;
      assert p[1..] == r && q == [fi] + q[1..];
    }
  }

  lemma {:induction false} CallFrom(defs: seq<Def>, banned: set<string>, stack: seq<nat>, fi: nat, args: seq<Argument>, q: seq<nat>)
    returns (p: seq<nat>)
    requires GoodDefs(defs, banned) && GoodTerm(defs, banned, Invoke(fi, args)) && fi !in stack
    requires IsPath(defs, EvalTerm(defs, stack, Invoke(fi, args)), q)
    ensures TermPath(defs, Invoke(fi, args), p) && Reduce(stack, p) == q
    decreases Free(defs, stack), args, 2
  {
    hide IsPath, GoodDefs, Good, GoodArguments, Eval, EvalArguments, Fill, Occurs;
    InvokeParts(defs, banned, fi, args);
    FreeLess(defs, stack, fi);
    var inner, d := stack + [fi], defs[fi];
    var vals := EvalArguments(defs, inner, args);
    EvalArgumentsGood(defs, banned, inner, args);
    FillGood(defs, banned, d.params, d.body, vals);
    var r := PathFrom(defs, banned, inner, Fill(d.params, d.body, vals), q);
    var j := FillFrom(defs, d.params, d.body, vals, r);
    ArgumentIs(defs, inner, args, j);
    GoodArgument(defs, banned, args, j);
    var u := PathFrom(defs, banned, inner, args[j].ts, r);
    p := [fi] + u;
    assert p[1..] == u && Uses(defs, fi, j);
  }

  /** What is left of a chain is there behind the scan. */
  lemma {:induction false} PathTo(defs: seq<Def>, banned: set<string>, stack: seq<nat>, ts: seq<Term>, p: seq<nat>)
    requires GoodDefs(defs, banned) && Good(defs, banned, ts) && IsPath(defs, ts, p) && Reduce(stack, p) != []
    ensures IsPath(defs, Eval(defs, stack, ts), Reduce(stack, p))
    decreases Free(defs, stack), ts, 0
  {
    hide TermPath, Reduce, EvalTerm, GoodDefs, GoodTerm, Joins;
    PathJoin(defs, EvalTerm(defs, stack, ts[0]), Eval(defs, stack, ts[1..]), Reduce(stack, p));
    if TermPath(defs, ts[0], p) { TermTo(defs, banned, stack, ts[0], p); } else { PathTo(defs, banned, stack, ts[1..], p); }
  }

  lemma {:induction false} TermTo(defs: seq<Def>, banned: set<string>, stack: seq<nat>, x: Term, p: seq<nat>)
    requires GoodDefs(defs, banned) && GoodTerm(defs, banned, x) && TermPath(defs, x, p) && Reduce(stack, p) != []
    ensures IsPath(defs, EvalTerm(defs, stack, x), Reduce(stack, p))
    decreases Free(defs, stack), x, 1
  {
    hide IsPath, GoodDefs, Good, GoodArguments, Eval, EvalArguments, Fill, Occurs;
    var q := Reduce(stack, p);
    match x
    case Paren(ts) =>
      PathTo(defs, banned, stack, ts, p);
      PathOne(defs, Paren(Eval(defs, stack, ts)), q);
    case Invoke(fi, args) =>
      InvokeParts(defs, banned, fi, args);
      if fi in stack {
        var vals := EvalArguments(defs, stack, args);
        PathOne(defs, Invoke(fi, vals), q);
        if |p| > 1 && Reduce(stack, p[1..]) != [] {
          var j: nat :| j < |args| && Uses(defs, fi, j) && IsPath(defs, args[j].ts, p[1..]);
          ArgumentIs(defs, stack, args, j);
          GoodArgument(defs, banned, args, j);
          PathTo(defs, banned, stack, args[j].ts, p[1..]);
          assert q[1..] == Reduce(stack, p[1..]);
        }
      } else {
        FreeLess(defs, stack, fi);
        var inner, d := stack + [fi], defs[fi];
        var vals, r := EvalArguments(defs, inner, args), Reduce(inner, p[1..]);
        assert r != [] && |p| > 1;
        var j: nat :| j < |args| && Uses(defs, fi, j) && IsPath(defs, args[j].ts, p[1..]);
        ArgumentIs(defs, inner, args, j);
        GoodArgument(defs, banned, args, j);
        PathTo(defs, banned, inner, args[j].ts, p[1..]);
        EvalArgumentsGood(defs, banned, inner, args);
        FillGood(defs, banned, d.params, d.body, vals);
        FillTo(defs, d.params, d.body, vals, r, j);
        PathTo(defs, banned, inner, Fill(d.params, d.body, vals), r);
      }
  }

  // ----- When nothing is left -----

  /** A text with a call has a chain. */
  lemma {:induction false} SomePath(defs: seq<Def>, ts: seq<Term>) returns (p: seq<nat>)
    requires Height(ts) > 0
    ensures IsPath(defs, ts, p)
    decreases ts
  {
    if TermHeight(ts[0]) > 0 {
      match ts[0]
      case Paren(us) => p := SomePath(defs, us);
      case Invoke(fi, _) => p := [fi];
    } else {
      p := SomePath(defs, ts[1..]);
    }
  }

  lemma {:induction false} PathHigh(defs: seq<Def>, ts: seq<Term>, p: seq<nat>)
    requires IsPath(defs, ts, p)
    ensures Height(ts) > 0 && p != []
    decreases ts
  {
    if TermPath(defs, ts[0], p) {
      if ts[0].Paren? { PathHigh(defs, ts[0].ts, p); }
    } else {
      PathHigh(defs, ts[1..], p);
    }
  }

  /** Every chain of calls vanishes. */
  ghost predicate Vanish(defs: seq<Def>, stack: seq<nat>, ts: seq<Term>)
  {
    forall p :: IsPath(defs, ts, p) ==> Reduce(stack, p) == []
  }

  /** No call is left behind a scan if and only if every chain of calls vanishes. */
  lemma {:induction false} LeftExactly(defs: seq<Def>, banned: set<string>, stack: seq<nat>, ts: seq<Term>)
    requires GoodDefs(defs, banned) && Good(defs, banned, ts)
    ensures Height(Eval(defs, stack, ts)) == 0 <==> Vanish(defs, stack, ts)
  {
    hide GoodDefs, Good, Eval, IsPath, Reduce, Height;
    var r := Eval(defs, stack, ts);
    if Height(r) > 0 {
      var q := SomePath(defs, r);
      var p := PathFrom(defs, banned, stack, ts, q);
      PathHigh(defs, r, q);
    } else {
      forall p | IsPath(defs, ts, p) ensures Reduce(stack, p) == [] {
        if Reduce(stack, p) != [] {
          PathTo(defs, banned, stack, ts, p);
          PathHigh(defs, r, Reduce(stack, p));
          assert false;
        }
      }
    }
  }

  /** A chain of different macros, none of them on the stack, vanishes. */
  lemma {:induction false} DifferentVanish(stack: seq<nat>, p: seq<nat>)
    requires (forall i :: 0 <= i < |p| ==> p[i] !in stack) && forall i, j :: 0 <= i < j < |p| ==> p[i] != p[j]
    ensures Reduce(stack, p) == []
    decreases |p|
  {
    if p != [] {
      forall i | 0 <= i < |p| - 1 ensures p[1..][i] !in stack + [p[0]] { assert p[1..][i] == p[i + 1]; }
      DifferentVanish(stack + [p[0]], p[1..]);
    }
  }

  /** Of n calls of one macro inside each other, all but the outermost stay. */
  lemma {:induction false} SameStay(stack: seq<nat>, fi: nat, n: nat)
    requires n > 0
    ensures var p := seq(n, _ => fi); Reduce(stack, p) == if fi in stack then p else p[1..]
    decreases n, fi !in stack
  {
    var p := seq(n, _ => fi);
    assert p[1..] == seq(n - 1, _ => fi);
    if n > 1 {
      SameStay(stack + [fi], fi, n - 1);
      if fi in stack { SameStay(stack, fi, n - 1); }
      assert [fi] + p[1..] == p;
    } else {
      assert p == [fi] && p[1..] == [];
    }
  }
}
