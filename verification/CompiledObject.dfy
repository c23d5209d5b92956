/** The object file of a compiled program: one global symbol per function and one
    call relocation per call.  What the linker reads from it is what Toolchain.dfy
    needs of an object, so source, object file, executable and processor meet. */
module CompiledObject {
  import opened Bytes
  import opened Words
  import opened X86
  import opened CSource
  import opened CodeGen
  import opened Emission
  import opened Labels
  import opened WholeProgram
  import opened Toolchain
  import L = Linking
  import P = LinkProofs
  import O = ObjectFile

  // ----- The symbol table -----

  /** Where x is in s; |s| if it is not there. */
  function IndexIn(s: seq<nat>, x: nat): (k: nat)
    ensures k <= |s| && (k < |s| <==> x in s) && (k < |s| ==> s[k] == x)
  {
    if s == [] then 0 else if s[0] == x then 0 else 1 + IndexIn(s[1..], x)
  }

  /** The first mention of a function takes the next number. */
  function Mention(s: seq<nat>, fn: nat): seq<nat> { if fn in s then s else s + [fn] }

  function MentionCalls(s: seq<nat>, calls: seq<CallReloc>, n: nat): seq<nat>
    requires n <= |calls|
  {
    if n == 0 then s else Mention(MentionCalls(s, calls, n - 1), calls[n - 1].fn)
  }

  function CallsOf(p: Program, fn: nat): seq<CallReloc>
    requires fn < |p|
  {
    Calls(CodeOf(p, fn), Start(p, fn))
  }

  /** The functions in the order of their symbols, once fn functions have been compiled: a
      function gets its symbol when it is called first or when its code is complete. */
  function SymbolOrder(p: Program, fn: nat): seq<nat>
    requires fn <= |p|
  {
    if fn == 0 then []
    else Mention(MentionCalls(SymbolOrder(p, fn - 1), CallsOf(p, fn - 1), |CallsOf(p, fn - 1)|), fn - 1)
  }

  predicate Within(s: seq<nat>, n: nat) { forall k :: 0 <= k < |s| ==> s[k] < n }

  predicate NoRepeats(s: seq<nat>) { forall i, j :: 0 <= i < j < |s| ==> s[i] != s[j] }

  lemma {:induction false} Mentioned(s: seq<nat>, fn: nat)
    requires NoRepeats(s)
    ensures NoRepeats(Mention(s, fn)) && s <= Mention(s, fn) && fn in Mention(s, fn)
    ensures forall x :: x in Mention(s, fn) <==> x in s || x == fn
  {
  }

  lemma {:induction false} CallsMentioned(s: seq<nat>, calls: seq<CallReloc>, n: nat)
    requires NoRepeats(s) && n <= |calls|
    ensures var t := MentionCalls(s, calls, n);
      && NoRepeats(t) && s <= t && (forall k :: 0 <= k < n ==> calls[k].fn in t)
      && (forall x :: x in s ==> x in t)
      && forall x :: x in t ==> x in s || exists k :: 0 <= k < n && calls[k].fn == x
    decreases n
  {
    hide Mention, NoRepeats;
    if n > 0 {
      CallsMentioned(s, calls, n - 1);
      Mentioned(MentionCalls(s, calls, n - 1), calls[n - 1].fn);
    }
  }

  /** No function has two symbols, each compiled function and each function called has
      one, and a symbol keeps its number. */
  lemma {:induction false} OrderHas(p: Program, fn: nat)
    requires ProgramFits(p) && fn <= |p|
    ensures var s := SymbolOrder(p, fn);
      && NoRepeats(s) && (forall f :: 0 <= f < fn ==> f in s) && Within(s, |p|)
      && forall k :: 0 <= k < |ProgramCalls(p, fn)| ==> ProgramCalls(p, fn)[k].fn in s
    decreases fn
  {
    hide Mention, MentionCalls, ProgramFits, CodeOf, Calls;
    if fn > 0 {
      var s, calls := SymbolOrder(p, fn - 1), CallsOf(p, fn - 1);
      OrderHas(p, fn - 1);
      CallsMentioned(s, calls, |calls|);
      Mentioned(MentionCalls(s, calls, |calls|), fn - 1);
      forall k | 0 <= k < |ProgramCalls(p, fn)| ensures ProgramCalls(p, fn)[k].fn < |p| { ProgramCallsInside(p, fn, k); }
      assert ProgramCalls(p, fn) == ProgramCalls(p, fn - 1) + calls;
      forall k | 0 <= k < |calls| ensures calls[k].fn < |p| {
        assert ProgramCalls(p, fn)[|ProgramCalls(p, fn - 1)| + k] == calls[k];
      }
      var t := SymbolOrder(p, fn);
      forall j | 0 <= j < |t| ensures t[j] < |p| {
        assert t[j] in t;
        if t[j] in s { var h :| 0 <= h < |s| && s[h] == t[j]; }
      }
    }
  }

  /** The order of the symbols of the whole program. */
  function FinalOrder(p: Program): (s: seq<nat>)
    requires ProgramFits(p)
    ensures Within(s, |p|)
  {
    hide ProgramFits, SymbolOrder, Within, NoRepeats;
    OrderHas(p, |p|);
    SymbolOrder(p, |p|)
  }

  /** The functions' symbols and the calls' relocations. */
  function ObjectOf(p: Program, names: seq<string>): O.Object
    requires |names| == |p| && ProgramFits(p)
  {
    var calls, order := ProgramCalls(p, |p|), FinalOrder(p);
    O.Object(Text(p, |p|, []), [], 0,
             seq(|order|, k requires 0 <= k < |order| && order[k] < |p| => Defined(p, names[order[k]], order[k])),
             CallsTo(calls, order), [])
  }

  function Defined(p: Program, name: string, f: nat): O.Symbol
    requires f < |p|
  {
    O.Symbol(name, Start(p, f), Size(CodeOf(p, f)), true, true, 1)
  }

  function CallTo(c: CallReloc, order: seq<nat>): O.Reloc { O.Reloc(c.at, IndexIn(order, c.fn) + 1, 4, -4) }

  /** The symbol of function f while n functions are complete. */
  function Entry(p: Program, names: seq<string>, f: nat, n: nat): O.Symbol
    requires f < |names| && n <= |p|
  {
    if f < n then Defined(p, names[f], f) else O.Symbol(names[f], 0, 0, true, true, 0)
  }

  /** The symbols of the functions in order, while n functions are complete. */
  ghost predicate Listed(syms: seq<O.Symbol>, p: Program, names: seq<string>, order: seq<nat>, n: nat)
  {
    && |syms| == |order| && n <= |p| && Within(order, |names|)
    && forall k :: 0 <= k < |order| ==> syms[k] == Entry(p, names, order[k], n)
  }

  predicate Distinct(names: seq<string>) { forall f, g :: 0 <= f < g < |names| ==> names[f] != names[g] }

  /** The symbol table, which calls and function definitions fill. */
  class SymbolTable {
    var syms: seq<O.Symbol>

    constructor ()
      ensures syms == []
    {
      syms := [];
    }

    /** A call: the function's symbol, an undefined one if there is none yet. */
    method Reference(name: string) returns (i: nat)
      modifies this
      ensures i < |syms| && i <= old(|syms|) && syms[i].name == name && forall j :: 0 <= j < i ==> syms[j].name != name
      ensures syms == if i < old(|syms|) then old(syms) else old(syms) + [O.Symbol(name, 0, 0, true, true, 0)]
    {
      i := 0;
      while i < |syms|
        invariant i <= |syms| && forall j :: 0 <= j < i ==> syms[j].name != name
      {
        if syms[i].name == name { return; }
        i := i + 1;
      }
      syms := syms + [O.Symbol(name, 0, 0, true, true, 0)];
    }

    /** The end of a function: its undefined symbol is defined in place, or it gets one. */
    method Define(name: string, off: nat, size: nat) returns (i: nat)
      modifies this
      ensures i < |syms| && i <= old(|syms|) && (i < old(|syms|) ==> old(syms[i]).name == name && old(syms[i]).shndx == 0)
      ensures forall j :: 0 <= j < i ==> old(syms)[j].name != name || old(syms)[j].shndx != 0
      ensures syms == if i < old(|syms|) then old(syms)[i := old(syms)[i].(off := off, size := size, isFunc := true, shndx := 1)]
                      else old(syms) + [O.Symbol(name, off, size, true, true, 1)]
    {
      i := 0;
      while i < |syms|
        invariant i <= |syms| && forall j :: 0 <= j < i ==> syms[j].name != name || syms[j].shndx != 0
      {
        if syms[i].name == name && syms[i].shndx == 0 {
          syms := syms[i := syms[i].(off := off, size := size, isFunc := true, shndx := 1)];
          return;
        }
        i := i + 1;
      }
      syms := syms + [O.Symbol(name, off, size, true, true, 1)];
    }
  }

  /** A function keeps its number while the table grows. */
  lemma {:induction false} IndexStays(s: seq<nat>, t: seq<nat>, x: nat)
    requires s <= t && x in s
    ensures IndexIn(t, x) == IndexIn(s, x)
    decreases |s|
  {
    if s[0] != x { IndexStays(s[1..], t[1..], x); }
  }

  /** The first symbol of that name is the function's. */
  lemma {:induction false} ByName(syms: seq<O.Symbol>, p: Program, names: seq<string>, order: seq<nat>, n: nat, f: nat)
    requires Listed(syms, p, names, order, n) && Distinct(names) && f < |names|
    ensures forall k :: 0 <= k < |order| ==> (syms[k].name == names[f] <==> order[k] == f)
  {
    forall k | 0 <= k < |order| ensures syms[k].name == names[f] <==> order[k] == f {
      assert syms[k] == Entry(p, names, order[k], n);
      if order[k] < f { assert names[order[k]] != names[f]; } else if f < order[k] { assert names[f] != names[order[k]]; }
    }
  }

  lemma {:induction false} FirstIndex(order: seq<nat>, f: nat, i: nat)
    requires i < |order| && order[i] == f && forall j :: 0 <= j < i ==> order[j] != f
    ensures IndexIn(order, f) == i
    decreases i
  {
    if i > 0 { FirstIndex(order[1..], f, i - 1); }
  }

  /** One call: its symbol, and the table afterwards. */
  method ReferenceFunction(t: SymbolTable, p: Program, names: seq<string>, f: nat, ghost order: seq<nat>, ghost n: nat)
    returns (i: nat)
    requires Listed(t.syms, p, names, order, n) && Distinct(names) && f < |names| && (f < n ==> f in order)
    modifies t
    ensures Listed(t.syms, p, names, Mention(order, f), n) && i == IndexIn(Mention(order, f), f)
  {
    hide Start, CodeOf, Size, IndexIn, Distinct;
    ByName(t.syms, p, names, order, n, f);
    i := t.Reference(names[f]);
    ByName(t.syms, p, names, if i < |order| then order else order + [f], n, f);
    FirstIndex(Mention(order, f), f, i);
  }

  method DefineFunction(t: SymbolTable, p: Program, names: seq<string>, f: nat, ghost order: seq<nat>)
    requires Listed(t.syms, p, names, order, f) && Distinct(names) && f < |names| == |p| && NoRepeats(order)
    modifies t
    ensures Listed(t.syms, p, names, Mention(order, f), f + 1)
  {
    hide Start, CodeOf, Size;
    ByName(t.syms, p, names, order, f, f);
    var i := t.Define(names[f], Start(p, f), Size(CodeOf(p, f)));
    if i < |order| {
      forall k | 0 <= k < |order| ensures t.syms[k] == Entry(p, names, order[k], f + 1) {
        if k != i { assert order[k] != f; }
      }
    }
  }

  /** Relocations of the calls, with the symbols numbered by order. */
  function CallsTo(calls: seq<CallReloc>, order: seq<nat>): (r: seq<O.Reloc>)
    ensures |r| == |calls|
  {
    seq(|calls|, k requires 0 <= k < |calls| => CallTo(calls[k], order))
  }

  lemma {:induction false} CallsStay(calls: seq<CallReloc>, s: seq<nat>, t: seq<nat>)
    requires s <= t && forall k :: 0 <= k < |calls| ==> calls[k].fn in s
    ensures CallsTo(calls, t) == CallsTo(calls, s)
  {
    hide IndexIn;
    forall k | 0 <= k < |calls| ensures CallTo(calls[k], t) == CallTo(calls[k], s) { IndexStays(s, t, calls[k].fn); }
  }

  lemma {:induction false} CallsAppend(a: seq<CallReloc>, b: seq<CallReloc>, order: seq<nat>)
    ensures CallsTo(a + b, order) == CallsTo(a, order) + CallsTo(b, order)
  {
    hide CallTo;
  }

  /** The calls of one function. */
  method CallSymbols(t: SymbolTable, p: Program, names: seq<string>, f: nat, ghost order: seq<nat>) returns (rels: seq<O.Reloc>)
    requires Listed(t.syms, p, names, order, f) && Distinct(names) && f < |p| == |names| && NoRepeats(order)
    requires forall g :: 0 <= g < f ==> g in order
    requires forall k :: 0 <= k < |CallsOf(p, f)| ==> CallsOf(p, f)[k].fn < |p|
    modifies t
    ensures var s := MentionCalls(order, CallsOf(p, f), |CallsOf(p, f)|);
      Listed(t.syms, p, names, s, f) && rels == CallsTo(CallsOf(p, f), s)
  {
    hide Listed, Mention, MentionCalls, CallTo, NoRepeats, CallsOf;
    var calls := CallsOf(p, f);
    NoCallsYet(order, calls);
    rels := [];
    var j := 0;
    while j < |calls|
      invariant j <= |calls| && Listed(t.syms, p, names, MentionCalls(order, calls, j), f)
      invariant rels == CallsTo(calls[..j], MentionCalls(order, calls, j))
    {
      ghost var s := MentionCalls(order, calls, j);
      CallsMentioned(order, calls, j); CallsMentioned(order, calls, j + 1);
      MentionNext(order, calls, j);
      var i := ReferenceFunction(t, p, names, calls[j].fn, s, f);
      ghost var s' := Mention(s, calls[j].fn);
      Mentioned(s, calls[j].fn);
      CallsStay(calls[..j], s, s');
      CallsAppend(calls[..j], [calls[j]], s');
      OneCallTo(calls[j], s');
      assert calls[..j + 1] == calls[..j] + [calls[j]];
      rels := rels + [O.Reloc(calls[j].at, i + 1, 4, -4)];
      j := j + 1;
    }
    assert calls[..j] == calls;
  }

  lemma {:induction false} MentionNext(s: seq<nat>, calls: seq<CallReloc>, j: nat)
    requires j < |calls|
    ensures MentionCalls(s, calls, j + 1) == Mention(MentionCalls(s, calls, j), calls[j].fn)
  {
  }

  lemma {:induction false} NoCallsYet(s: seq<nat>, calls: seq<CallReloc>)
    ensures MentionCalls(s, calls, 0) == s && CallsTo(calls[..0], s) == []
  {
  }

  lemma {:induction false} OneCallTo(c: CallReloc, order: seq<nat>)
    ensures CallsTo([c], order) == [O.Reloc(c.at, IndexIn(order, c.fn) + 1, 4, -4)]
  {
  }

  /** Compiling the functions one by one fills the tables of the object. */
  method BuildTables(p: Program, names: seq<string>) returns (syms: seq<O.Symbol>, rels: seq<O.Reloc>)
    requires |names| == |p| && ProgramFits(p) && Distinct(names)
    ensures syms == ObjectOf(p, names).syms && rels == ObjectOf(p, names).relText
  {
    hide Listed, Mention, MentionCalls, CallTo, NoRepeats, ProgramFits, CallsOf, IndexIn, Text, CodeOf;
    var t := new SymbolTable();
    rels := [];
    NothingYet(p, names);
    var f := 0;
    while f < |p|
      invariant f <= |p| && Listed(t.syms, p, names, SymbolOrder(p, f), f)
      invariant rels == CallsTo(ProgramCalls(p, f), SymbolOrder(p, f))
    {
      ghost var s, calls, before := SymbolOrder(p, f), CallsOf(p, f), ProgramCalls(p, f);
      OrderHas(p, f); OrderHas(p, f + 1);
      CallsKnown(p, f);
      ghost var s1 := MentionCalls(s, calls, |calls|);
      CallsMentioned(s, calls, |calls|);
      var more := CallSymbols(t, p, names, f, s);
      DefineFunction(t, p, names, f, s1);
      Mentioned(s1, f);
      CallsStay(before, s, Mention(s1, f)); CallsStay(calls, s1, Mention(s1, f));
      CallsAppend(before, calls, Mention(s1, f));
      NextFunction(p, f);
      rels := rels + more;
      f := f + 1;
    }
    syms := t.syms;
    AllListed(p, names, syms);
  }

  lemma {:induction false} NothingYet(p: Program, names: seq<string>)
    ensures SymbolOrder(p, 0) == [] && Listed([], p, names, [], 0) && CallsTo(ProgramCalls(p, 0), []) == []
  {
  }

  lemma {:induction false} NextFunction(p: Program, f: nat)
    requires f < |p|
    ensures SymbolOrder(p, f + 1) == Mention(MentionCalls(SymbolOrder(p, f), CallsOf(p, f), |CallsOf(p, f)|), f)
    ensures ProgramCalls(p, f + 1) == ProgramCalls(p, f) + CallsOf(p, f)
  {
    hide Mention, MentionCalls, Calls, CodeOf;
  }

  lemma {:induction false} CallsKnown(p: Program, f: nat)
    requires ProgramFits(p) && f < |p|
    ensures forall k :: 0 <= k < |CallsOf(p, f)| ==> CallsOf(p, f)[k].fn < |p|
  {
    hide ProgramFits, CallsOf, ProgramCalls;
    NextFunction(p, f);
    forall k | 0 <= k < |CallsOf(p, f)| ensures CallsOf(p, f)[k].fn < |p| {
      assert ProgramCalls(p, f + 1)[|ProgramCalls(p, f)| + k] == CallsOf(p, f)[k];
      ProgramCallsInside(p, f + 1, |ProgramCalls(p, f)| + k);
    }
  }

  lemma {:induction false} AllListed(p: Program, names: seq<string>, syms: seq<O.Symbol>)
    requires |names| == |p| && ProgramFits(p) && Listed(syms, p, names, SymbolOrder(p, |p|), |p|)
    ensures syms == ObjectOf(p, names).syms && CallsTo(ProgramCalls(p, |p|), SymbolOrder(p, |p|)) == ObjectOf(p, names).relText
  {
    hide ProgramFits, SymbolOrder, ProgramCalls, Text, CodeOf, Start, Size, CallTo;
    OrderHas(p, |p|);
  }

  /** Distinct names, and no input before i defines one of them. */
  ghost predicate OwnNames(ins: L.Inputs, i: nat, names: seq<string>)
    requires i < |ins|
  {
    && Distinct(names)
    && (forall f :: 0 <= f < |names| ==> names[f] != "")
    && forall a, b :: 0 <= a < i && 0 <= b < |ins[a].syms| && L.IsDefinition(ins[a].syms[b]) ==> ins[a].syms[b].name !in names
  }

  /** All symbols are global: they keep their order. */
  lemma {:induction false} GlobalsOnly(syms: seq<O.Symbol>, n: nat)
    requires n <= |syms| && forall i :: 0 <= i < |syms| ==> syms[i].isGlobal
    ensures O.Having(syms, false, n) == [] && O.Having(syms, true, n) == seq(n, i => i)
    decreases n
  {
    if n > 0 {
      GlobalsOnly(syms, n - 1);
      assert seq(n, i => i) == seq(n - 1, i => i) + [n - 1];
    }
  }

  /** The call relocations of one function's code are inside it and name functions. */
  lemma {:induction false} CallsInside(c: Code, pos: nat, n: nat, k: nat)
    requires Loadable(c, n) && k < |Calls(c, pos)|
    ensures pos <= Calls(c, pos)[k].at && Calls(c, pos)[k].at + 4 <= pos + Size(c) && Calls(c, pos)[k].fn < n
    decreases c
  {
    match c
    case Cat(a, b) =>
      if k < |Calls(a, pos)| { CallsInside(a, pos, n, k); } else { CallsInside(b, pos + Size(a), n, k - |Calls(a, pos)|); }
    case _ =>
  }

  lemma {:induction false} ProgramCallsInside(p: Program, fn: nat, k: nat)
    requires ProgramFits(p) && fn <= |p| && k < |ProgramCalls(p, fn)|
    ensures ProgramCalls(p, fn)[k].at + 4 <= Start(p, fn) && ProgramCalls(p, fn)[k].fn < |p|
    decreases fn
  {
    hide CodeOf, Calls, Loadable, Size, FunctionFits, DefCount, Uses, Counter;
    if k < |ProgramCalls(p, fn - 1)| {
      ProgramCallsInside(p, fn - 1, k);
    } else {
      StartsGrow(p, fn, |p|);
      var f := p[fn - 1];
      assert FunctionFits(p, fn - 1);
      assert Start(p, fn) == Start(p, fn - 1) + Size(CodeOf(p, fn - 1));
      FunctionLabels(p, fn - 1, 0);
      CallsInside(CodeOf(p, fn - 1), Start(p, fn - 1), |p|, k - |ProgramCalls(p, fn - 1)|);
    }
  }

  /** The object as the linker reads it: the entries name the functions in the order of
      their symbols, and every relocation names the symbol of the function that is called. */
  lemma {:induction false} ReadsAs(p: Program, names: seq<string>, f: nat, k: nat)
    requires |names| == |p| && ProgramFits(p)
    ensures var o, order := O.InputOf(ObjectOf(p, names)), FinalOrder(p);
      && o.text == Text(p, |p|, []) && |o.syms| == |order| + 1 && |o.relText| == |ProgramCalls(p, |p|)| && o.shText == 1
      && (f < |order| ==> o.syms[f + 1] == L.Sym(names[order[f]], 1, 1, Start(p, order[f])))
      && (k < |o.relText| ==>
            var c := ProgramCalls(p, |p|)[k]; c.fn in order && o.relText[k] == L.Rela(c.at, IndexIn(order, c.fn) + 1, 4, -4))
  {
    hide Text, Start, ProgramCalls, Size, CodeOf, O.Having, ProgramFits, IndexIn, SymbolOrder;
    var syms, order := ObjectOf(p, names).syms, FinalOrder(p);
    OrderHas(p, |p|);
    GlobalsOnly(syms, |syms|);
    if k < |ProgramCalls(p, |p|)| {
      GlobalsOnly(syms, IndexIn(order, ProgramCalls(p, |p|)[k].fn));
    }
  }

  /** A name that some input defines resolves. */
  lemma {:induction false} DefinedResolves(ins: L.Inputs, i: nat, b: nat)
    requires i < |ins| && b < |ins[i].syms| && L.IsDefinition(ins[i].syms[b])
    ensures L.Resolve(ins, ins[i].syms[b].name).Some?
  {
    hide L.Defs, L.Find;
    var name := ins[i].syms[b].name;
    if L.Resolve(ins, name).None? { P.NoneBefore(ins, |ins|, i, b, name); }
  }

  /** The first definition of a function's name is the one in input i. */
  lemma {:induction false} FirstIsHere(ins: L.Inputs, i: nat, names: seq<string>, order: seq<nat>, g: nat)
    requires i < |ins| && g < |order| && NoRepeats(order) && OwnNames(ins, i, names) && |ins[i].syms| == |order| + 1
    requires forall k :: 0 <= k < |order| ==> order[k] < |names|
    requires ins[i].syms[0].name == "" && forall k :: 0 <= k < |order| ==> ins[i].syms[k + 1].name == names[order[k]]
    requires L.IsDefinition(ins[i].syms[g + 1])
    ensures L.Resolve(ins, names[order[g]]) == L.Some(L.SymAddr(ins, i, ins[i].syms[g + 1]))
  {
    hide L.Defs, L.Find, L.SymAddr;
    DefinedResolves(ins, i, g + 1);
    var a, b := P.ResolveIsFirst(ins, |ins|, names[order[g]]);
    assert ins[a].syms[b].name in names;
    assert a >= i;
    if b > 0 && a == i { assert ins[i].syms[b - 1 + 1].name == names[order[b - 1]]; }
    assert a == i && b == g + 1;
  }

  /** The symbol of function f resolves to the function's place in the merged text. */
  lemma {:induction false} FunctionResolves(ins: L.Inputs, i: nat, p: Program, names: seq<string>, f: nat)
    requires i < |ins| && |names| == |p| && ProgramFits(p) && ins[i] == O.InputOf(ObjectOf(p, names)) && OwnNames(ins, i, names)
    requires f < |p| && Start(p, f) < 0x8000_0000
    ensures L.SymValue(ins, i, IndexIn(FinalOrder(p), f) + 1) == L.TextBase(ins, i) + Start(p, f)
  {
    hide O.InputOf, ObjectOf, L.Resolve, L.TextBase, L.SymAddr, Start, Text, ProgramCalls, L.Defs, ProgramFits, SymbolOrder, IndexIn;
    var order := FinalOrder(p);
    OrderHas(p, |p|);
    var g := IndexIn(order, f);
    ReadsAs(p, names, g, 0);
    forall k | 0 <= k < |order| ensures ins[i].syms[k + 1].name == names[order[k]] { ReadsAs(p, names, k, 0); }
    NullName(p, names);
    assert names[f] != "";
    FirstIsHere(ins, i, names, order, g);
    TextAddress(ins, i, ins[i].syms[g + 1]);
  }

  lemma {:induction false} TextAddress(ins: L.Inputs, i: nat, s: L.Sym)
    requires i < |ins| && ins[i].shText == 1 && s.shndx == 1 && s.value < 0x8000_0000
    ensures L.SymAddr(ins, i, s) == L.TextBase(ins, i) + s.value
  {
    hide L.TextBase, L.DataBase, L.BssBase;
    O.SmallWord(s.value);
  }

  lemma {:induction false} NullName(p: Program, names: seq<string>)
    requires |names| == |p| && ProgramFits(p)
    ensures var o := O.InputOf(ObjectOf(p, names)); |o.syms| > 0 && o.syms[0].name == ""
  {
    hide Text, Start, ProgramCalls, Size, CodeOf, O.Having, ProgramFits;
  }

  /** So the object that is read is an object of the program. */
  lemma {:induction false} IsProgramObject(ins: L.Inputs, i: nat, p: Program, names: seq<string>)
    requires i < |ins| && |names| == |p| && ProgramFits(p) && ins[i] == O.InputOf(ObjectOf(p, names)) && OwnNames(ins, i, names)
    ensures IsObjectOf(ins, i, p)
  {
    hide O.InputOf, ObjectOf, Start, Text, OwnNames, ProgramFits, IsCall;
    ReadsAs(p, names, 0, 0);
    forall k | 0 <= k < |ins[i].relText| ensures IsCall(ins, i, p, k) {
      CallIs(ins, i, p, names, k);
    }
  }

  lemma {:induction false} TextBelow(p: Program)
    requires ProgramFits(p)
    ensures Start(p, |p|) < 0x8000_0000
  {
    hide FunctionFits, Start;
  }

  lemma {:induction false} CallIs(ins: L.Inputs, i: nat, p: Program, names: seq<string>, k: nat)
    requires i < |ins| && |names| == |p| && ProgramFits(p) && ins[i] == O.InputOf(ObjectOf(p, names)) && OwnNames(ins, i, names)
    requires k < |ProgramCalls(p, |p|)|
    ensures k < |ins[i].relText| && IsCall(ins, i, p, k)
  {
    hide O.InputOf, ObjectOf, L.Resolve, L.TextBase, L.SymValue, Start, Text, ProgramCalls, OwnNames, FunctionFits, ProgramFits,
      IndexIn, FinalOrder, CodeOf;
    TextBelow(p);
    ProgramCallsInside(p, |p|, k);
    ReadsAs(p, names, 0, k);
    StartsGrow(p, ProgramCalls(p, |p|)[k].fn, |p|);
    FunctionResolves(ins, i, p, names, ProgramCalls(p, |p|)[k].fn);
  }

  /** Input i is what the reader makes of the written object file of p, and the inputs link. */
  ghost predicate Delivered(ins: L.Inputs, entry: string, i: nat, p: Program, names: seq<string>)
  {
    && |names| == |p| && ProgramFits(p) && O.Writes(ObjectOf(p, names))
    && i < |ins| && O.ReadObject(O.FileOf(ObjectOf(p, names))) == O.Read(ins[i]) && OwnNames(ins, i, names)
    && P.Linkable(ins, entry) && L.TextSize(ins) <= CODE_LIMIT && OwnParts(ins)
  }

  lemma {:induction false} DeliveredObject(ins: L.Inputs, entry: string, i: nat, p: Program, names: seq<string>)
    requires Delivered(ins, entry, i, p, names)
    ensures P.Linkable(ins, entry) && L.TextSize(ins) <= CODE_LIMIT && ProgramFits(p) && OwnParts(ins)
    ensures i < |ins| && IsObjectOf(ins, i, p)
  {
    hide O.FileOf, O.ReadObject, O.InputOf, ObjectOf, O.Writes, P.Linkable, L.TextSize, ProgramFits, IsObjectOf, OwnParts, OwnNames;
    O.RoundTrip(ObjectOf(p, names));
    IsProgramObject(ins, i, p, names);
  }

  /** From source through the written object file to the running executable: if the
      bytes of the object file of p are read back and linked at place i, the result is
      loaded and a function is called, it returns what the source means. */
  lemma {:induction false} WrittenReadLinkedRun(ins: L.Inputs, entry: string, i: nat, p: Program, names: seq<string>,
                                                fuel: nat, fn: nat, vals: seq<int>, m: M)
    requires Delivered(ins, entry, i, p, names) && CallState(p, L.TextBase(ins, i), fn, vals, m) && |vals| <= p[fn].slots
    requires Meaning(p, fuel, fn, vals).Returned? || Meaning(p, fuel, fn, vals).Normal?
    ensures exists n: nat, m' ::
      Run(ProgOf(LoadedText(P.Output(ins, entry), L.TextSize(ins)), L.BASE_ADDR), m, n) == Next(m')
      && BackAtCaller(m, m', Meaning(p, fuel, fn, vals))
  {
    hide Delivered, P.Linkable, L.TextSize, LoadedText, ProgOf, Run, BackAtCaller, Meaning, ProgramFits, IsObjectOf, OwnParts, CallState;
    DeliveredObject(ins, entry, i, p, names);
    LinkedProgramReturns(ins, entry, i, p, fuel, fn, vals, m);
  }

  /** A division by zero in the source is a divide fault of the executable. */
  lemma {:induction false} WrittenReadLinkedTraps(ins: L.Inputs, entry: string, i: nat, p: Program, names: seq<string>,
                                                  fuel: nat, fn: nat, vals: seq<int>, m: M)
    requires Delivered(ins, entry, i, p, names) && CallState(p, L.TextBase(ins, i), fn, vals, m) && |vals| <= p[fn].slots
    requires Meaning(p, fuel, fn, vals) == Stopped(Trap)
    ensures exists n: nat ::
      Run(ProgOf(LoadedText(P.Output(ins, entry), L.TextSize(ins)), L.BASE_ADDR), m, n) == DivideError
  {
    hide Delivered, P.Linkable, L.TextSize, LoadedText, ProgOf, Run, Meaning, ProgramFits, IsObjectOf, OwnParts, CallState;
    DeliveredObject(ins, entry, i, p, names);
    LinkedProgramTraps(ins, entry, i, p, fuel, fn, vals, m);
  }

  /** A source program that never stops keeps the executable running. */
  lemma {:induction false} WrittenReadLinkedDiverges(ins: L.Inputs, entry: string, i: nat, p: Program, names: seq<string>,
                                                     fn: nat, vals: seq<int>, m: M, steps: nat)
    requires Delivered(ins, entry, i, p, names) && CallState(p, L.TextBase(ins, i), fn, vals, m) && |vals| <= p[fn].slots
    requires forall fuel: nat :: Meaning(p, fuel, fn, vals) == Stopped(Timeout)
    ensures Run(ProgOf(LoadedText(P.Output(ins, entry), L.TextSize(ins)), L.BASE_ADDR), m, steps).Next?
  {
    hide Delivered, P.Linkable, L.TextSize, LoadedText, ProgOf, Run, Meaning, ProgramFits, IsObjectOf, OwnParts, CallState;
    DeliveredObject(ins, entry, i, p, names);
    LinkedProgramDiverges(ins, entry, i, p, fn, vals, m, steps);
  }
}
