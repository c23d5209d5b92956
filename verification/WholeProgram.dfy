/** Whole programs: the functions one after the other, their calls relocated,
    loaded at any address, run as the source says. */
module WholeProgram {
  import opened Bytes
  import opened Words
  import opened X86
  import opened CSource
  import opened CodeGen
  import opened Blocks
  import opened Frames
  import opened Snippets
  import opened Arguments
  import opened Statements
  import opened Emission
  import opened Labels
  import opened Uniqueness
  import opened Simulation

  // ----- The text of a program -----

  /** The label counter after function f; it is never reset. */
  function NextLabel(f: Func, next: int): int { BodyCode(f, next).g.next }

  /** The label counter at the start of function fn. */
  function Counter(p: Program, fn: nat): int
    requires fn <= |p|
  {
    if fn == 0 then 0 else NextLabel(p[fn - 1], Counter(p, fn - 1))
  }

  function CodeOf(p: Program, fn: nat): Code
    requires fn < |p|
  {
    FuncCode(p[fn], Counter(p, fn))
  }

  /** The offset at which function fn starts; for |p|, the size of the text. */
  function Start(p: Program, fn: nat): nat
    requires fn <= |p|
  {
    if fn == 0 then 0 else Start(p, fn - 1) + Size(CodeOf(p, fn - 1))
  }

  function Starts_(p: Program): (s: seq<int>)
    ensures |s| == |p|
  {
    seq(|p|, fn requires 0 <= fn < |p| => Start(p, fn))
  }

  function FuncLabels(p: Program, fn: nat): seq<Def>
    requires fn < |p|
  {
    Labs(CodeOf(p, fn), Start(p, fn))
  }

  /** The text after the first fn functions: each one with its own jumps resolved,
      and its calls resolved against entry (or left open if entry is empty). */
  function Text(p: Program, fn: nat, entry: seq<int>): (s: seq<Byte>)
    requires fn <= |p|
    ensures |s| == Start(p, fn)
  {
    if fn == 0 then []
    else Text(p, fn - 1, entry) + Final(CodeOf(p, fn - 1), Start(p, fn - 1), FuncLabels(p, fn - 1), entry)
  }

  /** The call relocations of the first fn functions. */
  function ProgramCalls(p: Program, fn: nat): seq<CallReloc>
    requires fn <= |p|
  {
    if fn == 0 then [] else ProgramCalls(p, fn - 1) + Calls(CodeOf(p, fn - 1), Start(p, fn - 1))
  }

  /** The linked text of the program. */
  function LinkedText(p: Program): seq<Byte> { Text(p, |p|, Starts_(p)) }

  // ----- Which programs -----

  /** A function of the fragment: faithful code, variables and calls in scope,
      labels defined once and all gotos defined, and a return at its end if the
      generator takes its last byte for one. */
  ghost predicate FunctionFits(p: Program, fn: nat)
    requires fn < |p|
  {
    var f := p[fn];
    && FaithfulStmt(f.body, false, false) && ScopedStmt(f.body, f.slots, |p|)
    && f.nparams <= 14 && f.nparams <= f.slots <= SLOT_LIMIT
    && (forall name :: NameCount(f.body, name) <= 1)
    && (forall name :: JumpsTo(f.body, name) ==> NameCount(f.body, name) >= 1)
    && (f.sealed <==> !EndsInC3(Cat(PrologueCode(f), BodyCode(f, Counter(p, fn)).code)))
  }

  ghost predicate ProgramFits(p: Program)
  {
    Start(p, |p|) <= CODE_LIMIT && forall fn {:trigger p[fn]} :: 0 <= fn < |p| ==> FunctionFits(p, fn)
  }

  // ----- Relocation of a whole text -----

  /** Applying the call relocations of the object text gives the linked text. */
  lemma {:induction false} CallsLinked(p: Program, fn: nat, post: seq<Byte>)
    requires fn <= |p|
    ensures ApplyCalls(Text(p, fn, []) + post, ProgramCalls(p, fn), Starts_(p)) == Text(p, fn, Starts_(p)) + post
    decreases fn
  {
    hide Final, CodeOf, ApplyCalls, Start, Labs, Calls, Starts_;
    var entry := Starts_(p);
    if fn == 0 {
      NoCalls(Text(p, 0, []) + post, entry);
    } else {
      var k := fn - 1;
      var c, at := CodeOf(p, k), Start(p, k);
      var f0, f1 := Final(c, at, FuncLabels(p, k), []), Final(c, at, FuncLabels(p, k), entry);
      Regroup(Text(p, k, []), f0, post);
      CallsLinked(p, k, f0 + post);
      CallsThen(Text(p, fn, []) + post, ProgramCalls(p, k), Calls(c, at), entry);
      Regroup(Text(p, k, entry), f0, post);
      Relocate(c, Text(p, k, entry), post, FuncLabels(p, k), entry);
      Regroup(Text(p, k, entry), f1, post);
    }
  }

  // ----- Labels of one function -----

  lemma {:induction false} ProloguePlain(f: Func, n: nat)
    requires f.nparams <= 14 && f.slots <= SLOT_LIMIT
    ensures Plain(PrologueCode(f), n)
  {
    hide Plain, Size, SpillCode, FrameCode, Encode, Len;
    SpillPlain(0, f.nparams, n);
    PlainI(PushRbp, n); PlainI(MovRbpRsp, n); PlainNil(n);
    if f.slots > 0 { PlainI(SubRsp(Align16(4 * f.slots)), n); }
    FramePlain(f.slots, n);
    PlainCat(FrameCode(f.slots), SpillCode(0, f.nparams), n);
    PlainCat(I(MovRbpRsp), Cat(FrameCode(f.slots), SpillCode(0, f.nparams)), n);
    PlainCat(I(PushRbp), Cat(I(MovRbpRsp), Cat(FrameCode(f.slots), SpillCode(0, f.nparams))), n);
  }

  lemma {:induction false} FramePlain(slots: nat, n: nat)
    requires slots <= SLOT_LIMIT
    ensures Plain(FrameCode(slots), n)
  {
    hide Plain, Size, Encode, Len;
    PlainNil(n);
    PlainI(SubRsp(Align16(4 * slots)), n);
  }

  lemma {:induction false} SpillPlain(i: nat, k: nat, n: nat)
    requires k <= 14
    ensures Plain(SpillCode(i, k), n)
    decreases k - i
  {
    hide Plain, Size, Encode, Len;
    PlainNil(n);
    if i < k {
      SpillPlain(i + 1, k, n);
      if i < 6 {
        PlainI(StoreArg(i, Off(i)), n);
        PlainCat(I(StoreArg(i, Off(i))), SpillCode(i + 1, k), n);
      } else {
        PlainI(LoadEax(0x10 + (i - 6) * 8), n); PlainI(StoreEax(Off(i)), n);
        PlainCat(I(StoreEax(Off(i))), SpillCode(i + 1, k), n);
        PlainCat(I(LoadEax(0x10 + (i - 6) * 8)), Cat(I(StoreEax(Off(i))), SpillCode(i + 1, k)), n);
      }
    }
  }

  lemma {:induction false} SomeOwner(g: G, l: int) returns (who: Owner)
    ensures Owns(g, l, who)
  {
    if name :| name in g.gotos && g.gotos[name] == l {
      who := Owned(name);
    } else {
      who := Free;
    }
  }

  /** One function: each label is defined once and between its counters, every jump
      has its label, and everything is encodable. */
  lemma {:induction false} FunctionLabels(p: Program, fn: nat, l: int)
    requires fn < |p| && FunctionFits(p, fn) && Size(CodeOf(p, fn)) <= CODE_LIMIT
    ensures DefCount(CodeOf(p, fn), l) <= 1 && Loadable(CodeOf(p, fn), |p|)
    ensures DefCount(CodeOf(p, fn), l) >= 1 ==> Counter(p, fn) <= l < Counter(p, fn + 1)
    ensures Uses(CodeOf(p, fn), l) ==> DefCount(CodeOf(p, fn), l) == 1
  {
    hide Plain, Size, SCode, DefCount, Uses, Loadable, FaithfulStmt, ScopedStmt, EndsInC3, Sound, PrologueCode,
      EPILOGUE, NameCount, JumpsTo, Grows;
    var f, next := p[fn], Counter(p, fn);
    var g0 := G(next, map[]);
    var body := BodyCode(f, next);
    var main := Cat(PrologueCode(f), body.code);
    var tail := if EndsInC3(main) then Nil else EPILOGUE;
    CounterNat(p, fn);
    SoundStart(next);
    GrowsSelf(body.g, body.g.next);
    assert body.g.(next := body.g.next) == body.g;
    SCodeGrows(f.body, -1, -1, g0);
    var n := |p|;
    PlainCat(main, tail, n); PlainCat(PrologueCode(f), body.code, n);
    SCodeSound(f.body, -1, -1, g0);
    var who := SomeOwner(body.g, l);
    StmtFacts(f.body, -1, -1, g0, body.g, l, who, false, false, f.slots, n);
    ProloguePlain(f, n);
    FactsPlain(PrologueCode(f), n, l, who);
    FactsEpilogue(n, l, who); FactsNil(n, l, who);
    var ok := Reachable(body.code, l, who, JumpsTo(f.body, Name(who)), -1, -1);
    var names := NameCount(f.body, Name(who));
    var mine := next <= l < body.g.next;
    FactsCat(PrologueCode(f), body.code, n, l, who, 0, names, false, mine, false, ok);
    FactsCat(main, tail, n, l, who, names, 0, mine, false, ok, false);
    if who.Owned? { OwnedRange(g0, body.g, l, who); }
  }

  lemma {:induction false} CounterNat(p: Program, fn: nat)
    requires fn <= |p|
    ensures Counter(p, fn) >= 0
    decreases fn
  {
    if fn > 0 {
      CounterNat(p, fn - 1);
      SCodeGrows(p[fn - 1].body, -1, -1, G(Counter(p, fn - 1), map[]));
    }
  }

  lemma {:induction false} SoundStart(next: int)
    requires next >= 0
    ensures Sound(G(next, map[]))
  {
  }

  lemma {:induction false} OwnedRange(g0: G, gF: G, l: int, who: Owner)
    requires Grows(g0, gF) && g0.gotos == map[] && Sound(gF) && Owns(gF, l, who) && who.Owned?
    ensures g0.next <= l < gF.next
  {
  }

  // ----- The program as an environment -----

  function Ids(labels: seq<Def>): set<int> { set d | d in labels :: d.id }

  function Positions(labels: seq<Def>, base: int): map<int, int>
  {
    map l | l in Ids(labels) :: base + Lookup(labels, l)
  }

  /** The labels of the first fn functions, at their addresses. */
  function LabelsAt(p: Program, fn: nat, base: int): map<int, int>
    requires fn <= |p|
  {
    if fn == 0 then map[] else LabelsAt(p, fn - 1, base) + Positions(FuncLabels(p, fn - 1), base)
  }

  /** A text that holds the linked program at org, loaded at base. */
  function EnvOf(p: Program, text: seq<Byte>, base: int, org: nat): Env
  {
    Env(ProgOf(text, base), LabelsAt(p, |p|, base + org), seq(|p|, fn requires 0 <= fn < |p| => base + org + Start(p, fn)))
  }

  /** The linked program is in text at org, perhaps among other code. */
  predicate HoldsProgram(p: Program, text: seq<Byte>, org: nat) { Sits(text, org, LinkedText(p)) && |text| <= CODE_LIMIT }

  function Counters(p: Program): (s: seq<int>)
    ensures |s| == |p|
  {
    seq(|p|, fn requires 0 <= fn < |p| => Counter(p, fn))
  }

  lemma {:induction false} InIds(labels: seq<Def>, l: int)
    ensures Lookup(labels, l) >= 0 ==> l in Ids(labels) && Occurs(labels, l) >= 1
    ensures l in Ids(labels) ==> Occurs(labels, l) >= 1
    decreases |labels|
  {
    if labels != [] {
      InIds(labels[1..], l);
      assert labels == [labels[0]] + labels[1..];
      assert Ids(labels) == {labels[0].id} + Ids(labels[1..]) by { IdsCons(labels); }
    }
  }

  lemma {:induction false} IdsCons(labels: seq<Def>)
    requires labels != []
    ensures Ids(labels) == {labels[0].id} + Ids(labels[1..])
  {
    forall l | l in Ids(labels) ensures l in {labels[0].id} + Ids(labels[1..]) {
      var d :| d in labels && d.id == l;
      if d != labels[0] { assert d in labels[1..]; }
    }
    forall l | l in {labels[0].id} + Ids(labels[1..]) ensures l in Ids(labels) {
      if l != labels[0].id {
        var d :| d in labels[1..] && d.id == l;
        assert d in labels;
      } else {
        assert labels[0] in labels;
      }
    }
  }

  lemma {:induction false} CountersGrow(p: Program, i: nat, j: nat)
    requires i <= j <= |p|
    ensures Counter(p, i) <= Counter(p, j)
    decreases j
  {
    if i < j {
      CountersGrow(p, i, j - 1);
      SCodeGrows(p[j - 1].body, -1, -1, G(Counter(p, j - 1), map[]));
      GrowsNext(G(Counter(p, j - 1), map[]), BodyCode(p[j - 1], Counter(p, j - 1)).g);
    }
  }

  lemma {:induction false} StartsGrow(p: Program, i: nat, j: nat)
    requires i <= j <= |p|
    ensures Start(p, i) <= Start(p, j)
    ensures i < j ==> Start(p, i) + Size(CodeOf(p, i)) <= Start(p, j)
    decreases j
  {
    hide Size, CodeOf;
    if i < j { StartsGrow(p, i, j - 1); }
  }

  /** A label of function fn is at its place in the whole label map. */
  lemma {:induction false} LabelKept(p: Program, k: nat, fn: nat, base: int, l: int)
    requires fn < k <= |p| && ProgramFits(p) && Lookup(FuncLabels(p, fn), l) >= 0
    ensures l in LabelsAt(p, k, base) && LabelsAt(p, k, base)[l] == base + Lookup(FuncLabels(p, fn), l)
    decreases k
  {
    hide Start, CodeOf, FunctionFits, Labs, Lookup, Size, ProgramFits, Counter, Occurs;
    InIds(FuncLabels(p, fn), l);
    if fn < k - 1 {
      LabelKept(p, k - 1, fn, base, l);
      LabelRange(p, fn, l);
      if l in Ids(FuncLabels(p, k - 1)) {
        InIds(FuncLabels(p, k - 1), l);
        LabelRange(p, k - 1, l);
        CountersGrow(p, fn + 1, k - 1);
      }
    }
  }

  lemma {:induction false} FitsAt(p: Program, fn: nat)
    requires fn < |p| && ProgramFits(p)
    ensures FunctionFits(p, fn) && Start(p, |p|) <= CODE_LIMIT
  {
    hide FunctionFits, Start;
    assert p[fn] == p[fn];
  }

  /** Labels of function fn are numbered between its counters. */
  lemma {:induction false} LabelRange(p: Program, fn: nat, l: int)
    requires fn < |p| && ProgramFits(p) && Occurs(FuncLabels(p, fn), l) >= 1
    ensures Counter(p, fn) <= l < Counter(p, fn + 1)
  {
    hide FunctionFits, Labs, Size, DefCount, CodeOf, Occurs;
    FitsAt(p, fn);
    SizeInText(p, fn);
    DefCountIs(CodeOf(p, fn), Start(p, fn), l);
    FunctionLabels(p, fn, l);
  }

  lemma {:induction false} SizeInText(p: Program, fn: nat)
    requires fn < |p|
    ensures Start(p, fn) + Size(CodeOf(p, fn)) <= Start(p, |p|)
  {
    StartsGrow(p, fn, |p|);
  }

  /** Offsets of labels lie inside the code. */
  lemma {:induction false} LabelBound(c: Code, pos: nat, l: int)
    ensures Lookup(Labs(c, pos), l) <= pos + Size(c)
    decreases c
  {
    match c {
      case Cat(a, b) =>
        LabelBound(a, pos, l);
        LabelBound(b, pos + Size(a), l);
        LookupCat(Labs(a, pos), Labs(b, pos + Size(a)), l);
      case Nil =>
      case I(_) =>
      case JmpL(_) =>
      case JccL(_, _) =>
      case Lab(_) =>
      case CallF(_) =>
    }
  }

  lemma {:induction false} LookupCat(a: seq<Def>, b: seq<Def>, l: int)
    ensures Lookup(a + b, l) == Lookup(a, l) || Lookup(a + b, l) == Lookup(b, l)
    decreases |a|
  {
    if a == [] {
      assert a + b == b;
    } else {
      assert (a + b)[1..] == a[1..] + b;
      if a[0].id != l { LookupCat(a[1..], b, l); }
    }
  }

  /** Function fn sits in the text at its start. */
  lemma {:induction false} FunctionSits(p: Program, fn: nat, k: nat, entry: seq<int>)
    requires fn < k <= |p|
    ensures Sits(Text(p, k, entry), Start(p, fn), Final(CodeOf(p, fn), Start(p, fn), FuncLabels(p, fn), entry))
    decreases k
  {
    hide Final, CodeOf, Labs;
    if fn == k - 1 {
      var t := Text(p, fn, entry);
      var f := Final(CodeOf(p, fn), Start(p, fn), FuncLabels(p, fn), entry);
      assert (t + f)[|t|..|t| + |f|] == f;
    } else {
      FunctionSits(p, fn, k - 1, entry);
      var f := Final(CodeOf(p, fn), Start(p, fn), FuncLabels(p, fn), entry);
      SitsMore(Text(p, k - 1, entry), Final(CodeOf(p, k - 1), Start(p, k - 1), FuncLabels(p, k - 1), entry), Start(p, fn), f);
    }
  }

  lemma {:induction false} SitsMore(t: seq<Byte>, more: seq<Byte>, at: int, s: seq<Byte>)
    requires Sits(t, at, s)
    ensures Sits(t + more, at, s)
  {
    assert (t + more)[at..at + |s|] == t[at..at + |s|];
  }

  lemma {:induction false} EnvDescribes(p: Program, text: seq<Byte>, fn: nat, base: int, org: nat)
    requires fn < |p| && ProgramFits(p) && HoldsProgram(p, text, org)
    ensures Describes(EnvOf(p, text, base, org), text, base, org, FuncLabels(p, fn), Starts_(p))
  {
    hide Lookup, Labs, Size, ProgOf, LabelsAt, FunctionFits, Text, CodeOf, Start;
    LinkedSize(p);
    var v := EnvOf(p, text, base, org);
    var entry := Starts_(p);
    forall k | 0 <= k < |entry| ensures v.entry[k] == base + org + entry[k] && 0 <= entry[k] <= |text| {
      StartsGrow(p, k, |p|);
    }
    var all := FuncLabels(p, fn);
    forall l {:trigger Lookup(all, l)} | Lookup(all, l) >= 0
      ensures l in v.L && v.L[l] == base + org + Lookup(all, l) && Lookup(all, l) <= |text|
    {
      LabelKept(p, |p|, fn, base + org, l);
      LabelBound(CodeOf(p, fn), Start(p, fn), l);
      SizeInText(p, fn);
    }
  }

  /** Every function of the program is in place. */
  lemma {:induction false} FunctionPlaced(p: Program, text: seq<Byte>, fn: nat, base: int, org: nat)
    requires fn < |p| && ProgramFits(p) && HoldsProgram(p, text, org)
    ensures Place(EnvOf(p, text, base, org), base + org + Start(p, fn), CodeOf(p, fn)).InPlace?
  {
    hide Lookup, Labs, Size, ProgOf, LabelsAt, Text, CodeOf, Start, FuncCode, FaithfulStmt, ScopedStmt, EnvOf, Place, Describes,
      DefCount, Uses, Loadable, Closed, Found, Fits, Final, Occurs, FunctionFits;
    var c := CodeOf(p, fn);
    var all := FuncLabels(p, fn);
    FitsAt(p, fn);
    SizeInText(p, fn);
    LinkedSize(p);
    forall l ensures Occurs(all, l) <= 1 {
      DefCountIs(c, Start(p, fn), l);
      FunctionLabels(p, fn, l);
    }
    forall l | Uses(c, l) ensures Lookup(all, l) >= 0 {
      DefCountIs(c, Start(p, fn), l);
      FunctionLabels(p, fn, l);
      OccursFound(all, l);
    }
    FunctionLabels(p, fn, 0);
    ClosedIf(c, all, |p|);
    assert all == [] + Labs(c, Start(p, fn)) + [];
    FoundAll(c, Start(p, fn), [], [], all);
    FunctionSits(p, fn, |p|, Starts_(p));
    EnvDescribes(p, text, fn, base, org);
    SitsIn(text, org, LinkedText(p), Start(p, fn), Final(c, Start(p, fn), all, Starts_(p)));
    Placed(c, Start(p, fn), text, base, org, all, Starts_(p), EnvOf(p, text, base, org));
  }

  lemma {:induction false} LinkedSize(p: Program)
    ensures |LinkedText(p)| == Start(p, |p|)
  {
  }

  /** The linked program is loaded as the simulation needs it. */
  lemma {:induction false} ProgramLoaded(p: Program, text: seq<Byte>, base: int, org: nat)
    requires ProgramFits(p) && HoldsProgram(p, text, org)
    ensures Loaded(EnvOf(p, text, base, org), p, Counters(p)).InPlace?
  {
    hide Place, Start, CodeOf, ProgOf, LabelsAt, FaithfulStmt, EndsInC3, FuncCode, LinkedText;
    var v := EnvOf(p, text, base, org);
    forall fn {:trigger p[fn]} | 0 <= fn < |p| ensures FunctionOk(v, p[fn], v.entry[fn], Counters(p)[fn]) {
      FunctionPlaced(p, text, fn, base, org);
      CounterNat(p, fn);
      CodeIs(p, fn);
    }
  }

  lemma {:induction false} CodeIs(p: Program, fn: nat)
    requires fn < |p|
    ensures CodeOf(p, fn) == FuncCode(p[fn], Counter(p, fn))
  {
  }

  // ----- The theorems -----

  /** A machine about to run function fn on the arguments vals. */
  ghost predicate CallState(p: Program, start: int, fn: nat, vals: seq<int>, m: M)
  {
    fn < |p| && |vals| == p[fn].nparams && m.pc == start + Start(p, fn) && Aligned(m.rsp) && ArgsReady(m, vals)
  }

  /** What the source says about that call. */
  function Meaning(p: Program, fuel: nat, fn: nat, vals: seq<int>): Out
    requires fn < |p| && |vals| <= p[fn].slots
  {
    RunFunction(p, fuel, fn, EntryStore(p[fn], vals))
  }

  /** The call is over, with the value the source gives, and nothing of the caller's is changed. */
  ghost predicate BackAtCaller(m: M, m': M, o: Out)
  {
    && m'.pc == Rd64(m.mem, m.rsp) && m'.rsp == m.rsp + 8 && m'.rbp == m.rbp && SameFrom(m, m', m.rsp)
    && (o.Returned? && o.v.Set? ==> S32(m'.rax) == o.v.v)
  }

  lemma {:induction false} Runs(p: Program, text: seq<Byte>, base: int, org: nat, fuel: nat, fn: nat, vals: seq<int>, m: M) returns (n: nat, m': M)
    requires ProgramFits(p) && HoldsProgram(p, text, org) && CallState(p, base + org, fn, vals, m)
    ensures |vals| <= p[fn].slots
    ensures FunctionDone(EnvOf(p, text, base, org), m, n, m', fuel, Meaning(p, fuel, fn, vals))
  {
    hide Place, Start, CodeOf, ProgOf, LabelsAt, Loaded, ArgsReady, RunFunction, ReturnedTo, FaithfulStmt, ScopedStmt;
    ProgramLoaded(p, text, base, org);
    n, m' := SimFunction(EnvOf(p, text, base, org), p, Counters(p), fuel, fn, vals, m);
  }

  /** The bytes return what the source returns: the value in eax, control back at the
      caller, the stack pointers and the caller's memory as they were. */
  lemma {:induction false} Returns(p: Program, text: seq<Byte>, base: int, org: nat, fuel: nat, fn: nat, vals: seq<int>, m: M)
    requires ProgramFits(p) && HoldsProgram(p, text, org) && CallState(p, base + org, fn, vals, m) && |vals| <= p[fn].slots
    requires Meaning(p, fuel, fn, vals).Returned? || Meaning(p, fuel, fn, vals).Normal?
    ensures exists n: nat, m' ::
      Run(ProgOf(text, base), m, n) == Next(m') && BackAtCaller(m, m', Meaning(p, fuel, fn, vals))
  {
    hide Start, ProgOf, LabelsAt, ArgsReady, RunFunction, Run, LinkedText, U32, Rd64, ProgramFits;
    var n, m' := Runs(p, text, base, org, fuel, fn, vals, m);
    ReachesIsRun(EnvOf(p, text, base, org).prog, m, n, m');
    ReturnStack(EnvOf(p, text, base, org), m, n, m');
    var o := Meaning(p, fuel, fn, vals);
    if o.Returned? && o.v.Set? {
      U32OfInt(o.v.v);
      S32Unique(m'.rax, o.v.v);
    }
  }

  /** A division by zero in the source faults in the machine. */
  lemma {:induction false} Traps(p: Program, text: seq<Byte>, base: int, org: nat, fuel: nat, fn: nat, vals: seq<int>, m: M)
    requires ProgramFits(p) && HoldsProgram(p, text, org) && CallState(p, base + org, fn, vals, m) && |vals| <= p[fn].slots
    requires Meaning(p, fuel, fn, vals) == Stopped(Trap)
    ensures exists n: nat :: Run(ProgOf(text, base), m, n) == DivideError
  {
    hide Start, ProgOf, LabelsAt, ArgsReady, RunFunction, LinkedText, U32, ProgramFits;
    var n, m' := Runs(p, text, base, org, fuel, fn, vals, m);
    var prog := EnvOf(p, text, base, org).prog;
    ReachesIsRun(prog, m, n, m');
    DividesByZeroFaults(prog, m');
    RunMore(prog, m, n, m', 1);
    assert Run(prog, m', 1) == DivideError;
  }

  /** A source program that never stops never stops in the machine either. */
  lemma {:induction false} Diverges(p: Program, text: seq<Byte>, base: int, org: nat, fn: nat, vals: seq<int>, m: M, steps: nat)
    requires ProgramFits(p) && HoldsProgram(p, text, org) && CallState(p, base + org, fn, vals, m) && |vals| <= p[fn].slots
    requires forall fuel: nat :: Meaning(p, fuel, fn, vals) == Stopped(Timeout)
    ensures Run(ProgOf(text, base), m, steps).Next?
  {
    hide Start, ProgOf, LabelsAt, ArgsReady, RunFunction, LinkedText, U32, ProgramFits, Run;
    assert Meaning(p, steps, fn, vals) == Stopped(Timeout);
    var n, m' := Runs(p, text, base, org, steps, fn, vals, m);
    ReachesIsRun(EnvOf(p, text, base, org).prog, m, n, m');
    RunPrefix(EnvOf(p, text, base, org).prog, m, steps, n);
  }
}
