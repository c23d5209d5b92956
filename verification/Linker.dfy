/** The static linker: archive members are pulled in until nothing is missing,
    sections are merged, symbols resolved, relocations applied in place and the
    executable written. */
module Linker {
  import opened Bytes
  import opened Words
  import opened Linking
  import opened LinkProofs

  // ----- Archives -----

  /** An entry of an archive's symbol index: a name and the member that defines it. */
  datatype IndexEntry = IndexEntry(name: string, member: nat)

  datatype Archive = Archive(members: seq<Input>, index: seq<IndexEntry>)

  type MemberId = (nat, nat)

  predicate IsMember(archives: seq<Archive>, id: MemberId)
  {
    id.0 < |archives| && id.1 < |archives[id.0].members|
  }

  ghost predicate Refers(f: Input, name: string)
  {
    exists si :: 1 <= si < |f.syms| && f.syms[si].name == name && IsReference(f.syms[si])
  }

  /** name is referred to by a direct input or by a member in s. */
  ghost predicate Wanted(direct: Inputs, archives: seq<Archive>, s: set<MemberId>, name: string)
  {
    || (exists fi :: 0 <= fi < |direct| && Refers(direct[fi], name))
    || (exists id :: id in s && IsMember(archives, id) && Refers(archives[id.0].members[id.1], name))
  }

  /** The index says that member id defines a wanted name. */
  ghost predicate Needed(direct: Inputs, archives: seq<Archive>, s: set<MemberId>, id: MemberId)
    requires IsMember(archives, id)
  {
    exists k :: 0 <= k < |archives[id.0].index| && archives[id.0].index[k].member == id.1
      && Wanted(direct, archives, s, archives[id.0].index[k].name)
  }

  /** Nothing more is needed. */
  ghost predicate ClosedSet(direct: Inputs, archives: seq<Archive>, s: set<MemberId>)
  {
    forall id :: IsMember(archives, id) && Needed(direct, archives, s, id) ==> id in s
  }

  /** The least set of members that is closed: what lazy loading must load. */
  ghost predicate LeastClosed(direct: Inputs, archives: seq<Archive>, s: set<MemberId>)
  {
    && (forall id :: id in s ==> IsMember(archives, id)) && ClosedSet(direct, archives, s)
    && forall t {:trigger ClosedSet(direct, archives, t)} :: ClosedSet(direct, archives, t) ==> s <= t
  }

  /** There is only one, so the order in which archives are scanned does not matter. */
  lemma {:induction false} LeastClosedUnique(direct: Inputs, archives: seq<Archive>, s: set<MemberId>, t: set<MemberId>)
    requires LeastClosed(direct, archives, s) && LeastClosed(direct, archives, t)
    ensures s == t
  {
  }

  lemma {:induction false} WantedGrows(direct: Inputs, archives: seq<Archive>, s: set<MemberId>, t: set<MemberId>, name: string)
    requires s <= t && Wanted(direct, archives, s, name)
    ensures Wanted(direct, archives, t, name)
  {
    hide Refers;
  }

  lemma {:induction false} NeededGrows(direct: Inputs, archives: seq<Archive>, s: set<MemberId>, t: set<MemberId>, id: MemberId)
    requires s <= t && IsMember(archives, id) && Needed(direct, archives, s, id)
    ensures Needed(direct, archives, t, id)
  {
    hide Wanted;
    var k :| 0 <= k < |archives[id.0].index| && archives[id.0].index[k].member == id.1
      && Wanted(direct, archives, s, archives[id.0].index[k].name);
    WantedGrows(direct, archives, s, t, archives[id.0].index[k].name);
  }

  // ----- The symbol table -----

  datatype Global = Global(name: string, value: int, defined: bool)

  datatype Status = Absent | Undefined | Defined(v: int)

  /** The first entry for name. */
  function Entry(table: seq<Global>, name: string): Status
  {
    if table == [] then Absent
    else if table[0].name == name then (if table[0].defined then Defined(table[0].value) else Undefined)
    else Entry(table[1..], name)
  }

  /** Registering a name that may be there already. */
  function Registered(before: Status, mentioned: bool): (r: Status)
    ensures mentioned && before == Absent ==> r == Undefined
    ensures !mentioned || before != Absent ==> r == before
  {
    if mentioned && before.Absent? then Undefined else before
  }

  /** No name occurs twice, and undefined names have the value 0. */
  ghost predicate Unique(table: seq<Global>)
  {
    && (forall i, j :: 0 <= i < j < |table| ==> table[i].name != table[j].name)
    && forall i :: 0 <= i < |table| && !table[i].defined ==> table[i].value == 0
  }

  lemma {:induction false} EntryIs(table: seq<Global>, i: nat)
    requires Unique(table) && i < |table|
    ensures Entry(table, table[i].name) == if table[i].defined then Defined(table[i].value) else Undefined
    decreases |table|
  {
    if i > 0 {
      assert table[0].name != table[i].name;
      EntryIs(table[1..], i - 1);
    }
  }

  lemma {:induction false} EntryFound(table: seq<Global>, name: string) returns (i: nat)
    requires !Entry(table, name).Absent?
    ensures i < |table| && table[i].name == name
    decreases |table|
  {
    if table[0].name == name {
      i := 0;
    } else {
      var j := EntryFound(table[1..], name);
      i := j + 1;
    }
  }

  lemma {:induction false} EntryAppend(table: seq<Global>, g: Global, name: string)
    ensures Entry(table + [g], name) == if Entry(table, name).Absent? then Entry([g], name) else Entry(table, name)
    decreases |table|
  {
    if table == [] {
      assert table + [g] == [g];
    } else {
      assert (table + [g])[1..] == table[1..] + [g];
      EntryAppend(table[1..], g, name);
    }
  }

  lemma {:induction false} EntrySet(table: seq<Global>, i: nat, g: Global, name: string)
    requires Unique(table) && i < |table| && g.name == table[i].name && (g.defined || g.value == 0)
    ensures Unique(table[i := g])
    ensures Entry(table[i := g], name) ==
      if name == g.name then (if g.defined then Defined(g.value) else Undefined) else Entry(table, name)
    decreases |table|
  {
    var t := table[i := g];
    forall a, b | 0 <= a < b < |t| ensures t[a].name != t[b].name {
      assert t[a].name == table[a].name && t[b].name == table[b].name;
    }
    if i == 0 {
      assert t[1..] == table[1..];
      if name == g.name { } else { assert Entry(t, name) == Entry(t[1..], name); }
    } else {
      assert t[1..] == table[1..][i - 1 := g];
      EntrySet(table[1..], i - 1, g, name);
      assert table[0].name != table[i].name;
    }
  }

  datatype Resolution = Resolved | Lacks(name: string) | NoStart

  function Bound(before: Status, f: Found): (r: Status)
    ensures (f.Some? ==> r == Defined(f.v)) && (f.None? ==> r == before)
  {
    if f.Some? then Defined(f.v) else before
  }

  /** What the table says of a name after resolution. */
  ghost function FinalStatus(ins: Inputs, name: string): Status
  {
    Bound(if Referenced(ins, name) then Undefined else Absent, Resolve(ins, name))
  }

  /** The symbol of a relocation has a value: it is outside the table, local, or a
      name that is defined or referred to. */
  ghost predicate Known(ins: Inputs, fi: nat, k: nat)
    requires fi < |ins|
  {
    k < |ins[fi].syms| && ins[fi].syms[k].bind != 0 ==>
      Resolve(ins, ins[fi].syms[k].name).Some? || Referenced(ins, ins[fi].syms[k].name)
  }

  ghost predicate RelasKnown(ins: Inputs, fi: nat, rs: seq<Rela>)
    requires fi < |ins|
  {
    forall k :: 0 <= k < |rs| ==> Supported(rs[k].typ) && Known(ins, fi, rs[k].sym)
  }

  /** Every relocation has a supported type and a known symbol. */
  ghost predicate AllKnown(ins: Inputs)
  {
    forall fi :: 0 <= fi < |ins| ==> RelasKnown(ins, fi, ins[fi].relText) && RelasKnown(ins, fi, ins[fi].relData)
  }

  /** A relocation can be carried out: it has one of the five types, and its symbol is
      outside the table, local, or has a name. */
  predicate Sound(f: Input, r: Rela)
  {
    r.typ in {0, 1, 2, 4, 10} && (r.sym < |f.syms| && f.syms[r.sym].bind != 0 ==> f.syms[r.sym].name != "")
  }

  lemma {:induction false} NamelessMissing(ins: Inputs)
    ensures Resolve(ins, "").None? && !Referenced(ins, "")
  {
    if Resolve(ins, "").Some? {
      var fi, si := ResolveIsFirst(ins, |ins|, "");
    }
  }

  lemma {:induction false} DefinitionResolves(ins: Inputs, n: nat, fi: nat, k: nat)
    requires fi < n <= |ins| && k < |ins[fi].syms| && IsDefinition(ins[fi].syms[k])
    ensures Find(Defs(ins, n), ins[fi].syms[k].name).Some?
    decreases n
  {
    hide Find, DefsIn;
    var name := ins[fi].syms[k].name;
    FindCat(Defs(ins, n - 1), DefsIn(ins, n - 1, |ins[n - 1].syms|), name);
    if fi < n - 1 {
      DefinitionResolves(ins, n - 1, fi, k);
    } else if Find(DefsIn(ins, fi, |ins[fi].syms|), name).None? {
      NoneIn(ins, fi, |ins[fi].syms|, k, name);
    }
  }

  lemma {:induction false} ResolveIs(ins: Inputs, name: string)
    ensures Resolve(ins, name) == Find(Defs(ins, |ins|), name)
  {
  }

  lemma {:induction false} KnownExactly(ins: Inputs, fi: nat, k: nat)
    requires fi < |ins| && (forall f :: f in ins ==> f.syms != [] && f.syms[0].bind == 0)
    ensures Known(ins, fi, k) <==> (k < |ins[fi].syms| && ins[fi].syms[k].bind != 0 ==> ins[fi].syms[k].name != "")
  {
    hide Resolve, Defs;
    assert ins[fi] in ins;
    if k < |ins[fi].syms| && ins[fi].syms[k].bind != 0 {
      var name := ins[fi].syms[k].name;
      assert k > 0;
      if name == "" {
        NamelessMissing(ins);
      } else if IsDefinition(ins[fi].syms[k]) {
        DefinitionResolves(ins, |ins|, fi, k);
        assert Resolve(ins, name) == Find(Defs(ins, |ins|), name) by { ResolveIs(ins, name); }
      } else {
        assert IsReference(ins[fi].syms[k]);
      }
    }
  }

  /** When everything else is there, linking fails exactly for a relocation of another type
      or for a global symbol without a name. */
  lemma {:induction false} AllKnownExactly(ins: Inputs)
    requires forall f :: f in ins ==> f.syms != [] && f.syms[0].bind == 0
    ensures AllKnown(ins) <==> forall f, r :: f in ins && (r in f.relText || r in f.relData) ==> Sound(f, r)
  {
    hide Resolve, Referenced, Known;
    forall fi: nat, k: nat | fi < |ins| ensures Known(ins, fi, k) <==> (k < |ins[fi].syms| && ins[fi].syms[k].bind != 0 ==> ins[fi].syms[k].name != "") {
      KnownExactly(ins, fi, k);
    }
    if AllKnown(ins) {
      forall f, r | f in ins && (r in f.relText || r in f.relData) ensures Sound(f, r) {
        var fi :| 0 <= fi < |ins| && ins[fi] == f;
        assert RelasKnown(ins, fi, f.relText) && RelasKnown(ins, fi, f.relData);
      }
    }
    if forall f, r :: f in ins && (r in f.relText || r in f.relData) ==> Sound(f, r) {
      forall fi | 0 <= fi < |ins| ensures RelasKnown(ins, fi, ins[fi].relText) && RelasKnown(ins, fi, ins[fi].relData) {
        var f := ins[fi];
        assert f in ins;
        forall k | 0 <= k < |f.relText| ensures Supported(f.relText[k].typ) && Known(ins, fi, f.relText[k].sym) { assert f.relText[k] in f.relText && Sound(f, f.relText[k]); }
        forall k | 0 <= k < |f.relData| ensures Supported(f.relData[k].typ) && Known(ins, fi, f.relData[k].sym) { assert f.relData[k] in f.relData && Sound(f, f.relData[k]); }
      }
    }
  }

  /** Some input defines the name. */
  ghost predicate DefinedIn(ins: Inputs, name: string)
  {
    exists fi, si :: 0 <= fi < |ins| && 0 <= si < |ins[fi].syms| && ins[fi].syms[si].name == name && IsDefinition(ins[fi].syms[si])
  }

  lemma {:induction false} ResolvesIfDefined(ins: Inputs, name: string)
    ensures Resolve(ins, name).Some? <==> DefinedIn(ins, name)
  {
    hide Find, Defs;
    if Resolve(ins, name).Some? {
      var fi, si := ResolveIsFirst(ins, |ins|, name);
    }
    if DefinedIn(ins, name) {
      var fi, si :| 0 <= fi < |ins| && 0 <= si < |ins[fi].syms| && ins[fi].syms[si].name == name && IsDefinition(ins[fi].syms[si]);
      DefinitionResolves(ins, |ins|, fi, si);
    }
  }

  /** All references can be resolved if and only if every global name that some input leaves
      undefined, but for those that start with _G, is defined by some input, and so is the
      entry symbol, at an address other than 0. */
  lemma {:induction false} ResolvableExactly(ins: Inputs, entry: string)
    ensures Resolvable(ins, entry) <==>
      && DefinedIn(ins, entry) && Resolve(ins, entry) != Some(0)
      && forall fi, si :: 0 <= fi < |ins| && 0 < si < |ins[fi].syms| && ins[fi].syms[si].bind > 0 && ins[fi].syms[si].shndx == 0 ==>
           ins[fi].syms[si].name == "" || "_G" <= ins[fi].syms[si].name || DefinedIn(ins, ins[fi].syms[si].name)
  {
    hide Resolve, DefinedIn;
    forall name ensures Resolve(ins, name).Some? <==> DefinedIn(ins, name) { ResolvesIfDefined(ins, name); }
    if Resolvable(ins, entry) {
      forall fi, si | 0 <= fi < |ins| && 0 < si < |ins[fi].syms| && ins[fi].syms[si].bind > 0 && ins[fi].syms[si].shndx == 0
        ensures ins[fi].syms[si].name == "" || "_G" <= ins[fi].syms[si].name || DefinedIn(ins, ins[fi].syms[si].name)
      {
        if ins[fi].syms[si].name != "" { assert IsReference(ins[fi].syms[si]) && Referenced(ins, ins[fi].syms[si].name); }
      }
    }
  }

  datatype Outcome = Linked(file: seq<Byte>) | UndefinedSymbol(name: string) | NoEntry | BadRelocation

  class StaticLinker {
    const archives: seq<Archive>
    const entryName: string
    var inputs: seq<Input>
    var loaded: set<MemberId>
    var syms: seq<Global>
    var textOff: seq<nat>
    var dataOff: seq<nat>
    var bssOff: seq<nat>
    var mergedText: array<Byte>
    var mergedData: array<Byte>
    var textSize: nat
    var dataSize: nat
    var bssSize: nat
    var entryAddr: int

    constructor (direct: seq<Input>, archives: seq<Archive>, entryName: string)
      ensures this.archives == archives && this.entryName == entryName && inputs == direct
      ensures loaded == {} && syms == [] && fresh(mergedText) && fresh(mergedData)
    {
      this.archives, this.entryName, inputs := archives, entryName, direct;
      loaded, syms, textOff, dataOff, bssOff := {}, [], [], [], [];
      mergedText, mergedData := new Byte[0], new Byte[0];
      textSize, dataSize, bssSize, entryAddr := 0, 0, 0, 0;
    }

    // ----- Symbols -----

    method FindOrAddSym(name: string) returns (i: nat)
      requires Unique(syms)
      modifies `syms
      ensures Unique(syms) && i < |syms| && syms[i].name == name && |syms| >= |old(syms)|
      ensures forall n :: Entry(syms, n) == Registered(Entry(old(syms), n), n == name)
    {
      i := 0;
      while i < |syms|
        invariant 0 <= i <= |syms| && Entry(syms, name) == Entry(syms[i..], name)
        invariant forall j :: 0 <= j < i ==> syms[j].name != name
      {
        if syms[i].name == name {
          return;
        }
        assert syms[i..][1..] == syms[i + 1..];
        i := i + 1;
      }
      ghost var before := syms;
      var g := Global(name, 0, false);
      syms := syms + [g];
      forall n ensures Entry(syms, n) == Registered(Entry(before, n), n == name) {
        EntryAppend(before, g, n);
        assert [g][1..] == [];
        assert Entry([g], n) == if g.name == n then Undefined else Entry([g][1..], n);
      }
    }

    method SymIsUndef(name: string) returns (b: bool)
      requires Unique(syms)
      ensures b <==> Entry(syms, name).Undefined?
    {
      var i := 0;
      while i < |syms|
        invariant 0 <= i <= |syms| && forall j :: 0 <= j < i ==> !(syms[j].name == name && !syms[j].defined)
      {
        if syms[i].name == name && !syms[i].defined {
          EntryIs(syms, i);
          return true;
        }
        i := i + 1;
      }
      if Entry(syms, name).Undefined? {
        ghost var j := EntryFound(syms, name);
        EntryIs(syms, j);
      }
      return false;
    }

    /** Registers the names that f refers to. */
    method RegisterInputUndefs(f: Input)
      requires Unique(syms)
      modifies `syms
      ensures Unique(syms)
      ensures forall n :: Entry(syms, n) == Registered(Entry(old(syms), n), Refers(f, n))
    {
      var si := 1;
      while si < |f.syms|
        invariant 1 <= si && Unique(syms)
        invariant forall n :: Entry(syms, n) == Registered(Entry(old(syms), n), RefersUpTo(f, si, n))
      {
        if IsReference(f.syms[si]) {
          var _ := FindOrAddSym(f.syms[si].name);
        }
        forall n ensures RefersUpTo(f, si + 1, n) <==>
          RefersUpTo(f, si, n) || (f.syms[si].name == n && IsReference(f.syms[si])) { RefersNext(f, si, n); }
        si := si + 1;
      }
      forall n ensures RefersUpTo(f, si, n) <==> Refers(f, n) { RefersAll(f, si, n); }
    }

    // ----- Lazy loading -----

    /** Some index entry names a symbol that is registered and not defined. */
    ghost predicate Missing(id: MemberId)
      requires IsMember(archives, id)
      reads this
    {
      exists k :: 0 <= k < |archives[id.0].index| && archives[id.0].index[k].member == id.1
        && Entry(syms, archives[id.0].index[k].name).Undefined?
    }

    method IsNeeded(a: nat, m: nat) returns (needed: bool)
      requires Unique(syms) && IsMember(archives, (a, m))
      ensures needed <==> Missing((a, m))
    {
      var index := archives[a].index;
      var k := 0;
      while k < |index|
        invariant 0 <= k <= |index|
        invariant forall j :: 0 <= j < k ==> !(index[j].member == m && Entry(syms, index[j].name).Undefined?)
      {
        if index[k].member == m {
          var undef := SymIsUndef(index[k].name);
          if undef { return true; }
        }
        k := k + 1;
      }
      return false;
    }

    /** The first member, in order, that is not loaded and is needed. */
    method FindNeeded() returns (found: bool, a: nat, m: nat)
      requires Unique(syms)
      ensures found ==> IsMember(archives, (a, m)) && (a, m) !in loaded && Missing((a, m))
      ensures !found ==> forall id: MemberId :: IsMember(archives, id) && id !in loaded ==> !Missing(id)
    {
      hide Missing;
      a, m := 0, 0;
      while a < |archives|
        invariant 0 <= a <= |archives|
        invariant forall id: MemberId :: IsMember(archives, id) && id.0 < a && id !in loaded ==> !Missing(id)
      {
        m := 0;
        while m < |archives[a].members|
          invariant 0 <= m <= |archives[a].members|
          invariant forall id: MemberId :: IsMember(archives, id) && (id.0 < a || (id.0 == a && id.1 < m)) && id !in loaded ==> !Missing(id)
        {
          var id: MemberId := (a, m);
          if id !in loaded {
            var needed := IsNeeded(a, m);
            if needed { return true, a, m; }
          }
          m := m + 1;
        }
        a := a + 1;
      }
      return false, a, m;
    }

    /** The table holds the wanted names, all undefined. */
    ghost predicate HoldsWanted(direct: Inputs)
      reads this
    {
      Unique(syms) && forall n :: Entry(syms, n) == if Wanted(direct, archives, loaded, n) then Undefined else Absent
    }

    method RegisterInputs()
      requires syms == [] && loaded == {}
      modifies `syms
      ensures HoldsWanted(inputs)
    {
      hide Refers;
      var fi := 0;
      while fi < |inputs|
        invariant 0 <= fi <= |inputs| && Unique(syms)
        invariant forall n :: Entry(syms, n) == if exists k :: 0 <= k < fi && Refers(inputs[k], n) then Undefined else Absent
      {
        RegisterInputUndefs(inputs[fi]);
        fi := fi + 1;
      }
    }

    /** Loads members until none is needed: the least closed set. */
    method LazyLoadArchives() returns (ghost order: seq<MemberId>)
      requires HoldsWanted(inputs) && loaded == {}
      modifies `inputs, `loaded, `syms
      ensures LeastClosed(old(inputs), archives, loaded)
      ensures InOrder(archives, order, loaded) && inputs == old(inputs) + Objects(archives, order)
      ensures HoldsWanted(old(inputs))
    {
      hide Wanted, Needed, Missing, Objects;
      ghost var direct := inputs;
      order := [];
      NoObjects(archives);
      var more := true;
      while more
        invariant HoldsWanted(direct) && InOrder(archives, order, loaded) && inputs == direct + Objects(archives, order)
        invariant forall t {:trigger ClosedSet(direct, archives, t)} :: ClosedSet(direct, archives, t) ==> loaded <= t
        invariant more || ClosedSet(direct, archives, loaded)
        decreases |Ids(archives, |archives|) - loaded|, more
      {
        var found, a, m := FindNeeded();
        more := found;
        MissingIsNeeded(direct);
        if found {
          ghost var before := loaded;
          LoadMember(direct, order, a, m);
          order := order + [(a, m)];
          FewerLeft(archives, before, (a, m));
        }
      }
    }

    /** Loads one needed member and registers what it refers to. */
    method LoadMember(ghost direct: Inputs, ghost order: seq<MemberId>, a: nat, m: nat)
      requires HoldsWanted(direct) && InOrder(archives, order, loaded) && inputs == direct + Objects(archives, order)
      requires IsMember(archives, (a, m)) && (a, m) !in loaded && Needed(direct, archives, loaded, (a, m))
      requires forall t {:trigger ClosedSet(direct, archives, t)} :: ClosedSet(direct, archives, t) ==> loaded <= t
      modifies `inputs, `loaded, `syms
      ensures HoldsWanted(direct) && loaded == old(loaded) + {(a, m)}
      ensures InOrder(archives, order + [(a, m)], loaded) && inputs == direct + Objects(archives, order + [(a, m)])
      ensures forall t {:trigger ClosedSet(direct, archives, t)} :: ClosedSet(direct, archives, t) ==> loaded <= t
    {
      hide Wanted, Needed, Objects, Refers;
      ghost var id: MemberId := (a, m);
      forall t | ClosedSet(direct, archives, t) ensures loaded + {id} <= t {
        NeededGrows(direct, archives, loaded, t, id);
      }
      OrderNext(archives, order, loaded, id);
      var obj := archives[a].members[m];
      Regroup(direct, Objects(archives, order), [obj]);
      inputs := inputs + [obj];
      loaded := loaded + {(a, m)};
      RegisterInputUndefs(obj);
      forall n ensures Wanted(direct, archives, loaded, n) == (Wanted(direct, archives, old(loaded), n) || Refers(obj, n)) {
        WantedNext(direct, archives, old(loaded), id, n);
      }
    }

    // ----- Sections -----

    /** The offsets of all inputs are known. */
    ghost predicate Laid()
      reads `inputs, `textOff, `dataOff, `bssOff, `textSize, `dataSize, `bssSize
    {
      && |textOff| == |dataOff| == |bssOff| == |inputs|
      && (forall i :: 0 <= i < |inputs| ==> textOff[i] == TextOff(inputs, i))
      && (forall i :: 0 <= i < |inputs| ==> dataOff[i] == DataOff(inputs, i))
      && (forall i :: 0 <= i < |inputs| ==> bssOff[i] == BssOff(inputs, i))
      && textSize == TextSize(inputs) && dataSize == DataSize(inputs) && bssSize == BssSize(inputs)
    }

    method MergeSections()
      modifies `textOff, `dataOff, `bssOff, `textSize, `dataSize, `bssSize
      ensures Laid()
    {
      hide AlignUp, TextOff, DataOff, BssOff;
      FirstOff(inputs);
      textOff, dataOff, bssOff := [], [], [];
      textSize, dataSize, bssSize := 0, 0, 0;
      var i := 0;
      while i < |inputs|
        invariant 0 <= i <= |inputs| && |textOff| == |dataOff| == |bssOff| == i
        invariant textSize == TextOff(inputs, i) && dataSize == DataOff(inputs, i) && bssSize == BssOff(inputs, i)
        invariant forall k :: 0 <= k < i ==> textOff[k] == TextOff(inputs, k)
        invariant forall k :: 0 <= k < i ==> dataOff[k] == DataOff(inputs, k)
        invariant forall k :: 0 <= k < i ==> bssOff[k] == BssOff(inputs, k)
      {
        NextOff(inputs, i);
        textOff, dataOff, bssOff := textOff + [textSize], dataOff + [dataSize], bssOff + [bssSize];
        textSize := AlignUp(textSize + |inputs[i].text|, 16);
        dataSize := AlignUp(dataSize + |inputs[i].data|, 32);
        bssSize := AlignUp(bssSize + inputs[i].bss, 32);
        i := i + 1;
      }
    }

    method CopyPart(buf: array<Byte>, at: nat, part: seq<Byte>)
      requires at + |part| <= buf.Length
      modifies buf
      ensures buf[..] == WriteAt(old(buf[..]), at, part)
    {
      var j := 0;
      while j < |part|
        invariant 0 <= j <= |part|
        invariant buf[..] == WriteAt(old(buf[..]), at, part[..j])
      {
        buf[at + j] := part[j];
        assert part[..j + 1] == part[..j] + [part[j]];
        j := j + 1;
      }
      assert part[..j] == part;
      WriteNothing(old(buf[..]), at);
    }

    /** The parts of one section, each at its offset, over zeros. */
    method CopyParts(parts: seq<seq<Byte>>, align: nat, size: nat) returns (buf: array<Byte>)
      requires align > 0 && size == Offset(Sizes(parts), align, |parts|)
      ensures fresh(buf) && buf[..] == Padded(parts, align, |parts|)
    {
      hide AlignUp, Padded, Offset, WriteAt;
      buf := new Byte[size](_ => 0);
      var at, i := 0, 0;
      AllZero(buf[..], size);
      NoParts(parts, align);
      while i < |parts|
        invariant 0 <= i <= |parts| && at == Offset(Sizes(parts), align, i) <= size && buf.Length == size
        invariant fresh(buf) && buf[..] == Padded(parts, align, i) + Zeros(size - at)
      {
        OffsetsGrow(Sizes(parts), align, i, |parts|);
        OffsetsGrow(Sizes(parts), align, i + 1, |parts|);
        NextPart(parts, align, i);
        CopyPart(buf, at, parts[i]);
        var next := AlignUp(at + |parts[i]|, align);
        Overwrite(Padded(parts, align, i), parts[i], next - (at + |parts[i]|), size - next);
        at := next;
        i := i + 1;
      }
      assert Padded(parts, align, i) + Zeros(0) == Padded(parts, align, i);
    }

    method CopySections()
      requires Laid()
      modifies `mergedText, `mergedData
      ensures fresh(mergedText) && fresh(mergedData) && mergedText != mergedData
      ensures mergedText[..] == Padded(Texts(inputs), 16, |inputs|) && mergedData[..] == Padded(Datas(inputs), 32, |inputs|)
    {
      mergedText := CopyParts(Texts(inputs), 16, textSize);
      mergedData := CopyParts(Datas(inputs), 32, dataSize);
    }

    // ----- Resolution -----

    method SymFinalAddr(fi: nat, s: Sym) returns (v: int)
      requires Laid() && fi < |inputs|
      ensures v == SymAddr(inputs, fi, s)
    {
      hide S32, TextOff, DataOff, BssOff;
      var f := inputs[fi];
      var dataAddr := BASE_ADDR + textSize;
      var bssAddr := dataAddr + dataSize;
      if s.shndx == 0 { return 0; }
      if s.shndx == 0xFFF1 { return s.value; }
      if s.shndx == f.shText % 0x1_0000 { return BASE_ADDR + textOff[fi] + S32(s.value); }
      if s.shndx == f.shData % 0x1_0000 { return dataAddr + dataOff[fi] + S32(s.value); }
      if s.shndx == f.shBss % 0x1_0000 { return bssAddr + bssOff[fi] + S32(s.value); }
      return s.value;
    }

    /** Records symbol si of input fi if it is the first global definition of its name. */
    method Define(fi: nat, si: nat, ghost before: seq<Global>)
      requires Laid() && fi < |inputs| && si < |inputs[fi].syms| && Unique(syms)
      requires IsDefinition(inputs[fi].syms[si])
      requires forall n :: !Entry(before, n).Defined?
      requires forall n :: Entry(syms, n) == Bound(Entry(before, n), Find(Defs(inputs, fi) + DefsIn(inputs, fi, si), n))
      modifies `syms
      ensures Unique(syms)
      ensures forall n :: Entry(syms, n) == Bound(Entry(before, n), Find(Defs(inputs, fi) + DefsIn(inputs, fi, si + 1), n))
    {
      hide SymAddr, S32, Defs;
      var s := inputs[fi].syms[si];
      var addr := SymFinalAddr(fi, s);
      var i := FindOrAddSym(s.name);
      EntryIs(syms, i);
      ghost var table := syms;
      if !syms[i].defined {
        syms := syms[i := Global(s.name, addr, true)];
        EntrySet(table, i, Global(s.name, addr, true), s.name);
      }
      ghost var ds := Defs(inputs, fi) + DefsIn(inputs, fi, si);
      Regroup(Defs(inputs, fi), DefsIn(inputs, fi, si), [Binding(s.name, addr)]);
      forall n ensures Entry(syms, n) == Bound(Entry(before, n), Find(ds + [Binding(s.name, addr)], n)) {
        FindOne(ds, Binding(s.name, addr), n);
        if !table[i].defined { EntrySet(table, i, Global(s.name, addr, true), n); }
      }
    }

    /** First pass: the first definition of each name. */
    method CollectDefinitions()
      requires Laid() && Unique(syms) && forall n :: !Entry(syms, n).Defined?
      modifies `syms
      ensures Unique(syms) && forall n :: Entry(syms, n) == Bound(Entry(old(syms), n), Resolve(inputs, n))
    {
      hide SymAddr, Laid;
      ghost var before := syms;
      var fi := 0;
      while fi < |inputs|
        invariant 0 <= fi <= |inputs| && Unique(syms) && Laid()
        invariant forall n :: Entry(syms, n) == Bound(Entry(before, n), Find(Defs(inputs, fi), n))
      {
        var si := 0;
        assert Defs(inputs, fi) + [] == Defs(inputs, fi);
        while si < |inputs[fi].syms|
          invariant 0 <= si <= |inputs[fi].syms| && Unique(syms) && Laid()
          invariant forall n :: Entry(syms, n) == Bound(Entry(before, n), Find(Defs(inputs, fi) + DefsIn(inputs, fi, si), n))
        {
          if IsDefinition(inputs[fi].syms[si]) {
            Define(fi, si, before);
          } else {
            assert DefsIn(inputs, fi, si + 1) == DefsIn(inputs, fi, si) + [] == DefsIn(inputs, fi, si);
          }
          si := si + 1;
        }
        assert Defs(inputs, fi + 1) == Defs(inputs, fi) + DefsIn(inputs, fi, |inputs[fi].syms|);
        fi := fi + 1;
      }
    }

    /** Second pass: every reference has an entry. */
    method CollectReferences()
      requires Unique(syms)
      modifies `syms
      ensures Unique(syms) && forall n :: Entry(syms, n) == Registered(Entry(old(syms), n), Referenced(inputs, n))
    {
      hide Refers;
      var fi := 0;
      while fi < |inputs|
        invariant 0 <= fi <= |inputs| && Unique(syms)
        invariant forall n :: Entry(syms, n) == Registered(Entry(old(syms), n), exists k :: 0 <= k < fi && Refers(inputs[k], n))
      {
        RegisterInputUndefs(inputs[fi]);
        fi := fi + 1;
      }
      forall n ensures Referenced(inputs, n) <==> exists k :: 0 <= k < |inputs| && Refers(inputs[k], n) {
        ReferencedBy(inputs, n);
      }
    }

    /** Third pass: everything defined, and the entry address. */
    method ResolveSymbols() returns (r: Resolution)
      requires Laid() && Unique(syms) && forall n :: !Entry(syms, n).Defined? && (Entry(syms, n).Undefined? ==> Referenced(inputs, n))
      modifies `syms, `entryAddr
      ensures Unique(syms) && forall n :: Entry(syms, n) == FinalStatus(inputs, n)
      ensures r.Resolved? <==> Resolvable(inputs, entryName)
      ensures r.Resolved? ==> entryAddr == Resolve(inputs, entryName).v
      ensures r.Lacks? ==> Referenced(inputs, r.name) && !IsGot(r.name) && Resolve(inputs, r.name).None?
    {
      hide Defs, Find, Referenced, Resolve;
      CollectDefinitions();
      CollectReferences();
      ghost var table := syms;
      assert forall n :: Entry(table, n) == FinalStatus(inputs, n);
      entryAddr := 0;
      var i := 0;
      while i < |syms|
        invariant 0 <= i <= |syms| && syms == table
        invariant forall k :: 0 <= k < i ==> syms[k].defined || IsGot(syms[k].name)
        invariant (exists k :: 0 <= k < i && syms[k].name == entryName && syms[k].defined) ==>
          Entry(syms, entryName) == Defined(entryAddr)
        invariant (forall k :: 0 <= k < i && syms[k].defined ==> syms[k].name != entryName) ==> entryAddr == 0
        invariant forall k :: 0 <= k < i && syms[k].name == entryName && !syms[k].defined ==> entryAddr == 0
      {
        EntryIs(syms, i);
        if !syms[i].defined {
          if !IsGot(syms[i].name) { return Lacks(syms[i].name); }
        } else if syms[i].name == entryName {
          entryAddr := syms[i].value;
        }
        i := i + 1;
      }
      AllDefined(syms, inputs);
      EntryDecided(syms, entryName, entryAddr);
      return if entryAddr == 0 then NoStart else Resolved;
    }

    // ----- Relocation -----

    method W32(buf: array<Byte>, p: nat, v: int)
      requires p + 4 <= buf.Length
      modifies buf
      ensures buf[..] == WriteAt(old(buf[..]), p, LE4(v))
    {
      var f := LE4(v);
      buf[p] := f[0];
      buf[p + 1] := f[1];
      buf[p + 2] := f[2];
      buf[p + 3] := f[3];
    }

    method W64(buf: array<Byte>, p: nat, v: int)
      requires p + 8 <= buf.Length
      modifies buf
      ensures buf[..] == WriteAt(old(buf[..]), p, LE8(v))
    {
      hide LE4;
      W32(buf, p, v);
      W32(buf, p + 4, v / 0x1_0000_0000);
      WriteTwice(old(buf[..]), p, LE4(v), LE4(v / 0x1_0000_0000));
    }

    /** The value of symbol k of input fi; fails for a name that is in no table. */
    method FindSymValue(fi: nat, k: nat) returns (ok: bool, v: int)
      requires Laid() && Unique(syms) && fi < |inputs| && forall n :: Entry(syms, n) == FinalStatus(inputs, n)
      ensures ok <==> Known(inputs, fi, k)
      ensures ok ==> v == SymValue(inputs, fi, k)
    {
      hide SymAddr, Resolve, Referenced, Laid;
      if k >= |inputs[fi].syms| { return true, 0; }
      var s := inputs[fi].syms[k];
      if s.bind == 0 {
        v := SymFinalAddr(fi, s);
        return true, v;
      }
      var i := 0;
      while i < |syms|
        invariant 0 <= i <= |syms| && forall j :: 0 <= j < i ==> syms[j].name != s.name
      {
        if syms[i].name == s.name {
          EntryIs(syms, i);
          return true, syms[i].value;
        }
        i := i + 1;
      }
      if !Entry(syms, s.name).Absent? { ghost var j := EntryFound(syms, s.name); }
      return false, 0;
    }

    method ApplyOneRela(fi: nat, rs: seq<Rela>, buf: array<Byte>, base: int, off: int) returns (ok: bool)
      requires Laid() && Unique(syms) && fi < |inputs| && forall n :: Entry(syms, n) == FinalStatus(inputs, n)
      requires Inside(WritesIn(inputs, fi, rs, base, off, |rs|), buf.Length)
      modifies buf
      ensures ok <==> RelasKnown(inputs, fi, rs)
      ensures ok ==> buf[..] == AllStored(old(buf[..]), WritesIn(inputs, fi, rs, base, off, |rs|))
    {
      hide SymValue, Known, Laid, S32, Entry, FinalStatus, AllStored, WriteOf, Stored, Unique, Inside;
      var k := 0;
      ghost var before := buf[..];
      NoStores(before);
      while k < |rs|
        invariant 0 <= k <= |rs|
        invariant buf[..] == AllStored(before, WritesIn(inputs, fi, rs, base, off, k))
        invariant forall j :: 0 <= j < k ==> Supported(rs[j].typ) && Known(inputs, fi, rs[j].sym)
      {
        InsideAt(inputs, fi, rs, base, off, k, buf.Length);
        StoreNext(before, WritesIn(inputs, fi, rs, base, off, k), WriteOf(inputs, fi, rs[k], base, off));
        var done := ApplyOne(fi, rs[k], buf, base, off);
        if !done { return false; }
        k := k + 1;
      }
      return true;
    }

    /** One relocation; fails on an unknown symbol or type. */
    method ApplyOne(fi: nat, r: Rela, buf: array<Byte>, base: int, off: int) returns (ok: bool)
      requires Laid() && Unique(syms) && fi < |inputs| && forall n :: Entry(syms, n) == FinalStatus(inputs, n)
      requires Inside([WriteOf(inputs, fi, r, base, off)], buf.Length)
      modifies buf
      ensures ok <==> Supported(r.typ) && Known(inputs, fi, r.sym)
      ensures ok ==> buf[..] == Stored(old(buf[..]), WriteOf(inputs, fi, r, base, off))
    {
      hide SymValue, Known, Laid, S32, Entry, FinalStatus, Stored, Unique, Inside, FieldBytes;
      var found, s := FindSymValue(fi, r.sym);
      ok := found && Supported(r.typ);
      if ok { StoreField(r, buf, s, base, off); }
    }

    method StoreField(r: Rela, buf: array<Byte>, s: int, base: int, off: int)
      requires Supported(r.typ)
      requires var w := Write(off + S32(r.off), FieldBytes(r, s, base + S32(r.off))); Inside([w], buf.Length)
      modifies buf
      ensures buf[..] == Stored(old(buf[..]), Write(off + S32(r.off), FieldBytes(r, s, base + S32(r.off))))
    {
      hide LE4, LE8, S32;
      var p, at := base + S32(r.off), off + S32(r.off);
      ghost var w := Write(at, FieldBytes(r, s, p));
      assert 0 <= [w][0].at && [w][0].at + |[w][0].bytes| <= buf.Length;
      if r.typ == 1 {
        W64(buf, at, s + r.addend);
      } else if r.typ == 2 || r.typ == 4 {
        W32(buf, at, s + r.addend - p);
      } else if r.typ == 10 {
        W32(buf, at, s + r.addend);
      } else {
        WriteNothing(buf[..], at);
      }
    }

    method ApplyRelocations() returns (ok: bool)
      requires Laid() && Unique(syms) && forall n :: Entry(syms, n) == FinalStatus(inputs, n)
      requires mergedText != mergedData
      requires mergedText[..] == Padded(Texts(inputs), 16, |inputs|) && mergedData[..] == Padded(Datas(inputs), 32, |inputs|)
      requires Inside(TextWrites(inputs, |inputs|), mergedText.Length) && Inside(DataWrites(inputs, |inputs|), mergedData.Length)
      modifies mergedText, mergedData
      ensures ok <==> AllKnown(inputs)
      ensures ok ==> mergedText[..] == FinalText(inputs) && mergedData[..] == FinalData(inputs)
    {
      hide Padded, WritesIn, RelasKnown, Entry, FinalStatus, Inside, AllStored, TextWrites, DataWrites, Laid, Unique, TextOff,
        DataOff, Texts, Datas;
      ghost var text, data := mergedText[..], mergedData[..];
      var dataAddr := BASE_ADDR + textSize;
      NoWrites(inputs, text, data);
      var fi := 0;
      while fi < |inputs|
        invariant 0 <= fi <= |inputs| && Laid()
        invariant mergedText[..] == AllStored(text, TextWrites(inputs, fi))
        invariant mergedData[..] == AllStored(data, DataWrites(inputs, fi))
        invariant forall k :: 0 <= k < fi ==> RelasKnown(inputs, k, inputs[k].relText) && RelasKnown(inputs, k, inputs[k].relData)
      {
        ok := ApplyInput(fi, dataAddr, text, data);
        if !ok { return false; }
        fi := fi + 1;
      }
      return true;
    }

    /** The relocations of one input, in text and data. */
    method ApplyInput(fi: nat, dataAddr: int, ghost text: seq<Byte>, ghost data: seq<Byte>) returns (ok: bool)
      requires fi < |inputs| && Laid() && Unique(syms) && forall n :: Entry(syms, n) == FinalStatus(inputs, n)
      requires mergedText != mergedData && dataAddr == BASE_ADDR + textSize
      requires Inside(TextWrites(inputs, |inputs|), mergedText.Length) && Inside(DataWrites(inputs, |inputs|), mergedData.Length)
      requires mergedText[..] == AllStored(text, TextWrites(inputs, fi)) && mergedData[..] == AllStored(data, DataWrites(inputs, fi))
      modifies mergedText, mergedData
      ensures ok <==> RelasKnown(inputs, fi, inputs[fi].relText) && RelasKnown(inputs, fi, inputs[fi].relData)
      ensures ok ==> mergedText[..] == AllStored(text, TextWrites(inputs, fi + 1))
      ensures ok ==> mergedData[..] == AllStored(data, DataWrites(inputs, fi + 1))
    {
      hide Padded, WritesIn, RelasKnown, Entry, FinalStatus, Inside, AllStored, TextWrites, DataWrites, Laid, Unique, TextOff,
        DataOff, Texts, Datas;
      WritesInside(inputs, fi, mergedText.Length, mergedData.Length);
      LaidAt(fi);
      ok := ApplyOneRela(fi, inputs[fi].relText, mergedText, BASE_ADDR + textOff[fi], textOff[fi]);
      if !ok { return; }
      ok := ApplyOneRela(fi, inputs[fi].relData, mergedData, dataAddr + dataOff[fi], dataOff[fi]);
      if !ok { return; }
      NextWrites(inputs, fi, text, data);
    }

    // ----- Output -----

    method WriteOutput() returns (file: array<Byte>)
      ensures fresh(file) && file[..] == Executable(mergedText[..], mergedData[..], bssSize, entryAddr)
    {
      hide ElfHeader, ProgramHeader, SectionHeaders, Zeros;
      var text, data := mergedText[..], mergedData[..];
      var ts, ds := |text|, |data|;
      var shoff := PAGE + ts + ds + 28;
      file := new Byte[shoff + 320](_ => 0);
      AllZero(file[..], shoff + 320);
      ghost var eh, ph := ElfHeader(entryAddr, shoff), ProgramHeader(ts + ds, ts + ds + bssSize);
      PutElfHeader(file, entryAddr, shoff);
      PutProgramHeader(file, eh, ts + ds, ts + ds + bssSize);
      ghost var front := eh + ph + Zeros(PAGE - 120);
      SkipZeros(eh + ph, PAGE - 120, shoff + 320 - PAGE);
      var p := Put(file, PAGE, text, front);
      p := Put(file, p, data, front + text);
      p := Put(file, p, NAMES, front + text + data);
      ghost var body := front + text + data + NAMES;
      PutSectionHeaders(file, body, ts, ds, bssSize);
      WholeFile(body + SectionHeaders(ts, ds, bssSize));
    }

    // ----- The whole program -----

    /** Registers the direct inputs' references, loads archive members, lays out and
        copies the sections and resolves the symbols. */
    method Load() returns (r: Resolution, ghost order: seq<MemberId>)
      requires syms == [] && loaded == {}
      modifies this
      ensures LeastClosed(old(inputs), archives, loaded)
      ensures InOrder(archives, order, loaded) && inputs == old(inputs) + Objects(archives, order)
      ensures Laid() && Unique(syms) && forall n :: Entry(syms, n) == FinalStatus(inputs, n)
      ensures mergedText != mergedData && fresh(mergedText) && fresh(mergedData)
      ensures mergedText[..] == Padded(Texts(inputs), 16, |inputs|) && mergedData[..] == Padded(Datas(inputs), 32, |inputs|)
      ensures r.Resolved? <==> Resolvable(inputs, entryName)
      ensures r.Resolved? ==> entryAddr == Resolve(inputs, entryName).v
      ensures r.Lacks? ==> Referenced(inputs, r.name) && !IsGot(r.name) && Resolve(inputs, r.name).None?
    {
      hide Padded, Resolve, Referenced, Objects, LeastClosed, Resolvable, TextOff, DataOff, BssOff, FinalStatus, Wanted;
      ghost var direct := inputs;
      RegisterInputs();
      order := LazyLoadArchives();
      WantedReferenced(direct, archives, order, loaded, inputs);
      MergeSections();
      CopySections();
      r := ResolveSymbols();
    }

    /** Relocates and writes what was loaded. */
    method Link(r: Resolution) returns (o: Outcome)
      requires Laid() && Unique(syms) && forall n :: Entry(syms, n) == FinalStatus(inputs, n)
      requires mergedText != mergedData
      requires mergedText[..] == Padded(Texts(inputs), 16, |inputs|) && mergedData[..] == Padded(Datas(inputs), 32, |inputs|)
      requires r.Resolved? <==> Resolvable(inputs, entryName)
      requires r.Resolved? ==> entryAddr == Resolve(inputs, entryName).v
      requires Inside(TextWrites(inputs, |inputs|), TextSize(inputs)) && Inside(DataWrites(inputs, |inputs|), DataSize(inputs))
      modifies mergedText, mergedData
      ensures o.Linked? <==> Resolvable(inputs, entryName) && AllKnown(inputs)
      ensures o.Linked? ==> o.file == Output(inputs, entryName)
    {
      hide Padded, Resolve, Referenced, Executable, FinalText, FinalData, Inside, TextWrites, DataWrites, AllKnown, FinalStatus, Entry;
      if r.Lacks? { return UndefinedSymbol(r.name); }
      if r.NoStart? { return NoEntry; }
      var ok := ApplyRelocations();
      if !ok { return BadRelocation; }
      var file := WriteOutput();
      return Linked(file[..]);
    }

    lemma {:induction false} LaidAt(fi: nat)
      requires Laid() && fi < |inputs|
      ensures |textOff| == |dataOff| == |inputs| && textOff[fi] == TextOff(inputs, fi) && dataOff[fi] == DataOff(inputs, fi)
      ensures textSize == TextSize(inputs)
    {
      hide TextOff, DataOff, BssOff;
    }

    lemma {:induction false} MissingIsNeeded(direct: Inputs)
      requires HoldsWanted(direct)
      ensures forall id :: IsMember(archives, id) ==> (Missing(id) <==> Needed(direct, archives, loaded, id))
    {
      hide Wanted;
    }
  }

  lemma {:induction false} Regroup<T>(a: seq<T>, b: seq<T>, c: seq<T>)
    ensures a + (b + c) == a + b + c
  {
  }

  lemma {:induction false} FewerLeft(archives: seq<Archive>, s: set<MemberId>, id: MemberId)
    requires IsMember(archives, id) && id !in s
    ensures |Ids(archives, |archives|) - (s + {id})| < |Ids(archives, |archives|) - s|
  {
    hide Ids;
    IdsAll(archives, |archives|, id);
    var all := Ids(archives, |archives|);
    assert id in all - s;
    Smaller(all - (s + {id}), all - s);
  }

  lemma {:induction false} Smaller<T>(a: set<T>, b: set<T>)
    requires a < b
    ensures |a| < |b|
  {
    assert b == a + (b - a);
  }

  lemma {:induction false} WriteTwice(s: seq<Byte>, p: nat, a: seq<Byte>, b: seq<Byte>)
    requires p + |a| + |b| <= |s|
    ensures WriteAt(WriteAt(s, p, a), p + |a|, b) == WriteAt(s, p, a + b)
  {
  }

  lemma {:induction false} NoStores(s: seq<Byte>)
    ensures AllStored(s, []) == s
  {
  }

  lemma {:induction false} NoWrites(ins: Inputs, text: seq<Byte>, data: seq<Byte>)
    ensures AllStored(text, TextWrites(ins, 0)) == text && AllStored(data, DataWrites(ins, 0)) == data
  {
  }

  lemma {:induction false} InsideAt(ins: Inputs, fi: nat, rs: seq<Rela>, base: int, off: int, k: nat, n: nat)
    requires fi < |ins| && k < |rs| && Inside(WritesIn(ins, fi, rs, base, off, |rs|), n)
    ensures Inside([WriteOf(ins, fi, rs[k], base, off)], n)
  {
    hide WriteOf, WritesIn;
    WriteListed(ins, fi, rs, base, off, |rs|, k);
    var ws := WritesIn(ins, fi, rs, base, off, |rs|);
    assert ws[k] == [WriteOf(ins, fi, rs[k], base, off)][0];
  }

  /** The stores of input fi are inside, as all of them are. */
  lemma {:induction false} WritesInside(ins: Inputs, fi: nat, n: nat, m: nat)
    requires fi < |ins| && Inside(TextWrites(ins, |ins|), n) && Inside(DataWrites(ins, |ins|), m)
    ensures Inside(WritesIn(ins, fi, ins[fi].relText, TextBase(ins, fi), TextOff(ins, fi), |ins[fi].relText|), n)
    ensures Inside(WritesIn(ins, fi, ins[fi].relData, DataBase(ins, fi), DataOff(ins, fi), |ins[fi].relData|), m)
  {
    hide WriteOf, TextBase, DataBase, TextOff, DataOff, TextWrites, DataWrites, WritesIn;
    var rt, rd := ins[fi].relText, ins[fi].relData;
    var ts := WritesIn(ins, fi, rt, TextBase(ins, fi), TextOff(ins, fi), |rt|);
    forall k | 0 <= k < |ts| ensures 0 <= ts[k].at && ts[k].at + |ts[k].bytes| <= n {
      WriteListed(ins, fi, rt, TextBase(ins, fi), TextOff(ins, fi), |rt|, k);
      var i := TextListed(ins, |ins|, fi, k);
    }
    var ds := WritesIn(ins, fi, rd, DataBase(ins, fi), DataOff(ins, fi), |rd|);
    forall k | 0 <= k < |ds| ensures 0 <= ds[k].at && ds[k].at + |ds[k].bytes| <= m {
      WriteListed(ins, fi, rd, DataBase(ins, fi), DataOff(ins, fi), |rd|, k);
      var i := DataListed(ins, |ins|, fi, k);
    }
  }

  lemma {:induction false} NextWrites(ins: Inputs, fi: nat, text: seq<Byte>, data: seq<Byte>)
    requires fi < |ins|
    ensures AllStored(text, TextWrites(ins, fi + 1)) == AllStored(AllStored(text, TextWrites(ins, fi)),
      WritesIn(ins, fi, ins[fi].relText, TextBase(ins, fi), TextOff(ins, fi), |ins[fi].relText|))
    ensures AllStored(data, DataWrites(ins, fi + 1)) == AllStored(AllStored(data, DataWrites(ins, fi)),
      WritesIn(ins, fi, ins[fi].relData, DataBase(ins, fi), DataOff(ins, fi), |ins[fi].relData|))
  {
    hide WritesIn, AllStored, TextBase, DataBase, TextOff, DataOff;
    var f := ins[fi];
    StoreAll(text, TextWrites(ins, fi), WritesIn(ins, fi, f.relText, TextBase(ins, fi), TextOff(ins, fi), |f.relText|));
    StoreAll(data, DataWrites(ins, fi), WritesIn(ins, fi, f.relData, DataBase(ins, fi), DataOff(ins, fi), |f.relData|));
  }

  lemma {:induction false} WholeFile(s: seq<Byte>)
    ensures s + Zeros(0) == s
  {
  }

  method PutElfHeader(buf: array<Byte>, entry: int, shoff: int)
    requires buf.Length >= 64 && buf[..] == [] + Zeros(buf.Length)
    modifies buf
    ensures buf[..] == ElfHeader(entry, shoff) + Zeros(buf.Length - 64)
  {
    hide LE2, LE4, LE8, Zeros;
    ghost var h := [];
    var p := 0;
    p := Put(buf, p, IDENT, h); h := h + IDENT;
    p := Put(buf, p, LE2(2), h); h := h + LE2(2);
    p := Put(buf, p, LE2(62), h); h := h + LE2(62);
    p := Put(buf, p, LE4(1), h); h := h + LE4(1);
    p := Put(buf, p, LE8(entry), h); h := h + LE8(entry);
    p := Put(buf, p, LE8(64), h); h := h + LE8(64);
    p := Put(buf, p, LE8(shoff), h); h := h + LE8(shoff);
    p := Put(buf, p, LE4(0), h); h := h + LE4(0);
    p := Put(buf, p, LE2(64), h); h := h + LE2(64);
    p := Put(buf, p, LE2(56), h); h := h + LE2(56);
    p := Put(buf, p, LE2(1), h); h := h + LE2(1);
    p := Put(buf, p, LE2(64), h); h := h + LE2(64);
    p := Put(buf, p, LE2(5), h); h := h + LE2(5);
    p := Put(buf, p, LE2(4), h); h := h + LE2(4);
    assert [] + IDENT == IDENT;
    assert h == ElfHeader(entry, shoff);
  }

  method PutProgramHeader(buf: array<Byte>, ghost base: seq<Byte>, filesz: int, memsz: int)
    requires |base| == 64 && buf.Length >= 120 && buf[..] == base + Zeros(buf.Length - 64)
    modifies buf
    ensures buf[..] == base + ProgramHeader(filesz, memsz) + Zeros(buf.Length - 120)
  {
    hide LE2, LE4, LE8, Zeros;
    ghost var h := LE4(1);
    var p := Put(buf, 64, LE4(1), base);
    p := PutField(buf, p, LE4(7), base, h); h := h + LE4(7);
    p := PutField(buf, p, LE8(PAGE), base, h); h := h + LE8(PAGE);
    p := PutField(buf, p, LE8(BASE_ADDR), base, h); h := h + LE8(BASE_ADDR);
    p := PutField(buf, p, LE8(BASE_ADDR), base, h); h := h + LE8(BASE_ADDR);
    p := PutField(buf, p, LE8(filesz), base, h); h := h + LE8(filesz);
    p := PutField(buf, p, LE8(memsz), base, h); h := h + LE8(memsz);
    p := PutField(buf, p, LE8(PAGE), base, h); h := h + LE8(PAGE);
    assert h == ProgramHeader(filesz, memsz);
  }

  method PutSectionHeader(buf: array<Byte>, at: nat, ghost base: seq<Byte>, name: int, typ: int, flags: int, addr: int,
                          off: int, size: int, align: int)
    requires |base| == at && buf.Length >= at + 64 && buf[..] == base + Zeros(buf.Length - at)
    modifies buf
    ensures buf[..] == base + SectionHeader(name, typ, flags, addr, off, size, align) + Zeros(buf.Length - at - 64)
  {
    hide LE2, LE4, LE8, Zeros;
    ghost var h := LE4(name);
    var p := Put(buf, at, LE4(name), base);
    p := PutField(buf, p, LE4(typ), base, h); h := h + LE4(typ);
    p := PutField(buf, p, LE8(flags), base, h); h := h + LE8(flags);
    p := PutField(buf, p, LE8(addr), base, h); h := h + LE8(addr);
    p := PutField(buf, p, LE8(off), base, h); h := h + LE8(off);
    p := PutField(buf, p, LE8(size), base, h); h := h + LE8(size);
    p := PutField(buf, p, LE4(0), base, h); h := h + LE4(0);
    p := PutField(buf, p, LE4(0), base, h); h := h + LE4(0);
    p := PutField(buf, p, LE8(align), base, h); h := h + LE8(align);
    p := PutField(buf, p, LE8(0), base, h); h := h + LE8(0);
    assert h == SectionHeader(name, typ, flags, addr, off, size, align);
  }

  method PutSectionHeaders(buf: array<Byte>, ghost base: seq<Byte>, ts: nat, ds: nat, bs: nat)
    requires buf.Length == |base| + 320 && |base| == PAGE + ts + ds + 28 && buf[..] == base + Zeros(320)
    modifies buf
    ensures buf[..] == base + SectionHeaders(ts, ds, bs) + Zeros(0)
  {
    hide SectionHeader, Zeros;
    var at := PAGE + ts + ds + 28;
    SkipZeros(base, 64, 256);
    ghost var h := base + Zeros(64);
    PutSectionHeader(buf, at + 64, h, 1, 1, 6, BASE_ADDR, PAGE, ts, 16);
    h := h + SectionHeader(1, 1, 6, BASE_ADDR, PAGE, ts, 16);
    PutSectionHeader(buf, at + 128, h, 7, 1, 3, BASE_ADDR + ts, PAGE + ts, ds, 32);
    h := h + SectionHeader(7, 1, 3, BASE_ADDR + ts, PAGE + ts, ds, 32);
    PutSectionHeader(buf, at + 192, h, 13, 8, 3, BASE_ADDR + ts + ds, 0, bs, 32);
    h := h + SectionHeader(13, 8, 3, BASE_ADDR + ts + ds, 0, bs, 32);
    PutSectionHeader(buf, at + 256, h, 18, 3, 0, 0, PAGE + ts + ds, 28, 1);
    h := h + SectionHeader(18, 3, 0, 0, PAGE + ts + ds, 28, 1);
    assert h == base + SectionHeaders(ts, ds, bs);
  }

  /** Names wanted while loading are names referred to by the inputs of the link. */
  lemma {:induction false} WantedReferenced(direct: Inputs, archives: seq<Archive>, order: seq<MemberId>, s: set<MemberId>,
                                            ins: Inputs)
    requires InOrder(archives, order, s) && ins == direct + Objects(archives, order)
    ensures forall n :: Wanted(direct, archives, s, n) ==> Referenced(ins, n)
  {
    hide Refers, Referenced;
    forall n | Wanted(direct, archives, s, n) ensures Referenced(ins, n) {
      ReferencedBy(ins, n);
      if fi :| 0 <= fi < |direct| && Refers(direct[fi], n) {
        assert ins[fi] == direct[fi];
      } else {
        var id :| id in s && IsMember(archives, id) && Refers(archives[id.0].members[id.1], n);
        var k :| 0 <= k < |order| && order[k] == id;
        ObjectAt(archives, order, k);
        assert ins[|direct| + k] == archives[id.0].members[id.1];
      }
    }
  }

  lemma {:induction false} ObjectAt(archives: seq<Archive>, order: seq<MemberId>, k: nat)
    requires AllMembers(archives, order) && k < |order|
    ensures Objects(archives, order)[k] == archives[order[k].0].members[order[k].1]
    decreases |order|
  {
    if k < |order| - 1 { ObjectAt(archives, order[..|order| - 1], k); }
  }

  lemma {:induction false} FirstOff(ins: Inputs)
    ensures TextOff(ins, 0) == 0 && DataOff(ins, 0) == 0 && BssOff(ins, 0) == 0
  {
  }

  lemma {:induction false} NextOff(ins: Inputs, i: nat)
    requires i < |ins|
    ensures TextOff(ins, i + 1) == AlignUp(TextOff(ins, i) + |ins[i].text|, 16)
    ensures DataOff(ins, i + 1) == AlignUp(DataOff(ins, i) + |ins[i].data|, 32)
    ensures BssOff(ins, i + 1) == AlignUp(BssOff(ins, i) + ins[i].bss, 32)
  {
    hide AlignUp;
  }

  lemma {:induction false} NoParts(parts: seq<seq<Byte>>, align: nat)
    requires align > 0
    ensures Padded(parts, align, 0) == [] && Offset(Sizes(parts), align, 0) == 0
  {
  }

  lemma {:induction false} NextPart(parts: seq<seq<Byte>>, align: nat, i: nat)
    requires align > 0 && i < |parts|
    ensures var at := Offset(Sizes(parts), align, i);
      var next := AlignUp(at + |parts[i]|, align);
      && Offset(Sizes(parts), align, i + 1) == next
      && Padded(parts, align, i + 1) == Padded(parts, align, i) + parts[i] + Zeros(next - (at + |parts[i]|))
  {
    hide AlignUp;
  }

  lemma {:induction false} AllZero(s: seq<Byte>, n: nat)
    requires |s| == n && forall i :: 0 <= i < n ==> s[i] == 0
    ensures s == [] + Zeros(n)
  {
  }

  /** Writing a part over zeros leaves zeros behind it. */
  lemma {:induction false} Overwrite(pre: seq<Byte>, part: seq<Byte>, pad: nat, rest: nat)
    ensures WriteAt(pre + Zeros(|part| + pad + rest), |pre|, part) == pre + part + Zeros(pad) + Zeros(rest)
  {
  }

  lemma {:induction false} FindOne(ds: seq<Binding>, b: Binding, n: string)
    ensures Find(ds + [b], n) == if Find(ds, n).Some? then Find(ds, n) else if b.name == n then Some(b.value) else None
  {
    FindCat(ds, [b], n);
    assert [b][1..] == [];
  }

  lemma {:induction false} ReferencedBy(ins: Inputs, n: string)
    ensures Referenced(ins, n) <==> exists k :: 0 <= k < |ins| && Refers(ins[k], n)
  {
    if Referenced(ins, n) {
      var fi, si :| 0 <= fi < |ins| && 1 <= si < |ins[fi].syms| && ins[fi].syms[si].name == n
        && IsReference(ins[fi].syms[si]);
      assert Refers(ins[fi], n);
    }
  }

  lemma {:induction false} AllDefined(table: seq<Global>, ins: Inputs)
    requires Unique(table) && forall n :: Entry(table, n) == FinalStatus(ins, n)
    requires forall k :: 0 <= k < |table| ==> table[k].defined || IsGot(table[k].name)
    ensures forall n :: Referenced(ins, n) && !IsGot(n) ==> Resolve(ins, n).Some?
  {
    hide Referenced, Resolve, IsGot;
    forall n | Referenced(ins, n) && !IsGot(n) ensures Resolve(ins, n).Some? {
      assert Entry(table, n) == FinalStatus(ins, n);
      var i := EntryFound(table, n);
      EntryIs(table, i);
    }
  }

  lemma {:induction false} EntryDecided(table: seq<Global>, name: string, addr: int)
    requires (exists k :: 0 <= k < |table| && table[k].name == name && table[k].defined) ==> Entry(table, name) == Defined(addr)
    requires (forall k :: 0 <= k < |table| && table[k].defined ==> table[k].name != name) ==> addr == 0
    requires Unique(table)
    ensures addr != 0 <==> Entry(table, name).Defined? && Entry(table, name).v != 0
    ensures addr != 0 ==> Entry(table, name) == Defined(addr)
  {
    if Entry(table, name).Defined? {
      var i := EntryFound(table, name);
      EntryIs(table, i);
    }
  }

  /** The first m members of archive a. */
  function IdsIn(a: nat, m: nat): set<MemberId>
  {
    if m == 0 then {} else IdsIn(a, m - 1) + {(a, m - 1)}
  }

  /** The members of the first n archives. */
  function Ids(archives: seq<Archive>, n: nat): set<MemberId>
    requires n <= |archives|
  {
    if n == 0 then {} else Ids(archives, n - 1) + IdsIn(n - 1, |archives[n - 1].members|)
  }

  lemma {:induction false} IdsInAll(a: nat, m: nat, id: MemberId)
    ensures id in IdsIn(a, m) <==> id.0 == a && id.1 < m
    decreases m
  {
    if m > 0 { IdsInAll(a, m - 1, id); }
  }

  lemma {:induction false} IdsAll(archives: seq<Archive>, n: nat, id: MemberId)
    requires n <= |archives|
    ensures id in Ids(archives, n) <==> IsMember(archives, id) && id.0 < n
    decreases n
  {
    if n > 0 {
      IdsAll(archives, n - 1, id);
      IdsInAll(n - 1, |archives[n - 1].members|, id);
    }
  }

  ghost predicate AllMembers(archives: seq<Archive>, order: seq<MemberId>)
  {
    forall i :: 0 <= i < |order| ==> IsMember(archives, order[i])
  }

  /** The objects of the members of order. */
  ghost function Objects(archives: seq<Archive>, order: seq<MemberId>): (s: seq<Input>)
    requires AllMembers(archives, order)
    ensures |s| == |order|
  {
    if order == [] then []
    else
      var n := |order| - 1;
      Objects(archives, order[..n]) + [archives[order[n].0].members[order[n].1]]
  }

  lemma {:induction false} NoObjects(archives: seq<Archive>)
    ensures Objects(archives, []) == []
  {
  }

  /** order lists the members of s, each one once. */
  ghost predicate InOrder(archives: seq<Archive>, order: seq<MemberId>, s: set<MemberId>)
  {
    && AllMembers(archives, order) && (forall id :: id in s <==> id in order)
    && forall i, j :: 0 <= i < j < |order| ==> order[i] != order[j]
  }

  lemma {:induction false} OrderNext(archives: seq<Archive>, order: seq<MemberId>, s: set<MemberId>, id: MemberId)
    requires InOrder(archives, order, s) && IsMember(archives, id) && id !in s
    ensures InOrder(archives, order + [id], s + {id})
    ensures Objects(archives, order + [id]) == Objects(archives, order) + [archives[id.0].members[id.1]]
  {
    assert forall i :: 0 <= i < |order| ==> order[i] in order;
    assert (order + [id])[..|order|] == order;
  }

  lemma {:induction false} WantedNext(direct: Inputs, archives: seq<Archive>, s: set<MemberId>, id: MemberId, n: string)
    requires IsMember(archives, id)
    ensures Wanted(direct, archives, s + {id}, n) == (Wanted(direct, archives, s, n) || Refers(archives[id.0].members[id.1], n))
  {
    hide Refers;
  }

  ghost predicate RefersUpTo(f: Input, k: nat, name: string)
  {
    exists si :: 1 <= si < |f.syms| && si < k && f.syms[si].name == name && IsReference(f.syms[si])
  }

  lemma {:induction false} RefersNext(f: Input, k: nat, name: string)
    requires 1 <= k < |f.syms|
    ensures RefersUpTo(f, k + 1, name) <==> RefersUpTo(f, k, name) || (f.syms[k].name == name && IsReference(f.syms[k]))
  {
  }

  lemma {:induction false} RefersAll(f: Input, k: nat, name: string)
    requires k >= |f.syms|
    ensures RefersUpTo(f, k, name) <==> Refers(f, name)
  {
  }
}
