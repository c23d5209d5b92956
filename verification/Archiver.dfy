/** The archiver: collects the symbols that the members define, sorts them in place,
    computes all offsets first and then writes; and the reader that the linker uses. */
module Archiver {
  import opened Bytes
  import opened Words
  import opened ObjectFile
  import opened ArchiveFile
  import L = Linking

  // ----- Sorting -----

  /** The difference at the first place where the C strings differ. */
  function Compare(a: string, b: string): int
  {
    if a == "" && b == "" then 0
    else if a == "" then -(b[0] as int)
    else if b == "" then a[0] as int
    else if a[0] == b[0] then Compare(a[1..], b[1..])
    else a[0] as int - b[0] as int
  }

  lemma {:induction false} CompareTurns(a: string, b: string)
    ensures Compare(a, b) == -Compare(b, a)
    decreases |a|
  {
    if a != "" && b != "" && a[0] == b[0] { CompareTurns(a[1..], b[1..]); }
  }

  lemma {:induction false} CompareChains(a: string, b: string, c: string)
    requires IsName(a) && IsName(b) && IsName(c) && Compare(a, b) <= 0 && Compare(b, c) <= 0
    ensures Compare(a, c) <= 0
    decreases |a|
  {
    if a != "" && b != "" && c != "" && a[0] == b[0] == c[0] { CompareChains(a[1..], b[1..], c[1..]); }
  }

  lemma {:induction false} CompareEqual(a: string)
    ensures Compare(a, a) == 0
    decreases |a|
  {
    if a != "" { CompareEqual(a[1..]); }
  }

  /** t goes behind everything that is not greater. */
  function Insert(s: seq<SymRef>, t: SymRef): (r: seq<SymRef>)
    ensures |r| == |s| + 1
    decreases |s|
  {
    if s == [] then [t]
    else
      var n := |s| - 1;
      if Compare(s[n].name, t.name) > 0 then Insert(s[..n], t) + [s[n]] else s + [t]
  }

  function Sort(s: seq<SymRef>): (r: seq<SymRef>)
    ensures |r| == |s|
    decreases |s|
  {
    if s == [] then [] else Insert(Sort(s[..|s| - 1]), s[|s| - 1])
  }

  predicate CNames(s: seq<SymRef>) { forall i :: 0 <= i < |s| ==> IsName(s[i].name) }

  predicate Sorted(s: seq<SymRef>) { forall i, j :: 0 <= i < j < |s| ==> Compare(s[i].name, s[j].name) <= 0 }

  lemma {:induction false} InsertSorted(s: seq<SymRef>, t: SymRef)
    requires Sorted(s) && CNames(s) && IsName(t.name)
    ensures Sorted(Insert(s, t)) && CNames(Insert(s, t))
    ensures forall k :: 0 <= k <= |s| ==> Insert(s, t)[k] == t || Insert(s, t)[k] in s
    decreases |s|
  {
    hide Compare, IsName;
    if s != [] {
      var n := |s| - 1;
      var r := Insert(s, t);
      if Compare(s[n].name, t.name) > 0 {
        var f := Insert(s[..n], t);
        InsertSorted(s[..n], t);
        CompareTurns(s[n].name, t.name);
        assert r == f + [s[n]];
        forall i | 0 <= i < n + 1 ensures Compare(r[i].name, s[n].name) <= 0 {
          assert r[i] == f[i];
        }
      } else {
        forall i | 0 <= i < n + 1 ensures Compare(s[i].name, t.name) <= 0 {
          if i < n { CompareChains(s[i].name, s[n].name, t.name); }
        }
      }
    }
  }

  lemma {:induction false} SortSorted(s: seq<SymRef>)
    requires CNames(s)
    ensures Sorted(Sort(s)) && CNames(Sort(s))
    decreases |s|
  {
    hide Compare, IsName;
    if s != [] {
      SortSorted(s[..|s| - 1]);
      InsertSorted(Sort(s[..|s| - 1]), s[|s| - 1]);
    }
  }

  lemma {:induction false} InsertKeeps(s: seq<SymRef>, t: SymRef)
    ensures multiset(Insert(s, t)) == multiset(s) + multiset{t}
    decreases |s|
  {
    hide Compare;
    if s != [] {
      var n := |s| - 1;
      assert s == s[..n] + [s[n]];
      if Compare(s[n].name, t.name) > 0 { InsertKeeps(s[..n], t); }
    }
  }

  /** The index is a sorted permutation of the collected symbols. */
  lemma {:induction false} SortIsPermutation(s: seq<SymRef>)
    requires CNames(s)
    ensures Sorted(Sort(s)) && multiset(Sort(s)) == multiset(s)
    decreases |s|
  {
    hide Compare, Insert, IsName;
    SortSorted(s);
    if s != [] {
      var n := |s| - 1;
      assert s == s[..n] + [s[n]];
      SortIsPermutation(s[..n]);
      InsertKeeps(Sort(s[..n]), s[n]);
    }
  }

  /** Insertion sort in place. */
  method SortSyms(a: array<SymRef>)
    modifies a
    ensures a[..] == Sort(old(a[..]))
  {
    hide Compare;
    ghost var was := a[..];
    if a.Length == 0 { return; }
    var i := 1;
    OneSorted(was);
    while i < a.Length
      invariant 1 <= i <= a.Length && a[..i] == Sort(was[..i]) && a[i..] == was[i..]
    {
      InsertAt(a, i, was);
      i := i + 1;
    }
    assert was[..i] == was;
  }

  lemma {:induction false} OneSorted(s: seq<SymRef>)
    requires s != []
    ensures s[..1] == Sort(s[..1])
  {
    assert s[..1][..0] == [];
  }

  /** Moves element i to its place among the first i. */
  method InsertAt(a: array<SymRef>, i: nat, ghost was: seq<SymRef>)
    requires 0 < i < a.Length == |was| && a[..i] == Sort(was[..i]) && a[i..] == was[i..]
    modifies a
    ensures a[..i + 1] == Sort(was[..i + 1]) && a[i + 1..] == was[i + 1..]
  {
    hide Compare, Insert, Sort;
    ghost var p := a[..i];
    var t := a[i];
    NextInsert(was, i);
    var j := i - 1;
    StartInsert(p, t);
    while j >= 0
      invariant -1 <= j < i && Shifted(a[..], p, j + 1, was)
      invariant Insert(p, t) == Insert(p[..j + 1], t) + p[j + 1..]
    {
      assert a[j] == a[..][j] == p[j];
      if Compare(a[j].name, t.name) <= 0 { break; }
      InsertStep(p, j, t);
      ghost var before := a[..];
      a[j + 1] := a[j];
      ShiftStep(before, p, j + 1, was);
      assert a[..] == before[j + 1 := before[j]];
      j := j - 1;
    }
    InsertEnds(p, j + 1, t);
    ghost var before := a[..];
    a[j + 1] := t;
    Placed(before, p, j + 1, was, t);
    assert a[..] == before[j + 1 := t];
    assert a[..i + 1] == a[..][..i + 1] && a[i + 1..] == a[..][i + 1..];
  }

  /** The elements of p from n on have moved up by one place. */
  predicate Shifted(a: seq<SymRef>, p: seq<SymRef>, n: nat, was: seq<SymRef>)
  {
    n <= |p| < |a| == |was| && a[..n] == p[..n] && a[n + 1..|p| + 1] == p[n..] && a[|p| + 1..] == was[|p| + 1..]
  }

  lemma {:induction false} ShiftStep(a: seq<SymRef>, p: seq<SymRef>, n: nat, was: seq<SymRef>)
    requires 0 < n && Shifted(a, p, n, was)
    ensures Shifted(a[n := a[n - 1]], p, n - 1, was)
  {
    var b := a[n := a[n - 1]];
    assert a[n - 1] == a[..n][n - 1] == p[n - 1];
    assert b[..n - 1] == a[..n][..n - 1];
    assert b[n..|p| + 1] == [b[n]] + a[n + 1..|p| + 1];
    assert p[n - 1..] == [p[n - 1]] + p[n..];
  }

  lemma {:induction false} Placed(a: seq<SymRef>, p: seq<SymRef>, n: nat, was: seq<SymRef>, t: SymRef)
    requires Shifted(a, p, n, was)
    ensures a[n := t][..|p| + 1] == p[..n] + [t] + p[n..] && a[n := t][|p| + 1..] == was[|p| + 1..]
  {
    var b := a[n := t];
    assert b[..|p| + 1] == a[..n] + [t] + a[n + 1..|p| + 1];
    assert b[|p| + 1..] == a[|p| + 1..];
  }

  lemma {:induction false} NextInsert(was: seq<SymRef>, i: nat)
    requires i < |was|
    ensures Sort(was[..i + 1]) == Insert(Sort(was[..i]), was[i])
  {
    assert was[..i + 1][..i] == was[..i];
  }

  lemma {:induction false} StartInsert(p: seq<SymRef>, t: SymRef)
    ensures Insert(p, t) == Insert(p[..|p|], t) + p[|p|..]
  {
    assert p[..|p|] == p && p[|p|..] == [];
  }

  lemma {:induction false} InsertStep(p: seq<SymRef>, j: nat, t: SymRef)
    requires j < |p| && Compare(p[j].name, t.name) > 0
    ensures Insert(p[..j + 1], t) + p[j + 1..] == Insert(p[..j], t) + p[j..]
  {
    hide Compare;
    assert p[..j + 1][..j] == p[..j];
    assert p[j..] == [p[j]] + p[j + 1..];
  }

  lemma {:induction false} InsertEnds(p: seq<SymRef>, n: nat, t: SymRef)
    requires n <= |p| && (n == 0 || Compare(p[n - 1].name, t.name) <= 0)
    ensures Insert(p[..n], t) == p[..n] + [t]
  {
    hide Compare;
  }

  // ----- Collecting symbols -----

  /** The first symbol table section from i on, or -1. */
  function FindType(file: seq<Byte>, i: nat): int
    requires TableFits(file)
    decreases SectionCount(file) - i
  {
    if i >= SectionCount(file) then -1
    else if R32(file, TableAt(file) + 64 * i + 4) == 2 then i
    else FindType(file, i + 1)
  }

  /** A global or weak definition (binding 1 or 2) that is neither a section nor a file
      (type 3 or 4). */
  predicate Offered(file: seq<Byte>, p: nat): (b: bool)
    requires p + 24 <= |file|
    ensures b <==> file[p + 4] / 16 in {1, 2} && file[p + 4] % 16 !in {3, 4} && R16(file, p + 6) > 0
  {
    var bind, typ := file[p + 4] / 16, file[p + 4] % 16;
    (bind == 1 || bind == 2) && R16(file, p + 6) != 0 && typ != 4 && typ != 3
  }

  /** The names that the first k symbols offer. */
  function CollectFrom(file: seq<Byte>, sy: Place, st: Place, k: nat): seq<string>
    requires Fits(file, sy) && Fits(file, st) && 24 * k <= sy.size
    decreases k
  {
    if k == 0 then []
    else
      var p := sy.at + 24 * (k - 1);
      var name := ReadSymbol(file, st, p).name;
      CollectFrom(file, sy, st, k - 1) + (if Offered(file, p) && name != "" then [name] else [])
  }

  function StringsFor(file: seq<Byte>, si: nat): Place
    requires TableFits(file) && si < SectionCount(file)
  {
    var link := S32(R32(file, TableAt(file) + 64 * si + 40));
    if 0 < link < SectionCount(file) then SectionPlace(file, link) else Place(0, 0)
  }

  /** The names a member offers; files that are no objects offer none. */
  function Collected(file: seq<Byte>): seq<string>
  {
    if |file| < 64 || file[..4] != IDENT[..4] || file[4] != 2 || R16(file, 16) != 1 || !TableFits(file) then []
    else
      var si := FindType(file, 1);
      if si < 0 || si >= SectionCount(file) then []
      else
        var sy, st := SectionPlace(file, si), StringsFor(file, si);
        if !Fits(file, sy) || !Fits(file, st) then [] else CollectFrom(file, sy, st, sy.size / 24)
  }

  function RefsOf(names: seq<string>, m: nat): (r: seq<SymRef>)
    ensures |r| == |names|
  {
    seq(|names|, i requires 0 <= i < |names| => SymRef(names[i], m))
  }

  /** What the first n members offer. */
  function Refs(ms: seq<Member>, n: nat): seq<SymRef>
    requires n <= |ms|
  {
    if n == 0 then [] else Refs(ms, n - 1) + RefsOf(Collected(ms[n - 1].data), n - 1)
  }

  /** A name is listed for a member exactly when the member offers it. */
  lemma {:induction false} RefsAre(ms: seq<Member>, n: nat, r: SymRef)
    requires n <= |ms|
    ensures r in Refs(ms, n) <==> r.member < n && r.name in Collected(ms[r.member].data)
    decreases n
  {
    hide Collected;
    if n > 0 {
      RefsAre(ms, n - 1, r);
      var names := Collected(ms[n - 1].data);
      if r in RefsOf(names, n - 1) {
        var k :| 0 <= k < |names| && RefsOf(names, n - 1)[k] == r;
      }
      if r.member == n - 1 && r.name in names {
        var k :| 0 <= k < |names| && names[k] == r.name;
        assert RefsOf(names, n - 1)[k] == r;
      }
    }
  }

  /** The index of an archive: what its members offer, sorted. */
  function IndexOf(ms: seq<Member>): seq<SymRef> { Sort(Refs(ms, |ms|)) }

  /** The index leads from every name to the members that offer it, and nowhere else. */
  lemma {:induction false} IndexLeads(ms: seq<Member>, r: SymRef)
    ensures r in IndexOf(ms) <==> r.member < |ms| && r.name in Collected(ms[r.member].data)
  {
    hide Refs, Sort, Collected;
    RefsGood(ms, |ms|);
    SortIsPermutation(Refs(ms, |ms|));
    RefsAre(ms, |ms|, r);
    assert r in IndexOf(ms) <==> r in multiset(IndexOf(ms));
    assert r in Refs(ms, |ms|) <==> r in multiset(Refs(ms, |ms|));
  }

  /** Names that were read from a file are C strings without NULs. */
  lemma {:induction false} CStringName(file: seq<Byte>, p: nat)
    ensures IsName(CString(file, p))
    decreases |file| - p
  {
    if p < |file| && file[p] != 0 { CStringName(file, p + 1); }
  }

  lemma {:induction false} CollectNames(file: seq<Byte>, sy: Place, st: Place, k: nat)
    requires Fits(file, sy) && Fits(file, st) && 24 * k <= sy.size
    ensures forall i :: 0 <= i < |CollectFrom(file, sy, st, k)| ==>
      IsName(CollectFrom(file, sy, st, k)[i]) && CollectFrom(file, sy, st, k)[i] != ""
    decreases k
  {
    hide IsName, CString, Offered;
    if k > 0 {
      CollectNames(file, sy, st, k - 1);
      var p := sy.at + 24 * (k - 1);
      if R32(file, p) < st.size { CStringName(file, st.at + R32(file, p)); } else { EmptyName(); }
    }
  }

  lemma {:induction false} EmptyName()
    ensures IsName("")
  {
  }

  lemma {:induction false} RefsGood(ms: seq<Member>, n: nat)
    requires n <= |ms|
    ensures GoodSyms(Refs(ms, n), n) && CNames(Refs(ms, n))
    decreases n
  {
    hide IsName, CollectFrom, FindType, StringsFor;
    if n > 0 {
      RefsGood(ms, n - 1);
      var f := ms[n - 1].data;
      if Collected(f) != [] {
        var si := FindType(f, 1);
        CollectNames(f, SectionPlace(f, si), StringsFor(f, si), SectionPlace(f, si).size / 24);
      }
    }
  }

  lemma {:induction false} IndexGood(ms: seq<Member>)
    ensures GoodSyms(IndexOf(ms), |ms|)
  {
    hide Sort, Refs, IsName;
    var r := Refs(ms, |ms|);
    RefsGood(ms, |ms|);
    SortIsPermutation(r);
    forall i | 0 <= i < |IndexOf(ms)|
      ensures IsName(IndexOf(ms)[i].name) && IndexOf(ms)[i].name != "" && IndexOf(ms)[i].member < |ms|
    {
      assert IndexOf(ms)[i] in multiset(IndexOf(ms));
      assert IndexOf(ms)[i] in r;
    }
  }

  // ----- Writing -----

  /** Digits are produced from the last one to the first. */
  method WriteDec(val: nat, n: nat) returns (b: seq<Byte>)
    ensures b == DecBytes(val, n)
  {
    hide DecBytes;
    b := [];
    var v, i := val, n;
    while i > 0
      invariant 0 <= i <= n && DecBytes(val, n) == DecBytes(v, i) + b
      decreases i
    {
      OneMoreDigit(v, i, b);
      b := [48 + v % 10] + b;
      v := v / 10;
      i := i - 1;
    }
    NoDigits(v, i, b);
  }

  lemma {:induction false} OneMoreDigit(v: nat, i: nat, b: seq<Byte>)
    requires i > 0
    ensures DecBytes(v, i) + b == DecBytes(v / 10, i - 1) + ([48 + v % 10] + b)
  {
  }

  lemma {:induction false} NoDigits(v: nat, i: nat, b: seq<Byte>)
    requires i == 0
    ensures DecBytes(v, i) + b == b
  {
  }

  /** A header goes behind what has been written. */
  method PutHeader(buf: array<Byte>, p: nat, name: seq<Byte>, size: nat, ghost pre: seq<Byte>) returns (q: nat)
    requires |name| <= 16 && p == |pre| && p + HEADER <= buf.Length && buf[..] == pre + Zeros(buf.Length - p)
    modifies buf
    ensures q == p + HEADER && buf[..] == pre + HeaderBytes(name, size) + Zeros(buf.Length - q)
  {
    hide Zeros, Spaces, DecBytes;
    var digits := WriteDec(size, 10);
    ghost var h := name;
    q := Put(buf, p, name, pre);
    q := PutField(buf, q, Spaces(16 - |name|), pre, h); h := h + Spaces(16 - |name|);
    q := PutField(buf, q, Spaces(32), pre, h); h := h + Spaces(32);
    q := PutField(buf, q, digits, pre, h); h := h + digits;
    q := PutField(buf, q, [96, 10], pre, h); h := h + [96, 10];
    assert h == HeaderBytes(name, size);
  }

  /** Header, data and the byte that makes the length even. */
  method PutPart(buf: array<Byte>, p: nat, name: seq<Byte>, data: seq<Byte>, ghost pre: seq<Byte>) returns (q: nat)
    requires |name| <= 16 && p == |pre| && p % 2 == 0 && p + |Part(name, data)| <= buf.Length
    requires buf[..] == pre + Zeros(buf.Length - p)
    modifies buf
    ensures q == p + |Part(name, data)| && buf[..] == pre + Part(name, data) + Zeros(buf.Length - q)
  {
    hide Zeros, HeaderBytes;
    ghost var h := HeaderBytes(name, |data|);
    q := PutHeader(buf, p, name, |data|, pre);
    q := PutField(buf, q, data, pre, h); h := h + data;
    if q % 2 == 1 {
      q := PutField(buf, q, [10], pre, h); h := h + [10];
    }
    assert h == Part(name, data);
  }

  /** Where every member's header will be; also where the archive ends. */
  method Layout(ms: seq<Member>, start: nat) returns (at: array<nat>, total: nat)
    requires GoodMembers(ms) && start % 2 == 0
    ensures fresh(at) && at.Length == |ms| && total == start + |AllMembers(ms)|
    ensures forall i :: 0 <= i < |ms| ==> at[i] == HeaderAt(ms, start, i)
  {
    hide AllMembers, HeaderAt, Pad;
    StartAt(ms, start);
    at := new nat[|ms|];
    var p, i := start, 0;
    while i < |ms|
      invariant 0 <= i <= |ms| && p == HeaderAt(ms, start, i) && p % 2 == 0
      invariant forall k :: 0 <= k < i ==> at[k] == HeaderAt(ms, start, k)
    {
      at[i] := p;
      NextHeader(ms, start, i);
      p := p + HEADER + |ms[i].data|;
      if p % 2 == 1 { p := p + 1; }
      i := i + 1;
    }
    MembersSize(ms, start);
    total := p;
  }

  lemma {:induction false} NextHeader(ms: seq<Member>, start: nat, i: nat)
    requires i < |ms| && HeaderAt(ms, start, i) % 2 == 0
    ensures var p := HeaderAt(ms, start, i) + HEADER + |ms[i].data|;
      HeaderAt(ms, start, i + 1) == (if p % 2 == 1 then p + 1 else p) && HeaderAt(ms, start, i + 1) % 2 == 0
  {
  }

  /** The body of the index. */
  method BuildIndex(syms: seq<SymRef>, ms: seq<Member>, at: array<nat>) returns (b: seq<Byte>)
    requires GoodMembers(ms) && GoodSyms(syms, |ms|) && at.Length == |ms|
    requires forall i :: 0 <= i < |ms| ==> at[i] == HeaderAt(ms, FirstAt(syms), i)
    ensures b == IndexBytes(syms, ms)
  {
    hide BE4, HeaderAt, Offsets, NameBytes, FirstAt;
    ghost var start := FirstAt(syms);
    b := BE4(|syms|);
    var i := 0;
    ghost var done: seq<Byte> := [];
    assert syms[0..] == syms;
    while i < |syms|
      invariant 0 <= i <= |syms| && b == BE4(|syms|) + done && Offsets(syms, ms, start) == done + Offsets(syms[i..], ms, start)
    {
      NextOffset(syms, ms, start, i, done);
      b := b + BE4(at[syms[i].member]);
      done := done + BE4(at[syms[i].member]);
      i := i + 1;
    }
    LastOffset(syms[i..], ms, start);
    assert done == Offsets(syms, ms, start);
    ghost var front := b;
    done := [];
    i := 0;
    while i < |syms|
      invariant 0 <= i <= |syms| && b == front + done && NameBytes(syms) == done + NameBytes(syms[i..])
    {
      NextName(syms, i, done);
      b := b + (Chars(syms[i].name) + [0]);
      done := done + (Chars(syms[i].name) + [0]);
      i := i + 1;
    }
    NoNames();
    assert syms[i..] == [];
    assert done == NameBytes(syms);
  }

  lemma {:induction false} NextOffset(syms: seq<SymRef>, ms: seq<Member>, start: nat, i: nat, done: seq<Byte>)
    requires (forall k :: 0 <= k < |syms| ==> syms[k].member < |ms|) && i < |syms|
    ensures done + Offsets(syms[i..], ms, start)
      == done + BE4(HeaderAt(ms, start, syms[i].member)) + Offsets(syms[i + 1..], ms, start)
  {
    hide BE4, HeaderAt;
    assert syms[i..][1..] == syms[i + 1..];
  }

  lemma {:induction false} LastOffset(syms: seq<SymRef>, ms: seq<Member>, start: nat)
    requires syms == []
    ensures Offsets(syms, ms, start) == []
  {
  }

  lemma {:induction false} NextName(syms: seq<SymRef>, i: nat, done: seq<Byte>)
    requires (forall k :: 0 <= k < |syms| ==> IsName(syms[k].name)) && i < |syms|
    ensures done + NameBytes(syms[i..]) == done + (Chars(syms[i].name) + [0]) + NameBytes(syms[i + 1..])
  {
    hide Chars;
    assert syms[i..][1..] == syms[i + 1..];
  }

  /** Collects the symbols of all members. */
  method CollectAll(ms: seq<Member>) returns (syms: seq<SymRef>)
    ensures syms == Refs(ms, |ms|)
  {
    hide Collected;
    syms := [];
    var i := 0;
    while i < |ms|
      invariant 0 <= i <= |ms| && syms == Refs(ms, i)
    {
      var names := Collect(ms[i].data);
      syms := syms + RefsOf(names, i);
      i := i + 1;
    }
  }

  /** The names that one member offers. */
  method Collect(file: seq<Byte>) returns (names: seq<string>)
    ensures names == Collected(file)
  {
    hide R16, R32, TableFits, SectionPlace, ReadSymbol, Offered;
    if |file| < 64 || file[..4] != IDENT[..4] || file[4] != 2 || R16(file, 16) != 1 || !TableFits(file) { return []; }
    var shnum, si := SectionCount(file), 1;
    while si < shnum
      invariant 1 <= si && (si <= shnum || shnum == 0) && FindType(file, 1) == FindType(file, si)
    {
      SectionFits(file, si);
      if R32(file, TableAt(file) + 64 * si + 4) == 2 { break; }
      si := si + 1;
    }
    if si >= shnum { return []; }
    var sy, st := SectionPlace(file, si), StringsFor(file, si);
    if !Fits(file, sy) || !Fits(file, st) { return []; }
    names := [];
    var k := 0;
    while k < sy.size / 24
      invariant 0 <= k <= sy.size / 24 && names == CollectFrom(file, sy, st, k)
    {
      var p := sy.at + 24 * k;
      var name := ReadSymbol(file, st, p).name;
      if Offered(file, p) && name != "" { names := names + [name]; }
      k := k + 1;
    }
  }

  lemma {:induction false} SectionFits(file: seq<Byte>, si: nat)
    requires TableFits(file) && si < SectionCount(file)
    ensures TableAt(file) + 64 * si + 64 <= |file|
  {
  }

  /** Writes the archive of the members, with the sorted index of what they offer. */
  method WriteArchive(ms: seq<Member>) returns (file: array<Byte>)
    requires GoodMembers(ms)
    ensures fresh(file) && GoodSyms(IndexOf(ms), |ms|) && file[..] == ArchiveOf(ms, IndexOf(ms))
  {
    hide Sort, Refs, IndexBytes, AllMembers, Part, Zeros, GoodSyms, FirstAt;
    var index := BuildSortedIndex(ms);
    var first := IndexEnd(index, ms);
    var at, total := Layout(ms, first);
    PartSizes(ms, index);
    file := new Byte[total](_ => 0);
    AllZero(file[..], total);
    var p := Put(file, 0, MAGIC, []);
    assert [] + MAGIC == MAGIC;
    ghost var pre := MAGIC;
    if |index| > 0 {
      var body := BuildIndex(index, ms, at);
      p := PutPart(file, p, [47], body, pre);
      pre := pre + Part([47], body);
    }
    PutMembers(file, p, ms, at, pre);
    WholeArchive(ms, index, pre);
  }

  /** Collects the symbols and sorts them. */
  method BuildSortedIndex(ms: seq<Member>) returns (index: seq<SymRef>)
    ensures index == IndexOf(ms) && GoodSyms(index, |ms|)
  {
    hide Sort, Refs, GoodSyms;
    IndexGood(ms);
    var collected := CollectAll(ms);
    var syms := new SymRef[|collected|](i requires 0 <= i < |collected| => collected[i]);
    assert syms[..] == collected;
    SortSyms(syms);
    index := syms[..];
  }

  lemma {:induction false} AllZero(s: seq<Byte>, n: nat)
    requires |s| == n && forall i :: 0 <= i < n ==> s[i] == 0
    ensures s == [] + Zeros(n)
  {
  }

  /** The offset of the first member's header. */
  method IndexEnd(syms: seq<SymRef>, ms: seq<Member>) returns (p: nat)
    requires GoodSyms(syms, |ms|)
    ensures p == FirstAt(syms) && p % 2 == 0
  {
    hide NameBytes;
    var size := 4 + |syms| * 4;
    var i := 0;
    assert syms[..0] == [];
    NoNames();
    while i < |syms|
      invariant 0 <= i <= |syms| && size == 4 + 4 * |syms| + |NameBytes(syms[..i])|
    {
      NamesGrow(syms, i);
      size := size + |syms[i].name| + 1;
      i := i + 1;
    }
    assert syms[..i] == syms;
    p := 8;
    if |syms| > 0 {
      p := p + HEADER + size;
      if p % 2 == 1 { p := p + 1; }
    }
  }

  lemma {:induction false} NamesGrow(syms: seq<SymRef>, i: nat)
    requires (forall k :: 0 <= k < |syms| ==> IsName(syms[k].name)) && i < |syms|
    ensures |NameBytes(syms[..i + 1])| == |NameBytes(syms[..i])| + |syms[i].name| + 1
  {
    hide Chars;
    assert syms[..i + 1] == syms[..i] + [syms[i]];
    NamesParts(syms[..i], [syms[i]]);
    assert [syms[i]][1..] == [] && NameBytes([syms[i]]) == Chars(syms[i].name) + [0] + NameBytes([]);
  }

  lemma {:induction false} PartSizes(ms: seq<Member>, syms: seq<SymRef>)
    requires GoodSyms(syms, |ms|)
    ensures syms == [] ==> FirstAt(syms) == 8
    ensures syms != [] ==> FirstAt(syms) == 8 + |Part([47], IndexBytes(syms, ms))|
  {
    hide IndexBytes, HeaderBytes;
    if syms != [] { PartEnds(syms, ms); }
  }

  /** The members go to the offsets that were computed for them. */
  method PutMembers(file: array<Byte>, start: nat, ms: seq<Member>, at: array<nat>, ghost pre: seq<Byte>)
    requires GoodMembers(ms) && start == |pre| && start % 2 == 0 && file.Length == start + |AllMembers(ms)| && at.Length == |ms|
    requires forall i :: 0 <= i < |ms| ==> at[i] == HeaderAt(ms, start, i)
    requires file[..] == pre + Zeros(file.Length - start)
    modifies file
    ensures file[..] == pre + AllMembers(ms)
  {
    hide AllMembers, Part, Zeros, HeaderAt;
    var p, i := start, 0;
    ghost var done: seq<Byte> := [];
    assert pre + [] == pre && ms[0..] == ms;
    assert [] + AllMembers(ms) == AllMembers(ms);
    StartAt(ms, start);
    while i < |ms|
      invariant 0 <= i <= |ms| && p == start + |done| == HeaderAt(ms, start, i) && p % 2 == 0
      invariant GoodMembers(ms[i..]) && AllMembers(ms) == done + AllMembers(ms[i..])
      invariant file[..] == pre + done + Zeros(file.Length - p)
    {
      assert p == HeaderAt(ms, start, i);
      NextMember(ms, start, i, done);
      p := PutPart(file, p, Chars(ms[i].name) + [47], ms[i].data, pre + done);
      Regroup(pre, done, MemberBytes(ms[i]));
      done := done + MemberBytes(ms[i]);
      i := i + 1;
    }
    NoneLeft(ms[i..], pre, done, file.Length - p);
  }

  lemma {:induction false} StartAt(ms: seq<Member>, start: nat)
    ensures HeaderAt(ms, start, 0) == start
  {
  }

  lemma {:induction false} NextMember(ms: seq<Member>, start: nat, i: nat, done: seq<Byte>)
    requires i < |ms| && GoodMembers(ms)
    ensures GoodMembers(ms[i..]) && GoodMembers(ms[i + 1..])
    ensures done + AllMembers(ms[i..]) == done + MemberBytes(ms[i]) + AllMembers(ms[i + 1..])
    ensures HeaderAt(ms, start, i + 1) == HeaderAt(ms, start, i) + |MemberBytes(ms[i])|
  {
    hide MemberBytes;
    assert ms[i..][1..] == ms[i + 1..];
  }

  lemma {:induction false} NoneLeft(ms: seq<Member>, pre: seq<Byte>, done: seq<Byte>, n: nat)
    requires ms == [] && n == |AllMembers(ms)|
    ensures AllMembers(ms) == [] && pre + done + Zeros(n) == pre + (done + AllMembers(ms))
  {
  }

  lemma {:induction false} WholeArchive(ms: seq<Member>, syms: seq<SymRef>, pre: seq<Byte>)
    requires GoodMembers(ms) && GoodSyms(syms, |ms|)
    requires pre == if syms == [] then MAGIC else MAGIC + Part([47], IndexBytes(syms, ms))
    ensures pre + AllMembers(ms) == ArchiveOf(ms, syms)
  {
    hide IndexBytes, HeaderBytes, AllMembers;
    assert MAGIC + [] == MAGIC;
  }

  // ----- Reading -----

  /** All parts of an archive. */
  method ScanParts(file: seq<Byte>, who: Reader) returns (r: Scan)
    ensures r == ScanFrom(file, 8, Scan([], -1, []), who)
  {
    hide NameLength, ParseDec, EntryName;
    r := Scan([], -1, []);
    var pos := 8;
    while pos + HEADER <= |file|
      invariant r.Scan? && ScanFrom(file, 8, Scan([], -1, []), who) == ScanFrom(file, pos, r, who)
      decreases |file| - pos
    {
      var nl, size := NameLength(file, pos, 0), ParseDec(file, pos + 48, 10, 0);
      var dp := pos + HEADER;
      if dp + size > |file| || file[pos + 58] != 96 || file[pos + 59] != 10 { return BadArchive; }
      var next := dp + size;
      if next % 2 == 1 { next := next + 1; }
      if nl == 1 && file[pos] == 47 {
        r := r.(index := dp);
      } else if nl >= 2 && file[pos] == 47 && file[pos + 1] == 47 {
        r := r.(longs := file[dp..dp + size]);
      } else {
        if |r.entries| >= MaxMembers(who) { return BadArchive; }
        r := r.(entries := r.entries + [Entry(EntryName(file, pos, nl, r.longs, who), file[dp..dp + size], pos)]);
      }
      pos := next;
    }
  }

  /** The member with that header offset. */
  method FindArMember(es: seq<Entry>, off: int) returns (i: int)
    ensures i == FindMember(es, off, 0)
  {
    i := 0;
    while i < |es|
      invariant 0 <= i <= |es| && FindMember(es, off, 0) == FindMember(es, off, i)
    {
      if es[i].at == off { return; }
      i := i + 1;
    }
    i := -1;
  }

  /** The symbols of the index that a member answers to. */
  method ReadSymbolIndex(file: seq<Byte>, ix: int, es: seq<Entry>) returns (syms: seq<SymRef>)
    ensures syms == ReadIndex(file, ix, es)
  {
    hide CString, FindMember, R32BE;
    if !(0 <= ix && ix + 4 <= |file|) { return []; }
    var n := S32(R32BE(file, ix));
    if !(0 < n < (|file| - ix) / 4) { return []; }
    syms := [];
    var i, nameAt := 0, 4 + 4 * n;
    while i < n && |syms| < MAX_SYMS
      invariant 0 <= i <= n && nameAt >= 0
      invariant IndexFrom(file, ix, es, n, 0, 4 + 4 * n, []) == IndexFrom(file, ix, es, n, i, nameAt, syms)
      decreases n - i
    {
      var name := CString(file, ix + nameAt);
      var m := FindArMember(es, R32BE(file, ix + 4 + 4 * i));
      if m >= 0 && name != "" { syms := syms + [SymRef(name, m)]; }
      nameAt := nameAt + |name| + 1;
      if nameAt >= |file| - ix { return; }
      i := i + 1;
    }
  }

  /** The linker's reader. */
  method ReadArchiveFile(file: seq<Byte>) returns (a: Archive)
    ensures a == ReadArchive(file)
  {
    hide ScanFrom, ReadIndex;
    if |file| < 8 || file[..8] != MAGIC { return NoArchive; }
    var r := ScanParts(file, ByLinker);
    if r.BadArchive? { return NoArchive; }
    var syms := ReadSymbolIndex(file, r.index, r.entries);
    a := Archive(r.entries, syms);
  }

  /** Archiving and reading the archive gives the members and the sorted index. */
  method WriteThenRead(ms: seq<Member>) returns (a: Archive)
    requires GoodMembers(ms) && |ms| <= 64 && |Refs(ms, |ms|)| <= 1024
    requires GoodSyms(IndexOf(ms), |ms|) ==> |ArchiveOf(ms, IndexOf(ms))| < 0x8000_0000
    ensures GoodSyms(IndexOf(ms), |ms|) && a == Archive(MemberEntries(ms, FirstAt(IndexOf(ms))), IndexOf(ms))
  {
    hide ArchiveOf, MemberEntries, FirstAt, Refs, GoodSyms, ReadArchive;
    var file := WriteArchive(ms);
    ArchiveRoundTrip(ms, IndexOf(ms));
    a := ReadArchiveFile(file[..]);
  }

  // ----- Members that are objects -----

  /** The names that the first k symbols of an object define for others. */
  function DefinedNames(syms: seq<L.Sym>, k: nat): seq<string>
    requires k <= |syms|
    decreases k
  {
    if k == 0 then []
    else DefinedNames(syms, k - 1) + (if L.IsDefinition(syms[k - 1]) then [syms[k - 1].name] else [])
  }

  /** The type bits that the object writer gives to symbols. */
  lemma {:induction false} TypeBits(f: seq<Byte>, p: nat, nameAt: nat, s: Symbol)
    requires Sits(f, p, SymbolBytes(nameAt, s))
    ensures f[p + 4] % 16 == (if s.isFunc then 2 else 0)
  {
    hide LE4, LE2, LE8;
    var info := (if s.isGlobal then 16 else 0) + (if s.isFunc then 2 else 0);
    SitsParts(f, p, LE4(nameAt) + [info, 0] + LE2(s.shndx) + LE8(s.off), LE8(s.size));
    SitsParts(f, p, LE4(nameAt) + [info, 0] + LE2(s.shndx), LE8(s.off));
    SitsParts(f, p, LE4(nameAt) + [info, 0], LE2(s.shndx));
    SitsParts(f, p, LE4(nameAt), [info, 0]);
    SitsByte(f, p + 4, [info, 0], 0);
  }

  /** Entry k of the written symbol table, as both readers see it. */
  lemma {:induction false} EntryOffered(f: seq<Byte>, at: nat, st: Place, syms: seq<Symbol>, k: nat)
    requires AreNames(Names(syms)) && (forall i :: 0 <= i < |syms| ==> SymbolFits(syms[i])) && |f| < 0x8000_0000
    requires Sits(f, at, Flat(SymbolRows(syms))) && st.at >= 0 && Sits(f, st.at, Strings(Names(syms)))
    requires k < |syms| + 1 && st.size == |Strings(Names(syms))|
    ensures Fits(f, st) && at + 24 * k + 24 <= |f| && k < |Entries(syms)|
    ensures ReadSymbol(f, st, at + 24 * k) == Entries(syms)[k]
    ensures Offered(f, at + 24 * k) <==> Entries(syms)[k].bind != 0 && Entries(syms)[k].shndx != 0
  {
    hide Flat, SymbolRow, SymbolFits, Order, Strings, SymbolRows, Entries, ReadSymbols, Names, R16, R32, R64, CString;
    RowOfSymbols(f, at, st, syms, k);
    SymbolCount(syms);
    SymbolTableSize(syms);
    var p := Place(at, 24 * (|syms| + 1));
    assert k < p.size / 24;
    ReadAt(f, st, p, k);
    RecordSits(SymbolRows(syms), 24, k);
    SitsIn(f, at, Flat(SymbolRows(syms)), 24 * k, SymbolRows(syms)[k]);
    RowKinds(syms, k);
    BitsOf(f, at + 24 * k, syms, k);
    BindOf(syms, k);
  }

  lemma {:induction false} BindOf(syms: seq<Symbol>, k: nat)
    requires k < |Entries(syms)|
    ensures Entries(syms)[k].bind == 0 || Entries(syms)[k].bind == 1
  {
    hide Order;
  }

  lemma {:induction false} BitsOf(f: seq<Byte>, p: nat, syms: seq<Symbol>, k: nat)
    requires AreNames(Names(syms)) && k < |Order(syms)| + 1
    requires Sits(f, p, if k == 0 then Zeros(24) else SymbolRow(syms, k - 1))
    ensures f[p + 4] % 16 == 0 || f[p + 4] % 16 == 2
  {
    hide Order, StringAt, SymbolBytes;
    if k == 0 {
      SitsByte(f, p, Zeros(24), 4);
    } else {
      var i := Order(syms)[k - 1];
      TypeBits(f, p, StringAt(Names(syms), i), syms[i]);
    }
  }

  lemma {:induction false} CollectIs(f: seq<Byte>, sy: Place, st: Place, syms: seq<Symbol>, k: nat)
    requires AreNames(Names(syms)) && (forall i :: 0 <= i < |syms| ==> SymbolFits(syms[i])) && |f| < 0x8000_0000
    requires sy.at >= 0 && sy.size == 24 * (|syms| + 1) && Fits(f, sy) && Sits(f, sy.at, Flat(SymbolRows(syms)))
    requires st.at >= 0 && Sits(f, st.at, Strings(Names(syms))) && st.size == |Strings(Names(syms))| && k <= |syms| + 1
    ensures Fits(f, st) && k <= |Entries(syms)|
    ensures CollectFrom(f, sy, st, k) == DefinedNames(Entries(syms), k)
    decreases k
  {
    hide Flat, SymbolRows, SymbolFits, Order, Strings, Entries, Names, Offered, ReadSymbol;
    SymbolCount(syms);
    EntriesSize(syms);
    if k > 0 {
      CollectIs(f, sy, st, syms, k - 1);
      EntryOffered(f, sy.at, st, syms, k - 1);
    }
  }

  lemma {:induction false} EntriesSize(syms: seq<Symbol>)
    ensures |Entries(syms)| == |Order(syms)| + 1
  {
  }

  /** The symbol table is section 6 and its strings are section 7. */
  lemma {:induction false} SymtabFound(o: Object)
    requires Writes(o)
    ensures var f := FileOf(o);
      && TableFits(f) && SectionCount(f) == 9 && FindType(f, 1) == 6
      && SectionPlace(f, 6) == Place(LayoutFor(o).sym, 24 * (|o.syms| + 1))
      && StringsFor(f, 6) == Place(LayoutFor(o).str, |Strings(Names(o.syms))|)
  {
    hide FileOf, Strings, LayoutFor, Names, SectionName, FindType, SectionPlace, TableFits, SectionCount, TableAt, Writable;
    var f := FileOf(o);
    SectionRead(o, 0); SectionRead(o, 1); SectionRead(o, 2); SectionRead(o, 3); SectionRead(o, 4); SectionRead(o, 5);
    SectionRead(o, 6);
    TypeStep(f, 1); TypeStep(f, 2); TypeStep(f, 3); TypeStep(f, 4); TypeStep(f, 5); TypeStep(f, 6);
    SmallWord(7);
  }

  lemma {:induction false} TypeStep(f: seq<Byte>, i: nat)
    requires TableFits(f) && i < SectionCount(f) && TableAt(f) == 64
    ensures FindType(f, i) == if R32(f, 64 + 64 * i + 4) == 2 then i else FindType(f, i + 1)
  {
    hide R32;
  }

  /** An object that the writer made offers exactly the names that it defines for others. */
  lemma {:induction false} ObjectOffers(o: Object)
    requires Writes(o)
    ensures Collected(FileOf(o)) == DefinedNames(InputOf(o).syms, |InputOf(o).syms|)
  {
    hide FileOf, Flat, Strings, SymbolRows, Entries, TableFits, SectionPlace, FindType, StringsFor, CollectFrom, Order, LayoutFor,
      SectionCount, TableAt;
    var f := FileOf(o);
    HeaderRead(o);
    Places(o);
    SymtabFound(o);
    SymbolCount(o.syms);
    EntriesSize(o.syms);
    SymbolTableSize(o.syms);
    CollectIs(f, SectionPlace(f, 6), StringsFor(f, 6), o.syms, |o.syms| + 1);
  }

  /** So the index of an archive of objects leads from a name to a member exactly when
      that member's object defines the name: lazy loading finds what it looks for. */
  lemma {:induction false} IndexLeadsToDefinitions(ms: seq<Member>, os: seq<Object>, name: string, m: nat)
    requires |os| == |ms| && m < |ms| && Writes(os[m]) && ms[m].data == FileOf(os[m])
    ensures SymRef(name, m) in IndexOf(ms) <==>
      exists k :: 0 <= k < |InputOf(os[m]).syms| && L.IsDefinition(InputOf(os[m]).syms[k]) && InputOf(os[m]).syms[k].name == name
  {
    hide IndexOf, Refs, Collected, FileOf, Writes, InputOf, L.IsDefinition;
    IndexLeads(ms, SymRef(name, m));
    ObjectOffers(os[m]);
    DefinedAre(InputOf(os[m]).syms, |InputOf(os[m]).syms|, name);
  }

  lemma {:induction false} DefinedAre(syms: seq<L.Sym>, n: nat, name: string)
    requires n <= |syms|
    ensures name in DefinedNames(syms, n) <==> exists k :: 0 <= k < n && L.IsDefinition(syms[k]) && syms[k].name == name
    decreases n
  {
    hide L.IsDefinition;
    if n > 0 {
      DefinedAre(syms, n - 1, name);
      if L.IsDefinition(syms[n - 1]) && syms[n - 1].name == name { assert syms[n - 1].name in DefinedNames(syms, n); }
    }
  }
}
