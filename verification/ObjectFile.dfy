/** Relocatable object files: what the writer lays down (locals-first symbol table,
    remapped relocations, nine sections) and what the linker's reader finds in it. */
module ObjectFile {
  import opened Bytes
  import opened Words
  import L = Linking

  /** A symbol of the writer; section 1 is .text, 3 .data, 5 .bss and 0 undefined. */
  datatype Symbol = Symbol(name: string, off: nat, size: nat, isGlobal: bool, isFunc: bool, shndx: nat)

  /** A relocation of the writer: sym is 0 or one more than the number of a symbol. */
  datatype Reloc = Reloc(off: nat, sym: nat, typ: nat, addend: int)

  datatype Object = Object(text: seq<Byte>, data: seq<Byte>, bss: nat, syms: seq<Symbol>,
                           relText: seq<Reloc>, relData: seq<Reloc>)

  // ----- Renumbering: locals first -----

  /** The numbers below n of the symbols that are (or are not) global, in order. */
  function Having(syms: seq<Symbol>, global: bool, n: nat): (r: seq<nat>)
    requires n <= |syms|
    ensures |r| <= n && forall k :: 0 <= k < |r| ==> r[k] < n
  {
    if n == 0 then []
    else if syms[n - 1].isGlobal == global then Having(syms, global, n - 1) + [n - 1]
    else Having(syms, global, n - 1)
  }

  /** The order of the symbol table: locals, then globals. */
  function Order(syms: seq<Symbol>): (r: seq<nat>)
    ensures forall k :: 0 <= k < |r| ==> r[k] < |syms|
  {
    Having(syms, false, |syms|) + Having(syms, true, |syms|)
  }

  /** The place of symbol i in the written table, where entry 0 is the null symbol. */
  function NewIndex(syms: seq<Symbol>, i: nat): nat
    requires i < |syms|
  {
    if syms[i].isGlobal then 1 + |Having(syms, false, |syms|)| + |Having(syms, true, i)|
    else 1 + |Having(syms, false, i)|
  }

  /** sh_info of the symbol table: one past the last local. */
  function FirstGlobal(syms: seq<Symbol>): nat { 1 + |Having(syms, false, |syms|)| }

  lemma {:induction false} HavingAt(syms: seq<Symbol>, global: bool, n: nat, i: nat)
    requires i < n <= |syms| && syms[i].isGlobal == global
    ensures |Having(syms, global, i)| < |Having(syms, global, n)|
    ensures Having(syms, global, n)[|Having(syms, global, i)|] == i
    decreases n
  {
    if i < n - 1 { HavingAt(syms, global, n - 1, i); }
  }

  lemma {:induction false} HavingOnly(syms: seq<Symbol>, global: bool, n: nat, k: nat)
    requires n <= |syms| && k < |Having(syms, global, n)|
    ensures var i := Having(syms, global, n)[k];
      i < n && syms[i].isGlobal == global && |Having(syms, global, i)| == k
    decreases n
  {
    if k < |Having(syms, global, n - 1)| { HavingOnly(syms, global, n - 1, k); }
  }

  lemma {:induction false} HavingAll(syms: seq<Symbol>, n: nat)
    requires n <= |syms|
    ensures |Having(syms, false, n)| + |Having(syms, true, n)| == n
    decreases n
  {
    if n > 0 { HavingAll(syms, n - 1); }
  }

  /** The renumbering is a bijection from the symbols onto 1..n, and Order is its inverse. */
  lemma {:induction false} Renumbering(syms: seq<Symbol>)
    ensures |Order(syms)| == |syms|
    ensures forall i :: 0 <= i < |syms| ==> 1 <= NewIndex(syms, i) <= |syms| && Order(syms)[NewIndex(syms, i) - 1] == i
    ensures forall k :: 0 <= k < |syms| ==> NewIndex(syms, Order(syms)[k]) == k + 1
  {
    hide Having;
    var n := |syms|;
    HavingAll(syms, n);
    forall i | 0 <= i < n
      ensures 1 <= NewIndex(syms, i) <= n && Order(syms)[NewIndex(syms, i) - 1] == i
    {
      HavingAt(syms, syms[i].isGlobal, n, i);
    }
    forall k | 0 <= k < n ensures NewIndex(syms, Order(syms)[k]) == k + 1 {
      var locals := |Having(syms, false, n)|;
      if k < locals { HavingOnly(syms, false, n, k); } else { HavingOnly(syms, true, n, k - locals); }
    }
  }

  lemma {:induction false} HavingGrows(syms: seq<Symbol>, global: bool, i: nat, j: nat)
    requires i <= j <= |syms|
    ensures |Having(syms, global, i)| <= |Having(syms, global, j)|
    decreases j
  {
    if i < j { HavingGrows(syms, global, i, j - 1); }
  }

  /** It keeps the order among locals and among globals, and FirstGlobal separates them. */
  lemma {:induction false} RenumberingIsStable(syms: seq<Symbol>, i: nat, j: nat)
    requires i < j < |syms|
    ensures syms[i].isGlobal == syms[j].isGlobal ==> NewIndex(syms, i) < NewIndex(syms, j)
    ensures syms[i].isGlobal <==> NewIndex(syms, i) >= FirstGlobal(syms)
    ensures syms[j].isGlobal <==> NewIndex(syms, j) >= FirstGlobal(syms)
  {
    hide Having;
    if syms[i].isGlobal == syms[j].isGlobal { HavingAt(syms, syms[i].isGlobal, j, i); }
    if !syms[i].isGlobal { HavingAt(syms, false, |syms|, i); }
    if !syms[j].isGlobal { HavingAt(syms, false, |syms|, j); }
  }

  /** A relocation's symbol after renumbering; numbers that name no symbol stay. */
  function Remap(syms: seq<Symbol>, r: Reloc): Reloc
  {
    if 0 < r.sym <= |syms| then r.(sym := NewIndex(syms, r.sym - 1)) else r
  }

  function RemapAll(syms: seq<Symbol>, rs: seq<Reloc>): (t: seq<Reloc>)
    ensures |t| == |rs|
  {
    seq(|rs|, k requires 0 <= k < |rs| => Remap(syms, rs[k]))
  }

  // ----- Strings -----

  /** A name that a C string can hold. */
  predicate IsName(s: string) { forall i :: 0 <= i < |s| ==> 0 < s[i] as int < 256 }

  function Chars(s: string): (b: seq<Byte>)
    requires IsName(s)
    ensures |b| == |s|
  {
    seq(|s|, i requires 0 <= i < |s| && IsName(s) => s[i] as int)
  }

  predicate AreNames(names: seq<string>) { forall i :: 0 <= i < |names| ==> IsName(names[i]) }

  /** A NUL, then each name with a NUL behind it. */
  function Strings(names: seq<string>): (b: seq<Byte>)
    requires AreNames(names)
    ensures |b| >= 1
  {
    if names == [] then [0]
    else
      var n := |names| - 1;
      Strings(names[..n]) + Chars(names[n]) + [0]
  }

  /** The offset of name i. */
  function StringAt(names: seq<string>, i: nat): nat
    requires i <= |names| && AreNames(names)
  {
    |Strings(names[..i])|
  }

  lemma {:induction false} StringSits(names: seq<string>, i: nat)
    requires i < |names| && AreNames(names)
    ensures Sits(Strings(names), StringAt(names, i), Chars(names[i]) + [0])
    decreases |names|
  {
    var n := |names| - 1;
    var front := names[..n];
    var s := Strings(front) + (Chars(names[n]) + [0]);
    assert s == Strings(names);
    if i == n {
      SitsBetween(Strings(front), Chars(names[n]) + [0], []);
      assert s + [] == s;
    } else {
      StringSits(front, i);
      assert front[..i] == names[..i];
      assert Sits(s, 0, Strings(front));
      SitsIn(s, 0, Strings(front), StringAt(names, i), Chars(names[i]) + [0]);
    }
  }

  /** The C string at p; the end of the file reads as NUL. */
  function CString(file: seq<Byte>, p: nat): string
    decreases |file| - p
  {
    if p >= |file| || file[p] == 0 then "" else [file[p] as char] + CString(file, p + 1)
  }

  lemma {:induction false} CStringIs(file: seq<Byte>, p: nat, s: string)
    requires IsName(s) && Sits(file, p, Chars(s) + [0])
    ensures CString(file, p) == s
    decreases |s|
  {
    SitsByte(file, p, Chars(s) + [0], 0);
    if s != "" {
      var t := s[1..];
      assert Chars(s) + [0] == [s[0] as int] + (Chars(t) + [0]);
      SitsParts(file, p, [s[0] as int], Chars(t) + [0]);
      CStringIs(file, p + 1, t);
      assert s == [s[0]] + t;
    }
  }

  // ----- Pieces one after the other -----

  function Flat(ps: seq<seq<Byte>>): seq<Byte>
  {
    if ps == [] then [] else Flat(ps[..|ps| - 1]) + ps[|ps| - 1]
  }

  lemma {:induction false} FlatSits(ps: seq<seq<Byte>>, k: nat)
    requires k < |ps|
    ensures Sits(Flat(ps), |Flat(ps[..k])|, ps[k])
    ensures |Flat(ps[..k + 1])| == |Flat(ps[..k])| + |ps[k]|
    decreases |ps|
  {
    var n := |ps| - 1;
    assert ps[..k + 1][..k] == ps[..k];
    if k == n {
      SitsBetween(Flat(ps[..n]), ps[n], []);
      assert Flat(ps) + [] == Flat(ps);
      assert ps[..k + 1] == ps;
    } else {
      FlatSits(ps[..n], k);
      assert ps[..n][..k] == ps[..k];
      assert Sits(Flat(ps), 0, Flat(ps[..n]));
      SitsIn(Flat(ps), 0, Flat(ps[..n]), |Flat(ps[..k])|, ps[k]);
    }
  }

  predicate Uniform(ps: seq<seq<Byte>>, w: nat) { forall i :: 0 <= i < |ps| ==> |ps[i]| == w }

  /** Records of w bytes each: record k is at w * k. */
  lemma {:induction false} RecordSits(ps: seq<seq<Byte>>, w: nat, k: nat)
    requires Uniform(ps, w) && k <= |ps|
    ensures |Flat(ps[..k])| == w * k && (k < |ps| ==> Sits(Flat(ps), w * k, ps[k]))
    decreases k
  {
    if k < |ps| { FlatSits(ps, k); }
    if k > 0 {
      RecordSits(ps, w, k - 1);
      FlatSits(ps, k - 1);
      assert w * k == w * (k - 1) + w;
    }
  }

  // ----- The written file -----

  const TEXT_AT: nat := 640

  const IDENT: seq<Byte> := [0x7F, 0x45, 0x4C, 0x46, 2, 1, 1, 0, 0, 0, 0, 0, 0, 0, 0, 0]

  const SECTIONS: seq<string> :=
    [".text", ".rela.text", ".data", ".rela.data", ".bss", ".symtab", ".strtab", ".shstrtab"]

  lemma {:induction false} SectionNames()
    ensures AreNames(SECTIONS)
    ensures StringAt(SECTIONS, 0) == 1 && StringAt(SECTIONS, 1) == 7 && StringAt(SECTIONS, 2) == 18 && StringAt(SECTIONS, 3) == 24
    ensures StringAt(SECTIONS, 4) == 35 && StringAt(SECTIONS, 5) == 40 && StringAt(SECTIONS, 6) == 48 && StringAt(SECTIONS, 7) == 56
    ensures |Strings(SECTIONS)| == 66
  {
    hide Strings, StringAt, IsName;
    forall i | 0 <= i < |SECTIONS| ensures IsName(SECTIONS[i]) { SectionIsName(i); }
    StringsStart(SECTIONS);
    NextString(SECTIONS, 0); NextString(SECTIONS, 1); NextString(SECTIONS, 2); NextString(SECTIONS, 3);
    NextString(SECTIONS, 4); NextString(SECTIONS, 5); NextString(SECTIONS, 6); NextString(SECTIONS, 7);
    StringsEnd(SECTIONS);
  }

  lemma {:induction false} StringsStart(names: seq<string>)
    requires AreNames(names)
    ensures StringAt(names, 0) == 1
  {
  }

  lemma {:induction false} StringsEnd(names: seq<string>)
    requires AreNames(names)
    ensures StringAt(names, |names|) == |Strings(names)|
  {
    assert names[..|names|] == names;
  }

  lemma {:induction false} SectionIsName(i: nat)
    requires i < |SECTIONS|
    ensures IsName(SECTIONS[i])
  {
  }

  lemma {:induction false} NextString(names: seq<string>, i: nat)
    requires AreNames(names) && i < |names|
    ensures StringAt(names, i + 1) == StringAt(names, i) + |names[i]| + 1
  {
    assert names[..i + 1][..i] == names[..i];
  }

  function SectionStrings(): (b: seq<Byte>)
    ensures |b| == 66
  {
    SectionNames();
    Strings(SECTIONS)
  }

  /** What the writer may be given: C strings, numbers that fit their fields. */
  predicate Writable(o: Object)
  {
    && o.bss < 0x8000_0000
    && (forall i :: 0 <= i < |o.syms| ==> SymbolFits(o.syms[i]))
    && (forall i :: 0 <= i < |o.relText| ==> RelocFits(o.relText[i]))
    && (forall i :: 0 <= i < |o.relData| ==> RelocFits(o.relData[i]))
  }

  predicate SymbolFits(s: Symbol)
  {
    IsName(s.name) && s.off < 0x8000_0000 && s.size < 0x8000_0000 && s.shndx < 0x1_0000
  }

  predicate RelocFits(r: Reloc)
  {
    && r.off < 0x8000_0000 && r.sym < 0x8000_0000 && r.typ < 0x1_0000_0000
    && -0x8000_0000_0000_0000 <= r.addend < 0x8000_0000_0000_0000
  }

  function Names(syms: seq<Symbol>): (n: seq<string>)
    ensures |n| == |syms|
  {
    seq(|syms|, i requires 0 <= i < |syms| => syms[i].name)
  }

  function Padding(at: nat): seq<Byte> { Zeros(L.AlignUp(at, 8) - at) }

  function SymbolBytes(nameAt: nat, s: Symbol): (b: seq<Byte>)
    ensures |b| == 24
  {
    LE4(nameAt) + [(if s.isGlobal then 16 else 0) + (if s.isFunc then 2 else 0), 0] + LE2(s.shndx) + LE8(s.off) + LE8(s.size)
  }

  function RelocBytes(r: Reloc): (b: seq<Byte>)
    ensures |b| == 24
  {
    LE8(r.off) + LE8(r.sym * 0x1_0000_0000 + r.typ) + LE8(r.addend)
  }

  /** Entry k of the symbol table after the null symbol. */
  function SymbolRow(syms: seq<Symbol>, k: nat): (b: seq<Byte>)
    requires k < |Order(syms)| && AreNames(Names(syms))
    ensures |b| == 24
  {
    SymbolBytes(StringAt(Names(syms), Order(syms)[k]), syms[Order(syms)[k]])
  }

  function SymbolRows(syms: seq<Symbol>): (ps: seq<seq<Byte>>)
    requires AreNames(Names(syms))
    ensures |ps| == |Order(syms)| + 1 && Uniform(ps, 24)
  {
    [Zeros(24)] + seq(|Order(syms)|, k requires 0 <= k < |Order(syms)| && AreNames(Names(syms)) => SymbolRow(syms, k))
  }

  function RelocRows(rs: seq<Reloc>): (ps: seq<seq<Byte>>)
    ensures |ps| == |rs| && Uniform(ps, 24)
  {
    seq(|rs|, k requires 0 <= k < |rs| => RelocBytes(rs[k]))
  }

  function RelText(o: Object): seq<Byte> { Flat(RelocRows(RemapAll(o.syms, o.relText))) }

  function RelData(o: Object): seq<Byte> { Flat(RelocRows(RemapAll(o.syms, o.relData))) }

  datatype Row = Row(name: nat, typ: nat, flags: nat, off: nat, size: nat, link: nat, info: nat, align: nat, entry: nat)

  function RowBytes(r: Row): (b: seq<Byte>)
    ensures |b| == 64
  {
    LE4(r.name) + LE4(r.typ) + LE8(r.flags) + LE8(0) + LE8(r.off) + LE8(r.size) + LE4(r.link) + LE4(r.info)
      + LE8(r.align) + LE8(r.entry)
  }

  datatype Layout = Layout(rel: nat, data: nat, relData: nat, sym: nat, str: nat, shstr: nat)

  /** Where the sections go, from their sizes. */
  function LayoutOf(text: nat, rel: nat, data: nat, relData: nat, sym: nat, str: nat): Layout
  {
    var relAt := L.AlignUp(TEXT_AT + text, 8);
    var dataAt := L.AlignUp(relAt + rel, 8);
    var relDataAt := L.AlignUp(dataAt + data, 8);
    var symAt := L.AlignUp(relDataAt + relData, 8);
    Layout(relAt, dataAt, relDataAt, symAt, symAt + sym, symAt + sym + str)
  }

  function LayoutFor(o: Object): Layout
    requires AreNames(Names(o.syms))
  {
    LayoutOf(|o.text|, 24 * |o.relText|, |o.data|, 24 * |o.relData|, 24 * (|o.syms| + 1), |Strings(Names(o.syms))|)
  }

  /** The section header table after its null entry. */
  function Rows(o: Object): (r: seq<Row>)
    requires AreNames(Names(o.syms))
    ensures |r| == 8
  {
    var a := LayoutFor(o);
    [Row(1, 1, 6, TEXT_AT, |o.text|, 0, 0, 16, 0),
     Row(7, 4, 0, a.rel, 24 * |o.relText|, 6, 1, 8, 24),
     Row(18, 1, 3, a.data, |o.data|, 0, 0, 32, 0),
     Row(24, 4, 0, a.relData, 24 * |o.relData|, 6, 3, 8, 24),
     Row(35, 8, 3, 0, o.bss, 0, 0, 32, 0),
     Row(40, 2, 0, a.sym, 24 * (|o.syms| + 1), 7, FirstGlobal(o.syms), 8, 24),
     Row(48, 3, 0, a.str, |Strings(Names(o.syms))|, 0, 0, 1, 0),
     Row(56, 3, 0, a.shstr, |SectionStrings()|, 0, 0, 1, 0)]
  }

  function RowsBytes(rows: seq<Row>): (ps: seq<seq<Byte>>)
    ensures |ps| == |rows| && Uniform(ps, 64)
  {
    seq(|rows|, i requires 0 <= i < |rows| => RowBytes(rows[i]))
  }

  function Table(o: Object): seq<Byte>
    requires AreNames(Names(o.syms))
  {
    Zeros(64) + Flat(RowsBytes(Rows(o)))
  }

  function Header(): (b: seq<Byte>)
    ensures |b| == 64
  {
    IDENT + LE2(1) + LE2(62) + LE4(1) + Zeros(16) + LE8(64) + Zeros(4) + LE2(64) + LE2(0) + LE2(0) + LE2(64) + LE2(9) + LE2(8)
  }

  /** Everything behind the section header table. */
  function Body(o: Object): (ps: seq<seq<Byte>>)
    requires AreNames(Names(o.syms))
    ensures |ps| == 11
  {
    var a := LayoutFor(o);
    [o.text, Padding(TEXT_AT + |o.text|), RelText(o), Padding(a.rel + 24 * |o.relText|), o.data, Padding(a.data + |o.data|),
     RelData(o), Padding(a.relData + 24 * |o.relData|), Flat(SymbolRows(o.syms)), Strings(Names(o.syms)), SectionStrings()]
  }

  function FileOf(o: Object): seq<Byte>
    requires AreNames(Names(o.syms))
  {
    Header() + Table(o) + Flat(Body(o))
  }

  // ----- Reading -----

  datatype Reading = Read(input: L.Input) | NotElf | Not64Bit | NotRelocatable | NotX86 | Outside

  function SectionCount(file: seq<Byte>): nat
    requires |file| >= 64
  {
    R16(file, 60)
  }

  function TableAt(file: seq<Byte>): nat
    requires |file| >= 64
  {
    R64(file, 40)
  }

  /** The section header table lies inside the file. */
  predicate TableFits(file: seq<Byte>)
  {
    |file| >= 64 && TableAt(file) + 64 * SectionCount(file) <= |file|
  }

  /** The name of section i, through the section that e_shstrndx names. */
  function SectionName(file: seq<Byte>, i: nat): string
    requires TableFits(file) && i < SectionCount(file) && R16(file, 62) < SectionCount(file)
  {
    CString(file, R64(file, TableAt(file) + 64 * R16(file, 62) + 24) + R32(file, TableAt(file) + 64 * i))
  }

  /** The first section from i on that is called target, or -1. */
  function FindFrom(file: seq<Byte>, target: string, i: nat): int
    requires TableFits(file) && R16(file, 62) < SectionCount(file)
    decreases SectionCount(file) - i
  {
    if i >= SectionCount(file) then -1
    else if SectionName(file, i) == target then i
    else FindFrom(file, target, i + 1)
  }

  function FindSection(file: seq<Byte>, target: string): int
    requires TableFits(file)
  {
    if R16(file, 62) >= SectionCount(file) then -1 else FindFrom(file, target, 1)
  }

  /** The search ends at the first section of that name; -1 if there is none. */
  lemma {:induction false} FindIs(file: seq<Byte>, target: string, i: nat)
    requires TableFits(file) && R16(file, 62) < SectionCount(file) && i <= SectionCount(file)
    ensures var k := FindFrom(file, target, i);
      && (k == -1 || (i <= k < SectionCount(file) && SectionName(file, k) == target))
      && forall j :: i <= j < (if k == -1 then SectionCount(file) else k) ==> SectionName(file, j) != target
    decreases SectionCount(file) - i
  {
    hide SectionName;
    if i < SectionCount(file) && SectionName(file, i) != target { FindIs(file, target, i + 1); }
  }

  datatype Place = Place(at: int, size: int)

  /** Offset and size of section i as ints; nothing for -1. */
  function SectionPlace(file: seq<Byte>, i: int): Place
    requires TableFits(file)
  {
    if 0 <= i < SectionCount(file) then
      Place(S32(R64(file, TableAt(file) + 64 * i + 24)), S32(R64(file, TableAt(file) + 64 * i + 32)))
    else Place(0, 0)
  }

  predicate Fits(file: seq<Byte>, p: Place) { 0 <= p.at && 0 <= p.size && p.at + p.size <= |file| }

  function Content(file: seq<Byte>, p: Place): seq<Byte>
    requires Fits(file, p)
  {
    file[p.at..p.at + p.size]
  }

  /** The symbol entry at p, with its name from the string table. */
  function ReadSymbol(file: seq<Byte>, strings: Place, p: nat): L.Sym
    requires Fits(file, strings) && p + 24 <= |file|
  {
    var nameAt := R32(file, p);
    L.Sym(if nameAt >= strings.size then "" else CString(file, strings.at + nameAt),
          file[p + 4] / 16, R16(file, p + 6), R64(file, p + 8))
  }

  function ReadSymbols(file: seq<Byte>, strings: Place, p: Place): (r: seq<L.Sym>)
    requires Fits(file, strings) && Fits(file, p)
    ensures |r| == p.size / 24
  {
    seq(p.size / 24, k requires 0 <= k < p.size / 24 && Fits(file, strings) && Fits(file, p) => ReadSymbol(file, strings, p.at + 24 * k))
  }

  function ReadReloc(file: seq<Byte>, p: nat): L.Rela
    requires p + 24 <= |file|
  {
    var info := R64(file, p + 8);
    L.Rela(R64(file, p), info / 0x1_0000_0000, info % 0x1_0000_0000, S64(R64(file, p + 16)))
  }

  function ReadRelocs(file: seq<Byte>, p: Place): (r: seq<L.Rela>)
    requires Fits(file, p)
    ensures |r| == p.size / 24
  {
    seq(p.size / 24, k requires 0 <= k < p.size / 24 && Fits(file, p) => ReadReloc(file, p.at + 24 * k))
  }

  /** What the linker finds in an object file; Outside when it would read past the end. */
  function ReadObject(file: seq<Byte>): Reading
  {
    if |file| < 64 || file[..4] != IDENT[..4] then NotElf
    else if file[4] != 2 then Not64Bit
    else if R16(file, 16) != 1 then NotRelocatable
    else if R16(file, 18) != 62 then NotX86
    else if !TableFits(file) then Outside
    else
      var text, data, bss := FindSection(file, ".text"), FindSection(file, ".data"), FindSection(file, ".bss");
      var t, d, b := SectionPlace(file, text), SectionPlace(file, data), SectionPlace(file, bss);
      var sy, st := SectionPlace(file, FindSection(file, ".symtab")), SectionPlace(file, FindSection(file, ".strtab"));
      var rt := SectionPlace(file, FindSection(file, ".rela.text"));
      var rd := SectionPlace(file, FindSection(file, ".rela.data"));
      if !Fits(file, t) || !Fits(file, d) || b.size < 0 || !Fits(file, sy) || !Fits(file, st) || !Fits(file, rt) || !Fits(file, rd)
      then Outside
      else Read(L.Input(Content(file, t), Content(file, d), b.size, text, data, bss,
                        ReadSymbols(file, st, sy), ReadRelocs(file, rt), ReadRelocs(file, rd)))
  }

  // ----- Round trip -----

  /** What linking needs of a symbol. */
  function Entry(s: Symbol): L.Sym { L.Sym(s.name, if s.isGlobal then 1 else 0, s.shndx, s.off) }

  function Entries(syms: seq<Symbol>): (r: seq<L.Sym>)
    ensures |r| == |Order(syms)| + 1
  {
    [L.Sym("", 0, 0, 0)] + seq(|Order(syms)|, k requires 0 <= k < |Order(syms)| => Entry(syms[Order(syms)[k]]))
  }

  function Relas(rs: seq<Reloc>): (r: seq<L.Rela>)
    ensures |r| == |rs|
  {
    seq(|rs|, k requires 0 <= k < |rs| => L.Rela(rs[k].off, rs[k].sym, rs[k].typ, rs[k].addend))
  }

  /** The object as the linker sees it. */
  function InputOf(o: Object): L.Input
  {
    L.Input(o.text, o.data, o.bss, 1, 3, 5, Entries(o.syms), Relas(RemapAll(o.syms, o.relText)), Relas(RemapAll(o.syms, o.relData)))
  }

  /** Every relocation still names its symbol. */
  lemma {:induction false} SameSymbol(o: Object, k: nat)
    requires k < |o.relText| && 0 < o.relText[k].sym <= |o.syms|
    ensures var r := InputOf(o).relText[k];
      r.sym < |InputOf(o).syms| && InputOf(o).syms[r.sym] == Entry(o.syms[o.relText[k].sym - 1])
  {
    hide Order, NewIndex;
    Renumbering(o.syms);
  }

  /** The same for the data section. */
  lemma {:induction false} SameDataSymbol(o: Object, k: nat)
    requires k < |o.relData| && 0 < o.relData[k].sym <= |o.syms|
    ensures var r := InputOf(o).relData[k];
      r.sym < |InputOf(o).syms| && InputOf(o).syms[r.sym] == Entry(o.syms[o.relData[k].sym - 1])
  {
    hide Order, NewIndex;
    Renumbering(o.syms);
  }

  /** A relocation reads back. */
  lemma {:induction false} RelocRead(file: seq<Byte>, p: nat, r: Reloc)
    requires Sits(file, p, RelocBytes(r)) && RelocFits(r)
    ensures ReadReloc(file, p) == L.Rela(r.off, r.sym, r.typ, r.addend)
  {
    hide LE8, R64, S64;
    var info := r.sym * 0x1_0000_0000 + r.typ;
    SitsParts(file, p, LE8(r.off) + LE8(info), LE8(r.addend));
    SitsParts(file, p, LE8(r.off), LE8(info));
    Read64(file, p, r.off); Read64(file, p + 8, info); Read64(file, p + 16, r.addend);
    DivModUnique(r.off, 0x1_0000_0000_0000_0000, 0, r.off);
    DivModUnique(info, 0x1_0000_0000_0000_0000, 0, info);
    DivModUnique(info, 0x1_0000_0000, r.sym, r.typ);
    SignedWord(r.addend);
  }

  lemma {:induction false} SignedWord(v: int)
    requires -0x8000_0000_0000_0000 <= v < 0x8000_0000_0000_0000
    ensures S64(v % 0x1_0000_0000_0000_0000) == v
  {
    var u := v % 0x1_0000_0000_0000_0000;
    if v >= 0 {
      DivModUnique(v, 0x1_0000_0000_0000_0000, 0, v);
    } else {
      DivModUnique(v, 0x1_0000_0000_0000_0000, -1, v + 0x1_0000_0000_0000_0000);
    }
    assert U64(u) == u;
  }

  /** A symbol reads back, with the name that stands at its name offset. */
  lemma {:induction false} SymbolRead(file: seq<Byte>, strings: Place, p: nat, nameAt: nat, s: Symbol)
    requires Fits(file, strings) && Sits(file, p, SymbolBytes(nameAt, s)) && SymbolFits(s)
    requires nameAt < strings.size && nameAt < 0x8000_0000 && CString(file, strings.at + nameAt) == s.name
    ensures ReadSymbol(file, strings, p) == Entry(s)
  {
    hide LE8, LE4, LE2, R64, R32, R16, CString;
    var info := (if s.isGlobal then 16 else 0) + (if s.isFunc then 2 else 0);
    SitsParts(file, p, LE4(nameAt) + [info, 0] + LE2(s.shndx) + LE8(s.off), LE8(s.size));
    SitsParts(file, p, LE4(nameAt) + [info, 0] + LE2(s.shndx), LE8(s.off));
    SitsParts(file, p, LE4(nameAt) + [info, 0], LE2(s.shndx));
    SitsParts(file, p, LE4(nameAt), [info, 0]);
    Read32(file, p, nameAt); SitsByte(file, p + 4, [info, 0], 0); Read16(file, p + 6, s.shndx); Read64(file, p + 8, s.off);
    DivModUnique(s.off, 0x1_0000_0000_0000_0000, 0, s.off);
    IsMod32(nameAt); DivModUnique(nameAt, 0x1_0000_0000, 0, nameAt);
  }

  lemma {:induction false} SmallField(v: nat)
    requires v < 0x1_0000_0000
    ensures U32(v) == v
  {
    IsMod32(v);
    DivModUnique(v, 0x1_0000_0000, 0, v);
  }

  /** The fields of a section header that the readers look at. */
  lemma {:induction false} RowRead(file: seq<Byte>, p: nat, r: Row)
    requires Sits(file, p, RowBytes(r)) && r.name < 0x8000_0000 && r.off < 0x8000_0000 && r.size < 0x8000_0000
    requires r.typ < 256 && r.link < 256
    ensures R32(file, p) == r.name && R64(file, p + 24) == r.off && R64(file, p + 32) == r.size
    ensures R32(file, p + 4) == r.typ && R32(file, p + 40) == r.link
  {
    hide LE8, LE4, R64, R32;
    var a := LE4(r.name) + LE4(r.typ) + LE8(r.flags) + LE8(0);
    var b := LE4(r.link) + LE4(r.info) + LE8(r.align) + LE8(r.entry);
    assert RowBytes(r) == a + LE8(r.off) + (LE8(r.size) + b);
    SitsParts(file, p, a + LE8(r.off), LE8(r.size) + b);
    SitsParts(file, p, a, LE8(r.off));
    SitsParts(file, p + 32, LE8(r.size), b);
    SitsParts(file, p, LE4(r.name) + LE4(r.typ) + LE8(r.flags), LE8(0));
    SitsParts(file, p, LE4(r.name) + LE4(r.typ), LE8(r.flags));
    SitsParts(file, p, LE4(r.name), LE4(r.typ));
    assert b == LE4(r.link) + (LE4(r.info) + LE8(r.align) + LE8(r.entry));
    SitsParts(file, p + 40, LE4(r.link), LE4(r.info) + LE8(r.align) + LE8(r.entry));
    Read32(file, p, r.name); Read64(file, p + 24, r.off); Read64(file, p + 32, r.size);
    Read32(file, p + 4, r.typ); Read32(file, p + 40, r.link);
    SmallField(r.name); SmallField(r.typ); SmallField(r.link);
    DivModUnique(r.off, 0x1_0000_0000_0000_0000, 0, r.off);
    DivModUnique(r.size, 0x1_0000_0000_0000_0000, 0, r.size);
  }

  lemma {:induction false} TableSize(o: Object)
    requires AreNames(Names(o.syms))
    ensures |Table(o)| == 576
  {
    hide Rows, RowBytes;
    var ps := RowsBytes(Rows(o));
    RecordSits(ps, 64, 8);
    assert ps[..8] == ps;
  }

  /** Section header k + 1 of the file. */
  lemma {:induction false} RowSits(o: Object, k: nat)
    requires AreNames(Names(o.syms)) && k < 8
    ensures Sits(FileOf(o), 64 + 64 * (k + 1), RowBytes(Rows(o)[k]))
  {
    hide Rows, RowBytes, Header, Body, Flat;
    var ps := RowsBytes(Rows(o));
    RecordSits(ps, 64, k);
    SitsBetween(Zeros(64), Flat(ps), []);
    assert Zeros(64) + Flat(ps) + [] == Table(o);
    SitsIn(Table(o), 64, Flat(ps), 64 * k, ps[k]);
    SitsBetween(Header(), Table(o), Flat(Body(o)));
    SitsIn(FileOf(o), 64, Table(o), 64 + 64 * k, ps[k]);
  }

  /** Part k of the body starts where the parts before it end. */
  lemma {:induction false} BodySits(o: Object, k: nat)
    requires AreNames(Names(o.syms)) && k < 11
    ensures Sits(FileOf(o), TEXT_AT + |Flat(Body(o)[..k])|, Body(o)[k])
    ensures |Flat(Body(o)[..k + 1])| == |Flat(Body(o)[..k])| + |Body(o)[k]|
  {
    hide Header, Body, Flat, Table;
    TableSize(o);
    var b := Flat(Body(o));
    FlatSits(Body(o), k);
    SitsBetween(Header() + Table(o), b, []);
    assert Header() + Table(o) + b + [] == FileOf(o);
    SitsIn(FileOf(o), TEXT_AT, b, |Flat(Body(o)[..k])|, Body(o)[k]);
  }

  lemma {:induction false} RelocSizes(o: Object)
    ensures |RelText(o)| == 24 * |o.relText| && |RelData(o)| == 24 * |o.relData|
  {
    hide RelocBytes, Flat;
    var t, d := RelocRows(RemapAll(o.syms, o.relText)), RelocRows(RemapAll(o.syms, o.relData));
    RecordSits(t, 24, |t|); RecordSits(d, 24, |d|);
    assert t[..|t|] == t && d[..|d|] == d;
  }

  lemma {:induction false} SymbolTableSize(syms: seq<Symbol>)
    requires AreNames(Names(syms))
    ensures |Flat(SymbolRows(syms))| == 24 * (|syms| + 1)
  {
    hide SymbolRow, Flat, Order;
    Renumbering(syms);
    var ps := SymbolRows(syms);
    RecordSits(ps, 24, |ps|);
    assert ps[..|ps|] == ps;
  }

  /** The sections are where the section headers say. */
  lemma {:induction false} Places(o: Object)
    requires AreNames(Names(o.syms))
    ensures var f, a := FileOf(o), LayoutFor(o);
      && Sits(f, TEXT_AT, o.text) && Sits(f, a.rel, RelText(o)) && Sits(f, a.data, o.data) && Sits(f, a.relData, RelData(o))
      && Sits(f, a.sym, Flat(SymbolRows(o.syms))) && Sits(f, a.str, Strings(Names(o.syms))) && Sits(f, a.shstr, SectionStrings())
      && |f| == a.shstr + 66
  {
    hide Header, Flat, Table, Strings, SectionStrings, RelText, RelData, SymbolRows, Sits, FileOf;
    RelocSizes(o);
    SymbolTableSize(o.syms);
    EmptyFlat(Body(o)[..0]);
    BodySits(o, 0); BodySits(o, 1); BodySits(o, 2); BodySits(o, 3); BodySits(o, 4); BodySits(o, 5);
    BodySits(o, 6); BodySits(o, 7); BodySits(o, 8); BodySits(o, 9); BodySits(o, 10);
    FileSize(o);
  }

  lemma {:induction false} EmptyFlat(ps: seq<seq<Byte>>)
    requires ps == []
    ensures Flat(ps) == []
  {
  }

  lemma {:induction false} FileSize(o: Object)
    requires AreNames(Names(o.syms))
    ensures |FileOf(o)| == TEXT_AT + |Flat(Body(o)[..11])|
  {
    hide Header, Flat, Table, Body;
    TableSize(o);
    assert Body(o)[..11] == Body(o);
  }

  /** The file header. */
  lemma {:induction false} HeaderRead(o: Object)
    requires AreNames(Names(o.syms))
    ensures var f := FileOf(o);
      && |f| >= 640 && f[..4] == IDENT[..4] && f[4] == 2 && R16(f, 16) == 1 && R16(f, 18) == 62
      && TableAt(f) == 64 && SectionCount(f) == 9 && R16(f, 62) == 8 && TableFits(f)
  {
    hide LE2, LE4, LE8, R16, R64, Table, Flat, Body, Zeros;
    TableSize(o);
    var f := FileOf(o);
    assert f[..64] == Header();
    var h := IDENT + LE2(1) + LE2(62) + LE4(1) + Zeros(16) + LE8(64) + Zeros(4) + LE2(64) + LE2(0) + LE2(0) + LE2(64);
    assert Sits(f, 0, Header());
    SitsParts(f, 0, h + LE2(9), LE2(8)); SitsParts(f, 0, h, LE2(9));
    HeaderFront(f, LE2(64) + LE2(0) + LE2(0) + LE2(64));
    Read16(f, 62, 8); Read16(f, 60, 9);
  }

  lemma {:induction false} HeaderFront(f: seq<Byte>, rest: seq<Byte>)
    requires Sits(f, 0, IDENT + LE2(1) + LE2(62) + LE4(1) + Zeros(16) + LE8(64) + Zeros(4) + LE2(64) + LE2(0) + LE2(0) + LE2(64))
    ensures f[..4] == IDENT[..4] && f[4] == 2 && R16(f, 16) == 1 && R16(f, 18) == 62 && R64(f, 40) == 64
  {
    hide LE2, LE4, LE8, R16, R64;
    var h := IDENT + LE2(1) + LE2(62) + LE4(1) + Zeros(16);
    SitsParts(f, 0, h + LE8(64) + Zeros(4) + LE2(64) + LE2(0) + LE2(0), LE2(64));
    SitsParts(f, 0, h + LE8(64) + Zeros(4) + LE2(64) + LE2(0), LE2(0));
    SitsParts(f, 0, h + LE8(64) + Zeros(4) + LE2(64), LE2(0));
    SitsParts(f, 0, h + LE8(64) + Zeros(4), LE2(64));
    SitsParts(f, 0, h + LE8(64), Zeros(4));
    SitsParts(f, 0, h, LE8(64));
    SitsParts(f, 0, IDENT + LE2(1) + LE2(62) + LE4(1), Zeros(16));
    SitsParts(f, 0, IDENT + LE2(1) + LE2(62), LE4(1));
    SitsParts(f, 0, IDENT + LE2(1), LE2(62));
    SitsParts(f, 0, IDENT, LE2(1));
    Read16(f, 16, 1); Read16(f, 18, 62); Read64(f, 40, 64);
    SitsByte(f, 0, IDENT, 0); SitsByte(f, 0, IDENT, 1); SitsByte(f, 0, IDENT, 2); SitsByte(f, 0, IDENT, 3); SitsByte(f, 0, IDENT, 4);
  }

  /** What may be written: the file stays below 2^31 bytes. */
  predicate Writes(o: Object)
  {
    Writable(o) && AreNames(Names(o.syms)) && |FileOf(o)| < 0x8000_0000
  }

  /** Section k + 1 has name k of the list and the place that the layout gives it. */
  lemma {:induction false} SectionRead(o: Object, k: nat)
    requires Writes(o) && k < 8
    ensures TableFits(FileOf(o)) && SectionCount(FileOf(o)) == 9 && R16(FileOf(o), 62) == 8
    ensures SectionName(FileOf(o), k + 1) == SECTIONS[k]
    ensures SectionPlace(FileOf(o), k + 1) == Place(Rows(o)[k].off, Rows(o)[k].size)
    ensures TableAt(FileOf(o)) == 64 && R32(FileOf(o), 64 + 64 * (k + 1) + 4) == Rows(o)[k].typ
    ensures R32(FileOf(o), 64 + 64 * (k + 1) + 40) == Rows(o)[k].link
  {
    hide FileOf, Strings, CString, StringAt, R64, R32, R16, Flat, SymbolRows, RelText, RelData, Rows, LayoutFor, Writable, TableAt,
      RowBytes, Sits;
    var f := FileOf(o);
    HeaderRead(o);
    Places(o);
    LastRow(o);
    RowFits(o, k); RowFits(o, 7);
    RowSits(o, k); RowSits(o, 7);
    RowRead(f, 64 + 64 * (k + 1), Rows(o)[k]);
    RowRead(f, 64 + 64 * 8, Rows(o)[7]);
    SmallWord(Rows(o)[k].off); SmallWord(Rows(o)[k].size);
    NameRead(f, LayoutFor(o).shstr, k);
    RowName(o, k);
  }

  lemma {:induction false} LastRow(o: Object)
    requires AreNames(Names(o.syms))
    ensures Rows(o)[7].off == LayoutFor(o).shstr
  {
  }

  lemma {:induction false} SmallWord(v: nat)
    requires v < 0x8000_0000
    ensures S32(v) == v
  {
  }

  lemma {:induction false} RowFits(o: Object, k: nat)
    requires Writes(o) && k < 8
    ensures var r := Rows(o)[k];
      r.name < 0x8000_0000 && r.off < 0x8000_0000 && r.size < 0x8000_0000 && r.typ < 256 && r.link < 256
  {
    hide FileOf, Strings, SectionStrings, Flat, SymbolRows, RelText, RelData;
    Places(o);
  }

  lemma {:induction false} RowName(o: Object, k: nat)
    requires AreNames(Names(o.syms)) && k < 8
    ensures AreNames(SECTIONS) && Rows(o)[k].name == StringAt(SECTIONS, k)
  {
    hide Strings, StringAt, LayoutFor;
    SectionNames();
  }

  lemma {:induction false} NameRead(f: seq<Byte>, at: nat, k: nat)
    requires Sits(f, at, SectionStrings()) && k < 8
    ensures AreNames(SECTIONS) && CString(f, at + StringAt(SECTIONS, k)) == SECTIONS[k]
  {
    hide Strings, CString;
    SectionNames();
    StringSits(SECTIONS, k);
    SitsIn(f, at, SectionStrings(), StringAt(SECTIONS, k), Chars(SECTIONS[k]) + [0]);
    CStringIs(f, at + StringAt(SECTIONS, k), SECTIONS[k]);
  }

  lemma {:induction false} DistinctNames(i: nat, k: nat)
    requires i < k < 8
    ensures SECTIONS[i] != SECTIONS[k]
  {
    if |SECTIONS[i]| == |SECTIONS[k]| {
      if |SECTIONS[i]| == 10 {
        assert SECTIONS[i][6] != SECTIONS[k][6];
      } else {
        assert SECTIONS[i][1] != SECTIONS[k][1] || SECTIONS[i][3] != SECTIONS[k][3];
      }
    }
  }

  /** The search for a section name ends at its section. */
  lemma {:induction false} SectionFound(o: Object, k: nat, i: nat)
    requires Writes(o) && k < 8 && 1 <= i <= k + 1
    ensures TableFits(FileOf(o)) && SectionCount(FileOf(o)) == 9 && R16(FileOf(o), 62) == 8
    ensures FindFrom(FileOf(o), SECTIONS[k], i) == k + 1
    decreases k + 1 - i
  {
    hide FileOf, Writes, TableFits, SectionName, SectionPlace, Rows, SectionCount;
    SectionRead(o, i - 1);
    if i < k + 1 {
      DistinctNames(i - 1, k);
      SectionFound(o, k, i + 1);
    }
  }

  /** What the reader computes for one of the sections. */
  lemma {:induction false} SectionIs(o: Object, k: nat)
    requires Writes(o) && k < 8
    ensures var f := FileOf(o);
      && TableFits(f) && FindSection(f, SECTIONS[k]) == k + 1
      && SectionPlace(f, k + 1) == Place(Rows(o)[k].off, Rows(o)[k].size)
  {
    hide FileOf, Writes, TableFits, FindFrom, SectionPlace, Rows, SectionCount;
    SectionFound(o, k, 1);
    SectionRead(o, k);
  }

  lemma {:induction false} RelocsRead(f: seq<Byte>, at: nat, rs: seq<Reloc>)
    requires Sits(f, at, Flat(RelocRows(rs))) && forall k :: 0 <= k < |rs| ==> RelocFits(rs[k])
    ensures Fits(f, Place(at, 24 * |rs|)) && ReadRelocs(f, Place(at, 24 * |rs|)) == Relas(rs)
  {
    hide Flat, RelocBytes, ReadReloc, RelocFits;
    var ps, p := RelocRows(rs), Place(at, 24 * |rs|);
    RecordSits(ps, 24, |rs|);
    assert ps[..|rs|] == ps;
    assert p.size / 24 == |rs|;
    var r := ReadRelocs(f, p);
    forall k | 0 <= k < |rs| ensures r[k] == Relas(rs)[k] {
      RecordSits(ps, 24, k);
      SitsIn(f, at, Flat(ps), 24 * k, ps[k]);
      RelocRead(f, at + 24 * k, rs[k]);
    }
  }

  /** Renumbering keeps relocations writable. */
  lemma {:induction false} RemapFits(syms: seq<Symbol>, rs: seq<Reloc>)
    requires |syms| < 0x8000_0000 && forall k :: 0 <= k < |rs| ==> RelocFits(rs[k])
    ensures forall k :: 0 <= k < |rs| ==> RelocFits(RemapAll(syms, rs)[k])
  {
    hide NewIndex, Order;
    Renumbering(syms);
  }

  lemma {:induction false} SymbolsRead(f: seq<Byte>, at: nat, strAt: nat, syms: seq<Symbol>)
    requires AreNames(Names(syms)) && forall i :: 0 <= i < |syms| ==> SymbolFits(syms[i])
    requires Sits(f, at, Flat(SymbolRows(syms))) && Sits(f, strAt, Strings(Names(syms))) && |f| < 0x8000_0000
    ensures var p, st := Place(at, 24 * (|syms| + 1)), Place(strAt, |Strings(Names(syms))|);
      Fits(f, p) && Fits(f, st) && ReadSymbols(f, st, p) == Entries(syms)
  {
    hide Flat, SymbolRows, ReadSymbols, SymbolFits, Order, Strings, Entries;
    Renumbering(syms);
    SymbolTableSize(syms);
    var p, st := Place(at, 24 * (|syms| + 1)), Place(strAt, |Strings(Names(syms))|);
    var r := ReadSymbols(f, st, p);
    forall k | 0 <= k < |syms| + 1 ensures r[k] == Entries(syms)[k] {
      RowOfSymbols(f, at, st, syms, k);
    }
  }

  lemma {:induction false} RowOfSymbols(f: seq<Byte>, at: nat, st: Place, syms: seq<Symbol>, k: nat)
    requires AreNames(Names(syms)) && (forall i :: 0 <= i < |syms| ==> SymbolFits(syms[i])) && |f| < 0x8000_0000
    requires Sits(f, at, Flat(SymbolRows(syms))) && st.at >= 0 && Sits(f, st.at, Strings(Names(syms)))
    requires k < |syms| + 1 && st.size == |Strings(Names(syms))|
    ensures var p := Place(at, 24 * (|syms| + 1));
      Fits(f, p) && Fits(f, st) && k < |Entries(syms)| && k < |ReadSymbols(f, st, p)| && ReadSymbols(f, st, p)[k] == Entries(syms)[k]
  {
    hide Flat, SymbolRow, ReadSymbol, SymbolFits, Order, Strings, Entry, SymbolRows, Entries, ReadSymbols, Names;
    SymbolCount(syms);
    SymbolTableSize(syms);
    var ps, p := SymbolRows(syms), Place(at, 24 * (|syms| + 1));
    RecordSits(ps, 24, k);
    SitsIn(f, at, Flat(ps), 24 * k, ps[k]);
    RowKinds(syms, k);
    assert ReadSymbols(f, st, p)[k] == ReadSymbol(f, st, at + 24 * k) by { ReadAt(f, st, p, k); }
    FirstByte(f, st.at, Names(syms));
    if k == 0 { NullRead(f, st, at); } else { OneSymbolRead(f, st, at + 24 * k, syms, k - 1); }
  }

  lemma {:induction false} SymbolCount(syms: seq<Symbol>)
    ensures |Order(syms)| == |syms|
  {
    Renumbering(syms);
  }

  lemma {:induction false} RowKinds(syms: seq<Symbol>, k: nat)
    requires AreNames(Names(syms)) && k < |Order(syms)| + 1
    ensures SymbolRows(syms)[k] == if k == 0 then Zeros(24) else SymbolRow(syms, k - 1)
    ensures Entries(syms)[k] == if k == 0 then L.Sym("", 0, 0, 0) else Entry(syms[Order(syms)[k - 1]])
  {
    hide SymbolRow, Order, Entry, Zeros;
  }

  lemma {:induction false} ReadAt(f: seq<Byte>, st: Place, p: Place, k: nat)
    requires Fits(f, st) && Fits(f, p) && k < p.size / 24
    ensures p.at + 24 * k + 24 <= |f| && ReadSymbols(f, st, p)[k] == ReadSymbol(f, st, p.at + 24 * k)
  {
    hide ReadSymbol;
  }

  lemma {:induction false} OneSymbolRead(f: seq<Byte>, st: Place, p: nat, syms: seq<Symbol>, k: nat)
    requires AreNames(Names(syms)) && k < |Order(syms)| && SymbolFits(syms[Order(syms)[k]]) && |f| < 0x8000_0000
    requires Sits(f, p, SymbolRow(syms, k)) && st.at >= 0 && Sits(f, st.at, Strings(Names(syms))) && st.size == |Strings(Names(syms))|
    ensures Fits(f, st) && ReadSymbol(f, st, p) == Entry(syms[Order(syms)[k]])
  {
    hide ReadSymbol, SymbolBytes, Strings, CString, Order;
    var i := Order(syms)[k];
    StringSits(Names(syms), i);
    SitsIn(f, st.at, Strings(Names(syms)), StringAt(Names(syms), i), Chars(Names(syms)[i]) + [0]);
    CStringIs(f, st.at + StringAt(Names(syms), i), Names(syms)[i]);
    SymbolRead(f, st, p, StringAt(Names(syms), i), syms[i]);
  }

  /** The null symbol. */
  lemma {:induction false} NullRead(f: seq<Byte>, st: Place, p: nat)
    requires Fits(f, st) && Sits(f, p, Zeros(24)) && st.size > 0 && st.at < |f| && f[st.at] == 0
    ensures ReadSymbol(f, st, p) == L.Sym("", 0, 0, 0)
  {
    hide CString, R16, R64, R32;
    ZeroField(f, p, 0); ZeroField(f, p, 4); ZeroField(f, p, 8); ZeroField(f, p, 12);
    Word64Zero(f, p + 8);
    Half16Zero(f, p + 6);
    assert CString(f, st.at + 0) == "" by { EmptyString(f, st.at); }
  }

  lemma {:induction false} ZeroField(f: seq<Byte>, p: nat, i: nat)
    requires Sits(f, p, Zeros(24)) && i + 4 <= 24
    ensures R32(f, p + i) == 0 && f[p + i] == 0 && f[p + i + 2] == 0 && f[p + i + 3] == 0
  {
    hide Zeros;
    SitsByte(f, p, Zeros(24), i); SitsByte(f, p, Zeros(24), i + 1); SitsByte(f, p, Zeros(24), i + 2); SitsByte(f, p, Zeros(24), i + 3);
    assert p + (i + 1) == p + i + 1 && p + (i + 2) == p + i + 2 && p + (i + 3) == p + i + 3;
  }

  lemma {:induction false} Word64Zero(f: seq<Byte>, p: nat)
    requires p + 8 <= |f| && R32(f, p) == 0 && R32(f, p + 4) == 0
    ensures R64(f, p) == 0
  {
  }

  lemma {:induction false} Half16Zero(f: seq<Byte>, p: nat)
    requires p + 2 <= |f| && f[p] == 0 && f[p + 1] == 0
    ensures R16(f, p) == 0
  {
  }

  lemma {:induction false} EmptyString(f: seq<Byte>, p: nat)
    requires p < |f| && f[p] == 0
    ensures CString(f, p) == ""
  {
  }

  lemma {:induction false} FirstByte(f: seq<Byte>, at: nat, names: seq<string>)
    requires AreNames(names) && Sits(f, at, Strings(names))
    ensures f[at] == 0
    decreases |names|
  {
    if names == [] {
      SitsByte(f, at, [0], 0);
    } else {
      var n := |names| - 1;
      SitsParts(f, at, Strings(names[..n]) + Chars(names[n]), [0]);
      SitsParts(f, at, Strings(names[..n]), Chars(names[n]));
      FirstByte(f, at, names[..n]);
    }
  }

  /** Writing and reading back loses nothing but the layout. */
  lemma {:induction false} RoundTrip(o: Object)
    requires Writes(o)
    ensures ReadObject(FileOf(o)) == Read(InputOf(o))
  {
    hide FileOf, Flat, Strings, Order, TableFits, FindSection, SectionPlace, RelocFits, SymbolFits, SymbolRows, NewIndex,
      Content, ReadSymbols, ReadRelocs, Entries, Relas, R16;
    var f, a := FileOf(o), LayoutFor(o);
    HeaderRead(o);
    Places(o);
    SectionIs(o, 0); SectionIs(o, 1); SectionIs(o, 2); SectionIs(o, 3); SectionIs(o, 4); SectionIs(o, 5); SectionIs(o, 6);
    RemapFits(o.syms, o.relText); RemapFits(o.syms, o.relData);
    RelocsRead(f, a.rel, RemapAll(o.syms, o.relText));
    RelocsRead(f, a.relData, RemapAll(o.syms, o.relData));
    SymbolsRead(f, a.sym, a.str, o.syms);
    ContentIs(f, TEXT_AT, o.text); ContentIs(f, a.data, o.data);
  }

  // ----- What the headers point at -----

  /** sh_info of section k + 1. */
  lemma {:induction false} InfoRead(o: Object, k: nat)
    requires Writes(o) && k < 8 && Rows(o)[k].info < 0x1_0000_0000
    ensures var p := 64 + 64 * (k + 1); p + 64 <= |FileOf(o)| && R32(FileOf(o), p + 44) == Rows(o)[k].info
  {
    hide LE8, LE4, R32, Rows, FileOf, Writable;
    var f, p, r := FileOf(o), 64 + 64 * (k + 1), Rows(o)[k];
    RowSits(o, k);
    var a := LE4(r.name) + LE4(r.typ) + LE8(r.flags) + LE8(0) + LE8(r.off) + LE8(r.size) + LE4(r.link);
    assert RowBytes(r) == a + (LE4(r.info) + (LE8(r.align) + LE8(r.entry)));
    SitsParts(f, p, a, LE4(r.info) + (LE8(r.align) + LE8(r.entry)));
    SitsParts(f, p + 44, LE4(r.info), LE8(r.align) + LE8(r.entry));
    Read32(f, p + 44, r.info);
    SmallField(r.info);
  }

  lemma {:induction false} EntryCount(syms: seq<Symbol>)
    ensures |Entries(syms)| == |syms| + 1
  {
    hide Having;
    HavingAll(syms, |syms|);
  }

  lemma {:induction false} BindAt(syms: seq<Symbol>, k: nat)
    requires 0 < k <= |syms|
    ensures |Entries(syms)| == |syms| + 1 && (Entries(syms)[k].bind == 0 <==> k < FirstGlobal(syms))
  {
    hide Having;
    var locals := |Having(syms, false, |syms|)|;
    HavingAll(syms, |syms|);
    if k - 1 < locals { HavingOnly(syms, false, |syms|, k - 1); } else { HavingOnly(syms, true, |syms|, k - 1 - locals); }
  }

  lemma {:induction false} InfoFits(o: Object)
    requires Writes(o)
    ensures Rows(o)[5].info == FirstGlobal(o.syms) && Rows(o)[5].info < 0x1_0000_0000
    ensures Rows(o)[7].info == 0 && Rows(o)[1].info == 1 && Rows(o)[3].info == 3 && Rows(o)[1].link == 6 && Rows(o)[3].link == 6 && Rows(o)[5].link == 7
  {
    hide FileOf, Strings, Flat, SymbolRows, RelText, RelData, Having;
    Places(o);
    HavingAll(o.syms, |o.syms|);
  }

  /** What the file says about itself agrees with what is read from it: sh_info of .symtab is
      one past the last local symbol, sh_info of a relocation section is the section that it
      relocates, and sh_link leads to the symbol table and to its names. */
  lemma {:induction false} HeadersAgree(o: Object)
    requires Writes(o)
    ensures var f := FileOf(o);
      && TableFits(f) && TableAt(f) == 64 && |f| >= 640 && FindSection(f, ".symtab") == 6
      && R32(f, 64 + 64 * 6 + 44) == FirstGlobal(o.syms)
      && ReadObject(f).Read? && |ReadObject(f).input.syms| == |o.syms| + 1
      && forall k :: 0 < k <= |o.syms| ==> (ReadObject(f).input.syms[k].bind == 0 <==> k < R32(f, 64 + 64 * 6 + 44))
    ensures var f := FileOf(o);
      && R32(f, 64 + 64 * 2 + 44) == FindSection(f, ".text") && R32(f, 64 + 64 * 4 + 44) == FindSection(f, ".data")
      && R32(f, 64 + 64 * 2 + 40) == FindSection(f, ".symtab") && R32(f, 64 + 64 * 4 + 40) == FindSection(f, ".symtab")
      && R32(f, 64 + 64 * 6 + 40) == FindSection(f, ".strtab")
  {
    hide FileOf, TableFits, FindSection, ReadObject, R32, Rows, Entries, FirstGlobal, TableAt, Writes, SectionCount, SectionName, SectionPlace;
    RoundTrip(o);
    InfoFits(o);
    InfoRead(o, 5); InfoRead(o, 1); InfoRead(o, 3);
    SectionRead(o, 5); SectionRead(o, 1); SectionRead(o, 3);
    InfoRead(o, 7);
    SectionIs(o, 0); SectionIs(o, 2); SectionIs(o, 5); SectionIs(o, 6);
    assert SECTIONS[0] == ".text" && SECTIONS[2] == ".data" && SECTIONS[5] == ".symtab" && SECTIONS[6] == ".strtab";
    forall k | 0 < k <= |o.syms| ensures |Entries(o.syms)| == |o.syms| + 1 && (Entries(o.syms)[k].bind == 0 <==> k < FirstGlobal(o.syms)) {
      BindAt(o.syms, k);
    }
    EntryCount(o.syms);
  }

  lemma {:induction false} ContentIs(f: seq<Byte>, at: nat, b: seq<Byte>)
    requires Sits(f, at, b)
    ensures Fits(f, Place(at, |b|)) && Content(f, Place(at, |b|)) == b
  {
  }
}
