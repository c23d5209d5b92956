/** What the section headers and the symbols of an object file say, read from its bytes at
    the places and with the meanings that chapter 4 of the System V gABI gives them. */
module ObjectHeaders {
  import opened Bytes
  import opened Words
  import opened ObjectFile
  import L = Linking

  // ----- Symbols -----

  /** A written symbol: its name, binding (1 global, 0 local) and type (2 function, 0 none),
      section, offset and size. */
  lemma {:induction false} SymbolSays(nameAt: nat, s: Symbol)
    requires nameAt < 0x8000_0000 && s.off < 0x8000_0000 && s.size < 0x8000_0000 && s.shndx < 0x1_0000
    ensures var b := SymbolBytes(nameAt, s);
      && R32(b, 0) == nameAt && b[4] / 16 == (if s.isGlobal then 1 else 0) && b[4] % 16 == (if s.isFunc then 2 else 0) && b[5] == 0
      && R16(b, 6) == s.shndx && R64(b, 8) == s.off && R64(b, 16) == s.size
  {
    hide LE8, LE4, LE2, R64, R32, R16;
    var info := (if s.isGlobal then 16 else 0) + (if s.isFunc then 2 else 0);
    var b := SymbolBytes(nameAt, s);
    assert Sits(b, 0, b);
    SitsParts(b, 0, LE4(nameAt) + [info, 0] + LE2(s.shndx) + LE8(s.off), LE8(s.size));
    SitsParts(b, 0, LE4(nameAt) + [info, 0] + LE2(s.shndx), LE8(s.off));
    SitsParts(b, 0, LE4(nameAt) + [info, 0], LE2(s.shndx));
    SitsParts(b, 0, LE4(nameAt), [info, 0]);
    Read32(b, 0, nameAt); Read16(b, 6, s.shndx); Read64(b, 8, s.off); Read64(b, 16, s.size);
    SitsByte(b, 4, [info, 0], 0); SitsByte(b, 4, [info, 0], 1);
    SmallField(nameAt);
    Small64(s.off); Small64(s.size);
  }

  lemma {:induction false} Small64(v: nat)
    requires v < 0x8000_0000
    ensures v % 0x1_0000_0000_0000_0000 == v
  {
    DivModUnique(v, 0x1_0000_0000_0000_0000, 0, v);
  }

  // ----- Sections -----

  /** The type and the flags of a section, by the table of special sections of the gABI:
      1 is program text or data, 8 takes no space in the file, 4 is relocations, 2 symbols,
      3 strings; flag 1 is writable, 2 takes memory, 4 executable. */
  predicate Special(name: string, typ: int, flags: int)
  {
    match name
    case ".text" => typ == 1 && flags == 2 + 4
    case ".data" => typ == 1 && flags == 2 + 1
    case ".bss" => typ == 8 && flags == 2 + 1
    case ".rela.text" => typ == 4 && flags == 0
    case ".rela.data" => typ == 4 && flags == 0
    case ".symtab" => typ == 2 && flags == 0
    case ".strtab" => typ == 3 && flags == 0
    case ".shstrtab" => typ == 3 && flags == 0
    case _ => false
  }

  /** The fields of a row that RowRead leaves out. */
  lemma {:induction false} MoreOfRow(file: seq<Byte>, p: nat, r: Row)
    requires Sits(file, p, RowBytes(r)) && r.flags < 256 && r.align < 256 && r.entry < 256
    ensures R64(file, p + 8) == r.flags && R64(file, p + 16) == 0 && R64(file, p + 48) == r.align && R64(file, p + 56) == r.entry
  {
    hide LE8, LE4, R64;
    var a, m := LE4(r.name) + LE4(r.typ), LE8(r.off) + LE8(r.size) + LE4(r.link) + LE4(r.info);
    var z := LE8(r.align) + LE8(r.entry);
    var front := a + LE8(r.flags) + LE8(0);
    assert RowBytes(r) == front + (m + z);
    SitsParts(file, p, front, m + z);
    SitsParts(file, p, a + LE8(r.flags), LE8(0));
    SitsParts(file, p, a, LE8(r.flags));
    SitsParts(file, p + 32 - 8, m, z);
    SitsParts(file, p + 48, LE8(r.align), LE8(r.entry));
    Read64(file, p + 8, r.flags); Read64(file, p + 16, 0); Read64(file, p + 48, r.align); Read64(file, p + 56, r.entry);
    Small64(r.flags); Small64(0); Small64(r.align); Small64(r.entry);
  }

  /** Section k + 1 is of the kind of its name, has no address, takes whole entries, and
      begins at a multiple of eight bytes if it holds entries. */
  predicate Says(f: seq<Byte>, k: nat)
    requires k < 8 && 64 * (k + 3) <= |f|
  {
    var p := 64 * (k + 2);
    && Special(SECTIONS[k], R32(f, p + 4), R64(f, p + 8)) && R64(f, p + 16) == 0
    && (R32(f, p + 4) == 2 || R32(f, p + 4) == 4 ==> R64(f, p + 56) == 24 && R64(f, p + 32) % 24 == 0 && R64(f, p + 24) % 8 == 0)
  }

  lemma {:induction false} SectionsSay(o: Object, k: nat)
    requires Writes(o) && k < 8
    ensures 64 * (k + 3) <= |FileOf(o)| && Says(FileOf(o), k)
  {
    hide FileOf, LE8, LE4, R64, R32, Rows, TableFits, Strings, SectionPlace, SectionCount, TableAt, Writable, RowBytes, Special;
    var f := FileOf(o);
    HeaderRead(o);
    RowFits(o, k);
    RowSits(o, k);
    RowKinds(o, k);
    RowRead(f, 64 * (k + 2), Rows(o)[k]);
    MoreOfRow(f, 64 * (k + 2), Rows(o)[k]);
  }

  lemma {:induction false} RowKinds(o: Object, k: nat)
    requires AreNames(Names(o.syms)) && k < 8
    ensures var r := Rows(o)[k];
      && Special(SECTIONS[k], r.typ, r.flags) && r.flags < 256 && r.align < 256 && r.entry < 256
      && (r.typ == 2 || r.typ == 4 ==> r.entry == 24 && r.size % 24 == 0 && r.off % 8 == 0)
  {
    hide Strings, LayoutOf, LayoutFor, SectionStrings, FirstGlobal;
    EntriesFit(o);
    var rs := Rows(o);
    assert rs[0].typ == 1 && rs[1].typ == 4 && rs[2].typ == 1 && rs[3].typ == 4;
    assert rs[4].typ == 8 && rs[5].typ == 2 && rs[6].typ == 3 && rs[7].typ == 3;
  }

  lemma {:induction false} EntriesFit(o: Object)
    requires AreNames(Names(o.syms))
    ensures var a := LayoutFor(o); a.rel % 8 == 0 && a.data % 8 == 0 && a.relData % 8 == 0 && a.sym % 8 == 0
    ensures (24 * |o.relText|) % 24 == 0 && (24 * |o.relData|) % 24 == 0 && (24 * (|o.syms| + 1)) % 24 == 0
  {
    hide Strings;
  }
}
