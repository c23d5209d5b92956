/** The object file writer: one buffer with a running index, symbols renumbered and
    relocations rewritten in place on the way, section headers patched at the end. */
module ObjectWriter {
  import opened Bytes
  import opened Words
  import opened ObjectFile
  import L = Linking

  /** A section header whose fields are written as bytes and int words. */
  predicate SmallRow(r: Row, wide: bool)
  {
    && r.name < 256 && r.typ < 256 && r.flags < 256 && r.align < 256 && r.entry < 256 && r.link < 256
    && r.off < 0x8000_0000 && r.size < 0x8000_0000 && r.info < if wide then 0x8000_0000 else 256
  }

  /** A NUL, then the names; at[i] is where name i went. */
  method BuildStrings(names: seq<string>) returns (b: seq<Byte>, at: seq<nat>)
    requires AreNames(names)
    ensures b == Strings(names) && |at| == |names| && forall i :: 0 <= i < |names| ==> at[i] == StringAt(names, i)
  {
    hide Strings;
    b, at := [0], [];
    var i := 0;
    NoStrings(names);
    while i < |names|
      invariant 0 <= i <= |names| && b == Strings(names[..i]) && |at| == i
      invariant forall k :: 0 <= k < i ==> at[k] == StringAt(names, k)
    {
      at := at + [|b|];
      b := b + Chars(names[i]) + [0];
      OneString(names, i);
      i := i + 1;
    }
    assert names[..i] == names;
  }

  lemma {:induction false} NoStrings(names: seq<string>)
    requires AreNames(names)
    ensures Strings(names[..0]) == [0]
  {
  }

  lemma {:induction false} OneString(names: seq<string>, i: nat)
    requires AreNames(names) && i < |names|
    ensures Strings(names[..i + 1]) == Strings(names[..i]) + Chars(names[i]) + [0]
  {
    assert names[..i + 1][..i] == names[..i];
  }

  lemma {:induction false} FlatSnoc(ps: seq<seq<Byte>>, b: seq<Byte>)
    ensures Flat(ps + [b]) == Flat(ps) + b
  {
    assert (ps + [b])[..|ps|] == ps;
  }

  /** The entries of the symbols with these numbers. */
  function EntryRows(syms: seq<Symbol>, idx: seq<nat>): (ps: seq<seq<Byte>>)
    requires AreNames(Names(syms)) && forall k :: 0 <= k < |idx| ==> idx[k] < |syms|
    ensures |ps| == |idx|
  {
    seq(|idx|, k requires 0 <= k < |idx| && AreNames(Names(syms)) && idx[k] < |syms| =>
      SymbolBytes(StringAt(Names(syms), idx[k]), syms[idx[k]]))
  }

  lemma {:induction false} TableRows(syms: seq<Symbol>)
    requires AreNames(Names(syms))
    ensures SymbolRows(syms)
      == [Zeros(24)] + EntryRows(syms, Having(syms, false, |syms|)) + EntryRows(syms, Having(syms, true, |syms|))
  {
    hide SymbolBytes, Strings, StringAt, Having;
  }

  lemma {:induction false} MoreRows(syms: seq<Symbol>, global: bool, i: nat)
    requires AreNames(Names(syms)) && i < |syms|
    ensures EntryRows(syms, Having(syms, global, i + 1)) == EntryRows(syms, Having(syms, global, i))
      + if syms[i].isGlobal == global then [SymbolBytes(StringAt(Names(syms), i), syms[i])] else []
  {
    hide SymbolBytes, Strings, StringAt;
  }

  /** The bytes of base with the first section headers already in place. */
  function Patched(base: seq<Byte>, h: seq<Byte>): (r: seq<Byte>)
    requires |base| >= TEXT_AT && |h| <= 576
    ensures |r| == |base|
  {
    WriteAt(base, 64, h + Zeros(576 - |h|))
  }

  /** A field of a section header, whose other bytes are zero already. */
  lemma {:induction false} FieldPatched(base: seq<Byte>, h: seq<Byte>, b: seq<Byte>, pad: nat)
    requires |base| >= TEXT_AT && |h| + |b| + pad <= 576
    ensures WriteAt(Patched(base, h), 64 + |h|, b) == Patched(base, h + (b + Zeros(pad)))
  {
    var n := 576 - |h|;
    var r := WriteAt(Patched(base, h), 64 + |h|, b);
    var q := Patched(base, h + (b + Zeros(pad)));
    assert Patched(base, h) == base[..64] + h + Zeros(n) + base[640..];
    assert q == base[..64] + h + b + Zeros(pad) + Zeros(n - |b| - pad) + base[640..];
    assert r == base[..64] + h + b + Zeros(n - |b|) + base[640..];
    assert Zeros(pad) + Zeros(n - |b| - pad) == Zeros(n - |b|);
  }

  lemma {:induction false} SmallFields(v: nat)
    requires v < 256
    ensures [v as Byte] + Zeros(3) == LE4(v) && [v as Byte] + Zeros(7) == LE8(v)
  {
  }

  lemma {:induction false} WordField(v: nat)
    requires v < 0x1_0000_0000
    ensures LE4(v) + Zeros(0) == LE4(v) && LE4(v) + Zeros(4) == LE8(v)
  {
  }

  class ObjectWriter {
    const text: seq<Byte>
    const data: seq<Byte>
    const bss: nat
    const syms: seq<Symbol>
    /** The numbers given to the symbols. */
    const symIdx: array<nat>
    const relText: array<Reloc>
    const relData: array<Reloc>
    const buf: array<Byte>
    var p: nat

    constructor (text: seq<Byte>, data: seq<Byte>, bss: nat, syms: seq<Symbol>, relText: array<Reloc>, relData: array<Reloc>)
      ensures this.text == text && this.data == data && this.bss == bss && this.syms == syms
      ensures this.relText == relText && this.relData == relData
      ensures fresh(buf) && fresh(symIdx) && buf.Length == 262144 && symIdx.Length == |syms|
    {
      this.text, this.data, this.bss, this.syms := text, data, bss, syms;
      this.relText, this.relData := relText, relData;
      symIdx := new nat[|syms|];
      buf := new Byte[262144];
      p := 0;
    }

    /** The object that waits to be written. */
    ghost function Pending(): Object
      reads relText, relData
    {
      Object(text, data, bss, syms, relText[..], relData[..])
    }

    // ----- The buffer -----

    method Emit(b: seq<Byte>)
      requires p + |b| <= buf.Length
      modifies buf, `p
      ensures p == old(p) + |b| && buf[..p] == old(buf[..p]) + b
    {
      ghost var was, before := p, buf[..p];
      var j := 0;
      while j < |b|
        invariant 0 <= j <= |b| && p == was + j && buf[..p] == before + b[..j]
      {
        buf[p] := b[j];
        p := p + 1;
        j := j + 1;
        assert buf[..p] == before + b[..j];
      }
      assert b[..j] == b;
    }

    /** Zeros up to an offset. */
    method PadTo(at: nat)
      requires p <= at <= buf.Length
      modifies buf, `p
      ensures p == at && buf[..p] == old(buf[..p]) + Zeros(at - old(p))
    {
      ghost var was, before := p, buf[..p];
      while p < at
        invariant was <= p <= at && buf[..p] == before + Zeros(p - was)
      {
        buf[p] := 0;
        p := p + 1;
        assert buf[..p] == before + Zeros(p - was);
      }
    }

    // ----- Symbols and relocations -----

    /** Numbers the symbols: locals first. */
    method Renumber()
      requires symIdx.Length == |syms|
      modifies symIdx
      ensures forall i :: 0 <= i < |syms| ==> symIdx[i] == NewIndex(syms, i)
    {
      hide NewIndex;
      var next := 1;
      var i := 0;
      while i < |syms|
        invariant 0 <= i <= |syms| && next == 1 + |Having(syms, false, i)|
        invariant forall k :: 0 <= k < i && !syms[k].isGlobal ==> symIdx[k] == NewIndex(syms, k)
      {
        NumberOf(i);
        if !syms[i].isGlobal {
          symIdx[i] := next;
          next := next + 1;
        }
        i := i + 1;
      }
      i := 0;
      while i < |syms|
        invariant 0 <= i <= |syms| && next == 1 + |Having(syms, false, |syms|)| + |Having(syms, true, i)|
        invariant forall k :: 0 <= k < |syms| && (k < i || !syms[k].isGlobal) ==> symIdx[k] == NewIndex(syms, k)
      {
        NumberOf(i);
        if syms[i].isGlobal {
          symIdx[i] := next;
          next := next + 1;
        }
        i := i + 1;
      }
    }

    lemma {:induction false} NumberOf(i: nat)
      requires i < |syms|
      ensures NewIndex(syms, i) == if syms[i].isGlobal then 1 + |Having(syms, false, |syms|)| + |Having(syms, true, i)|
                                   else 1 + |Having(syms, false, i)|
    {
    }

    /** Rewrites the symbol numbers of the relocations in place. */
    method RemapRelocs(rels: array<Reloc>)
      requires symIdx.Length == |syms| && forall i :: 0 <= i < |syms| ==> symIdx[i] == NewIndex(syms, i)
      modifies rels
      ensures rels[..] == RemapAll(syms, old(rels[..]))
    {
      hide NewIndex;
      var k := 0;
      while k < rels.Length
        invariant 0 <= k <= rels.Length
        invariant forall j :: 0 <= j < rels.Length ==> rels[j] == if j < k then Remap(syms, old(rels[j])) else old(rels[j])
      {
        var r := rels[k];
        if r.sym > 0 && r.sym - 1 < |syms| {
          rels[k] := r.(sym := symIdx[r.sym - 1]);
        }
        k := k + 1;
      }
    }

    method WriteRelocs(rels: array<Reloc>)
      requires p + 24 * rels.Length <= buf.Length
      modifies buf, `p
      ensures p == old(p) + 24 * rels.Length && buf[..p] == old(buf[..p]) + Flat(RelocRows(rels[..]))
    {
      hide Flat, RelocBytes;
      ghost var was, before, rs := p, buf[..p], rels[..];
      var k := 0;
      assert RelocRows(rs[..0]) == [];
      EmptyFlat(RelocRows(rs[..0]));
      while k < rels.Length
        invariant 0 <= k <= rels.Length && rels[..] == rs && p == was + 24 * k
        invariant buf[..p] == before + Flat(RelocRows(rs[..k]))
      {
        ghost var written := Flat(RelocRows(rs[..k]));
        Emit(RelocBytes(rels[k]));
        assert RelocRows(rs[..k + 1]) == RelocRows(rs[..k]) + [RelocBytes(rs[k])];
        FlatSnoc(RelocRows(rs[..k]), RelocBytes(rs[k]));
        assert buf[..p] == before + (written + RelocBytes(rs[k]));
        k := k + 1;
      }
      assert rs[..k] == rs;
    }

    /** The entries of the local or of the global symbols. */
    method WriteSymbols(global: bool, at: seq<nat>, ghost front: seq<seq<Byte>>, ghost before: seq<Byte>) returns (count: nat)
      requires AreNames(Names(syms)) && |at| == |syms| && forall i :: 0 <= i < |syms| ==> at[i] == StringAt(Names(syms), i)
      requires p + 24 * |Having(syms, global, |syms|)| <= buf.Length && buf[..p] == before + Flat(front)
      modifies buf, `p
      ensures count == |Having(syms, global, |syms|)| && p == old(p) + 24 * count
      ensures buf[..p] == before + Flat(front + EntryRows(syms, Having(syms, global, |syms|)))
    {
      hide Flat, SymbolBytes, Having, EntryRows, StringAt;
      ghost var was := p;
      var i := 0;
      count := 0;
      NoneYet(global);
      assert front + [] == front;
      while i < |syms|
        invariant 0 <= i <= |syms| && count == |Having(syms, global, i)| && p == was + 24 * count <= buf.Length
        invariant buf[..p] == before + Flat(front + EntryRows(syms, Having(syms, global, i)))
      {
        OneMore(global, i);
        ghost var rows := front + EntryRows(syms, Having(syms, global, i));
        if syms[i].isGlobal == global {
          var b := SymbolBytes(at[i], syms[i]);
          Emit(b);
          count := count + 1;
          FlatSnoc(rows, b);
          assert before + Flat(rows) + b == before + (Flat(rows) + b);
          assert rows + [b] == front + EntryRows(syms, Having(syms, global, i + 1));
        } else {
          assert EntryRows(syms, Having(syms, global, i)) + [] == EntryRows(syms, Having(syms, global, i));
        }
        i := i + 1;
      }
    }

    lemma {:induction false} NoneYet(global: bool)
      requires AreNames(Names(syms))
      ensures Having(syms, global, 0) == [] && EntryRows(syms, Having(syms, global, 0)) == []
    {
    }

    lemma {:induction false} OneMore(global: bool, i: nat)
      requires AreNames(Names(syms)) && i < |syms|
      ensures EntryRows(syms, Having(syms, global, i + 1)) == EntryRows(syms, Having(syms, global, i))
        + if syms[i].isGlobal == global then [SymbolBytes(StringAt(Names(syms), i), syms[i])] else []
      ensures |Having(syms, global, i + 1)| == |Having(syms, global, i)| + if syms[i].isGlobal == global then 1 else 0
      ensures |Having(syms, global, i + 1)| <= |Having(syms, global, |syms|)|
    {
      hide EntryRows;
      MoreRows(syms, global, i);
      HavingGrows(syms, global, i + 1, |syms|);
    }

    // ----- Section headers -----

    /** Writes b into the section header table. */
    method Patch(b: seq<Byte>, pad: nat, ghost base: seq<Byte>, ghost h: seq<Byte>, at: nat)
      requires p <= buf.Length && |base| == p >= TEXT_AT && |h| + |b| + pad <= 576 && at == 64 + |h| && buf[..p] == Patched(base, h)
      modifies buf
      ensures buf[..p] == Patched(base, h + (b + Zeros(pad)))
    {
      hide Patched;
      ghost var was := buf[..p];
      var j := 0;
      while j < |b|
        invariant 0 <= j <= |b| && buf[..p] == WriteAt(was, at, b[..j])
      {
        buf[at + j] := b[j];
        j := j + 1;
      }
      assert b[..j] == b;
      FieldPatched(base, h, b, pad);
    }

    method PatchByte(v: nat, width: nat, ghost base: seq<Byte>, ghost h: seq<Byte>, at: nat)
      requires v < 256 && (width == 4 || width == 8)
      requires p <= buf.Length && |base| == p >= TEXT_AT && |h| + width <= 576 && at == 64 + |h| && buf[..p] == Patched(base, h)
      modifies buf
      ensures buf[..p] == Patched(base, h + if width == 4 then LE4(v) else LE8(v))
    {
      hide Patched, LE4, LE8;
      SmallFields(v);
      Patch([v], width - 1, base, h, at);
    }

    method PatchWord(v: nat, width: nat, ghost base: seq<Byte>, ghost h: seq<Byte>, at: nat)
      requires v < 0x1_0000_0000 && (width == 4 || width == 8)
      requires p <= buf.Length && |base| == p >= TEXT_AT && |h| + width <= 576 && at == 64 + |h| && buf[..p] == Patched(base, h)
      modifies buf
      ensures buf[..p] == Patched(base, h + if width == 4 then LE4(v) else LE8(v))
    {
      hide Patched, LE4, LE8;
      WordField(v);
      Patch(LE4(v), width - 4, base, h, at);
    }

    /** One section header: single bytes, except offset and size, and link and info of
        the symbol table. */
    method PatchRow(r: Row, wide: bool, ghost base: seq<Byte>, ghost h: seq<Byte>, at: nat)
      requires SmallRow(r, wide)
      requires p <= buf.Length && |base| == p >= TEXT_AT && |h| + 64 <= 576 && at == 64 + |h| && buf[..p] == Patched(base, h)
      modifies buf
      ensures buf[..p] == Patched(base, h + RowBytes(r))
    {
      hide Patched, LE4, LE8;
      ghost var g := h;
      PatchByte(r.name, 4, base, g, at); g := g + LE4(r.name);
      PatchByte(r.typ, 4, base, g, at + 4); g := g + LE4(r.typ);
      PatchByte(r.flags, 8, base, g, at + 8); g := g + LE8(r.flags);
      PatchByte(0, 8, base, g, at + 16); g := g + LE8(0);
      PatchWord(r.off, 8, base, g, at + 24); g := g + LE8(r.off);
      PatchWord(r.size, 8, base, g, at + 32); g := g + LE8(r.size);
      PatchByte(r.link, 4, base, g, at + 40); g := g + LE4(r.link);
      if wide {
        PatchWord(r.info, 4, base, g, at + 44);
      } else {
        PatchByte(r.info, 4, base, g, at + 44);
      }
      g := g + LE4(r.info);
      PatchByte(r.align, 8, base, g, at + 48); g := g + LE8(r.align);
      PatchByte(r.entry, 8, base, g, at + 56); g := g + LE8(r.entry);
      assert g == h + RowBytes(r);
    }

    /** All section headers, in order. */
    method PatchRows(rows: seq<Row>, ghost base: seq<Byte>)
      requires p <= buf.Length && |base| == p >= TEXT_AT && |rows| == 8 && buf[..p] == Patched(base, Zeros(64))
      requires forall k :: 0 <= k < 8 ==> SmallRow(rows[k], k == 5)
      modifies buf
      ensures |Flat(RowsBytes(rows))| == 512 && buf[..p] == Patched(base, Zeros(64) + Flat(RowsBytes(rows)))
    {
      hide Patched, RowBytes, Flat;
      var k := 0;
      assert RowsBytes(rows[..0]) == [];
      EmptyFlat(RowsBytes(rows[..0]));
      assert Zeros(64) + [] == Zeros(64);
      while k < 8
        invariant 0 <= k <= 8 && |Flat(RowsBytes(rows[..k]))| == 64 * k
        invariant buf[..p] == Patched(base, Zeros(64) + Flat(RowsBytes(rows[..k])))
      {
        ghost var h := Flat(RowsBytes(rows[..k]));
        PatchRow(rows[k], k == 5, base, Zeros(64) + h, 128 + 64 * k);
        assert RowsBytes(rows[..k + 1]) == RowsBytes(rows[..k]) + [RowBytes(rows[k])];
        FlatSnoc(RowsBytes(rows[..k]), RowBytes(rows[k]));
        assert Zeros(64) + h + RowBytes(rows[k]) == Zeros(64) + (h + RowBytes(rows[k]));
        k := k + 1;
      }
      assert rows[..k] == rows;
    }

    // ----- The whole file -----

    method WriteHeader()
      requires p == 0 && buf.Length >= 640
      modifies buf, `p
      ensures p == 640 && buf[..p] == Header() + Zeros(576)
    {
      hide LE2, LE4, LE8, Zeros;
      ghost var h := IDENT;
      assert buf[..p] == [];
      Emit(IDENT);
      assert buf[..p] == h;
      Emit(LE2(1)); h := h + LE2(1);
      Emit(LE2(62)); h := h + LE2(62);
      Emit(LE4(1)); h := h + LE4(1);
      PadTo(40); h := h + Zeros(16);
      Emit(LE8(64)); h := h + LE8(64);
      PadTo(52); h := h + Zeros(4);
      assert buf[..p] == h;
      WriteHeaderEnd(h);
      assert buf[..p] == Header() + Zeros(576);
    }

    method WriteHeaderEnd(ghost front: seq<Byte>)
      requires p == 52 == |front| && buf.Length >= 640 && buf[..p] == front
      modifies buf, `p
      ensures p == 640
      ensures buf[..p] == front + LE2(64) + LE2(0) + LE2(0) + LE2(64) + LE2(9) + LE2(8) + Zeros(576)
    {
      hide LE2, LE4, LE8, Zeros;
      ghost var h := front;
      Emit(LE2(64)); h := h + LE2(64);
      Emit(LE2(0)); h := h + LE2(0);
      Emit(LE2(0)); h := h + LE2(0);
      Emit(LE2(64)); h := h + LE2(64);
      Emit(LE2(9)); h := h + LE2(9);
      Emit(LE2(8)); h := h + LE2(8);
      PadTo(640);
    }

    /** The first k parts of b have been written behind before. */
    ghost predicate Stage(before: seq<Byte>, b: seq<seq<Byte>>, k: nat)
      requires k <= |b|
      reads buf, `p
    {
      p <= buf.Length && buf[..p] == before + Flat(b[..k])
    }

    method EmitPart(part: seq<Byte>, ghost before: seq<Byte>, ghost b: seq<seq<Byte>>, ghost k: nat)
      requires k < |b| && Stage(before, b, k) && b[k] == part && p + |part| <= buf.Length
      modifies buf, `p
      ensures p == old(p) + |part| && Stage(before, b, k + 1)
    {
      hide Flat;
      Emit(part);
      Extend(before, b, k);
    }

    method PadPart(at: nat, ghost before: seq<Byte>, ghost b: seq<seq<Byte>>, ghost k: nat)
      requires k < |b| && Stage(before, b, k) && b[k] == Padding(p) && at == L.AlignUp(p, 8) <= buf.Length
      modifies buf, `p
      ensures p == at && Stage(before, b, k + 1)
    {
      hide Flat;
      PadTo(at);
      Extend(before, b, k);
    }

    method RelocPart(rels: array<Reloc>, ghost before: seq<Byte>, ghost b: seq<seq<Byte>>, ghost k: nat)
      requires k < |b| && Stage(before, b, k) && b[k] == Flat(RelocRows(rels[..])) && p + 24 * rels.Length <= buf.Length
      modifies buf, `p
      ensures p == old(p) + 24 * rels.Length && Stage(before, b, k + 1)
    {
      hide Flat, RelocRows;
      WriteRelocs(rels);
      Extend(before, b, k);
    }

    /** What stands behind the section header table, up to and with .rela.data. */
    method WriteSections(a: Layout, ghost before: seq<Byte>, ghost b: seq<seq<Byte>>)
      requires p == TEXT_AT && buf.Length >= a.sym && relText != relData && symIdx.Length == |syms|
      requires AreNames(Names(syms)) && a == LayoutFor(Pending()) && b == Body(Pending()) && Stage(before, b, 0)
      modifies buf, `p, symIdx, relText, relData
      ensures relText[..] == RemapAll(syms, old(relText[..])) && relData[..] == RemapAll(syms, old(relData[..]))
      ensures p == a.sym && Stage(before, b, 8)
    {
      hide RelocBytes, Flat, NewIndex, Strings, SymbolRows, SectionStrings, Body, RemapAll, RelocRows, Padding, L.AlignUp, Stage;
      ghost var o := Pending();
      BodyIs(o);
      EmitPart(text, before, b, 0);
      Renumber();
      RemapRelocs(relText);
      PadPart(a.rel, before, b, 1);
      RelocPart(relText, before, b, 2);
      RemapRelocs(relData);
      PadPart(a.data, before, b, 3);
      EmitPart(data, before, b, 4);
      PadPart(a.relData, before, b, 5);
      RelocPart(relData, before, b, 6);
      PadPart(a.sym, before, b, 7);
    }

    lemma {:induction false} BodyIs(o: Object)
      requires AreNames(Names(o.syms))
      ensures var a, b := LayoutFor(o), Body(o);
        && b[0] == o.text && b[1] == Padding(TEXT_AT + |o.text|) && b[2] == RelText(o) && b[3] == Padding(a.rel + 24 * |o.relText|)
        && b[4] == o.data && b[5] == Padding(a.data + |o.data|) && b[6] == RelData(o) && b[7] == Padding(a.relData + 24 * |o.relData|)
        && b[8] == Flat(SymbolRows(o.syms)) && b[9] == Strings(Names(o.syms)) && b[10] == SectionStrings()
    {
      hide Padding, RelText, RelData, SymbolRows, Strings, SectionStrings, Flat, LayoutFor, L.AlignUp, Names;
    }

    lemma {:induction false} Extend(before: seq<Byte>, b: seq<seq<Byte>>, k: nat)
      requires k < |b|
      ensures before + Flat(b[..k]) + b[k] == before + Flat(b[..k + 1])
    {
      assert b[..k + 1][..k] == b[..k];
    }

    /** The symbol table, locals first; it reports sh_info. */
    method WriteSymbolTable(at: seq<nat>, ghost before: seq<Byte>, ghost b: seq<seq<Byte>>) returns (firstGlobal: nat)
      requires AreNames(Names(syms)) && |at| == |syms| && forall i :: 0 <= i < |syms| ==> at[i] == StringAt(Names(syms), i)
      requires |b| == 11 && b[8] == Flat(SymbolRows(syms)) && Stage(before, b, 8) && p + 24 * (|syms| + 1) <= buf.Length
      modifies buf, `p
      ensures p == old(p) + 24 * (|syms| + 1) && Stage(before, b, 9) && firstGlobal == FirstGlobal(syms)
    {
      hide Flat, SymbolBytes, Having, EntryRows, StringAt, SymbolRows, Zeros;
      HavingAll(syms, |syms|);
      ghost var front := before + Flat(b[..8]);
      Emit(Zeros(24));
      NullRow();
      var locals := WriteSymbols(false, at, [Zeros(24)], front);
      var globals := WriteSymbols(true, at, [Zeros(24)] + EntryRows(syms, Having(syms, false, |syms|)), front);
      TableRows(syms);
      Extend(before, b, 8);
      firstGlobal := 1 + locals;
    }

    lemma {:induction false} NullRow()
      ensures Flat([Zeros(24)]) == Zeros(24)
    {
      assert [Zeros(24)][..0] == [];
      EmptyFlat([]);
      assert [] + Zeros(24) == Zeros(24);
    }

    /** Everything behind the section header table. */
    method WriteBody(a: Layout, at: seq<nat>, strings: seq<Byte>, names: seq<Byte>, ghost before: seq<Byte>, ghost b: seq<seq<Byte>>)
      returns (firstGlobal: nat)
      requires p == TEXT_AT && buf.Length >= a.shstr + 66 && relText != relData && symIdx.Length == |syms|
      requires AreNames(Names(syms)) && a == LayoutFor(Pending()) && b == Body(Pending()) && Stage(before, b, 0)
      requires |at| == |syms| && forall i :: 0 <= i < |syms| ==> at[i] == StringAt(Names(syms), i)
      requires strings == Strings(Names(syms)) && names == SectionStrings()
      modifies buf, `p, symIdx, relText, relData
      ensures relText[..] == RemapAll(syms, old(relText[..])) && relData[..] == RemapAll(syms, old(relData[..]))
      ensures p == a.shstr + 66 && Stage(before, b, 11) && firstGlobal == FirstGlobal(syms)
    {
      hide Flat, Strings, SymbolRows, SectionStrings, Body, RemapAll, L.AlignUp, Stage, FirstGlobal;
      BodyIs(Pending());
      WriteSections(a, before, b);
      firstGlobal := WriteSymbolTable(at, before, b);
      EmitPart(strings, before, b, 9);
      EmitPart(names, before, b, 10);
    }

    /** Builds the object file in the buffer. */
    method WriteObject()
      requires p == 0 && buf.Length == 262144 && symIdx.Length == |syms| && relText != relData
      requires Writes(Pending()) && |FileOf(Pending())| <= 262144
      modifies buf, `p, symIdx, relText, relData
      ensures p <= buf.Length && buf[..p] == FileOf(old(Pending()))
      ensures relText[..] == RemapAll(syms, old(relText[..])) && relData[..] == RemapAll(syms, old(relData[..]))
    {
      hide Flat, Strings, SectionStrings, Body, RemapAll, L.AlignUp, Rows, FileOf, Header, Zeros, Patched, SymbolRows;
      ghost var o := Pending();
      SectionNames();
      Places(o);
      var names, nameOffsets := BuildStrings(SECTIONS);
      var strings, at := BuildStrings(Names(syms));
      var a := LayoutOf(|text|, 24 * relText.Length, |data|, 24 * relData.Length, 24 * (|syms| + 1), |strings|);
      NameBytes();
      WriteHeader();
      ghost var before, b := Header() + Zeros(576), Body(o);
      EmptyFlat(b[..0]);
      assert before + [] == before;
      var firstGlobal := WriteBody(a, at, strings, names, before, b);
      assert b[..11] == b;
      ghost var base := before + Flat(b);
      FreshTable(o, base);
      var rows := RowsFrom(a, |text|, relText.Length, |data|, relData.Length, bss, |syms|, firstGlobal, |strings|);
      RowsAre(o, rows);
      PatchRows(rows, base);
      WholeFile(o, base);
    }

    lemma {:induction false} NameBytes()
      ensures AreNames(SECTIONS) && SectionStrings() == Strings(SECTIONS)
    {
      SectionNames();
    }

    /** Before the section headers are filled in, the table is all zeros. */
    lemma {:induction false} FreshTable(o: Object, base: seq<Byte>)
      requires AreNames(Names(o.syms)) && base == Header() + Zeros(576) + Flat(Body(o))
      ensures |base| == |FileOf(o)| && |base| >= TEXT_AT && base == Patched(base, Zeros(64))
    {
      hide Header, Flat, Body;
      TableSize(o);
      assert Zeros(64) + Zeros(512) == Zeros(576);
      assert base[64..640] == Zeros(576);
      assert base == base[..64] + base[64..640] + base[640..];
    }

    lemma {:induction false} WholeFile(o: Object, base: seq<Byte>)
      requires AreNames(Names(o.syms)) && base == Header() + Zeros(576) + Flat(Body(o))
      ensures |Flat(RowsBytes(Rows(o)))| == 512 && |base| >= TEXT_AT
      ensures Patched(base, Zeros(64) + Flat(RowsBytes(Rows(o)))) == FileOf(o)
    {
      hide Header, Flat, Body, RowsBytes, Rows;
      TableSize(o);
      assert base[..64] == Header();
      assert base[640..] == Flat(Body(o));
      assert Table(o) + Zeros(0) == Table(o);
    }
  }

  /** The section headers, from the layout. */
  function RowsFrom(a: Layout, text: nat, relText: nat, data: nat, relData: nat, bss: nat, syms: nat, firstGlobal: nat, strings: nat): seq<Row>
  {
    [Row(1, 1, 6, TEXT_AT, text, 0, 0, 16, 0),
     Row(7, 4, 0, a.rel, 24 * relText, 6, 1, 8, 24),
     Row(18, 1, 3, a.data, data, 0, 0, 32, 0),
     Row(24, 4, 0, a.relData, 24 * relData, 6, 3, 8, 24),
     Row(35, 8, 3, 0, bss, 0, 0, 32, 0),
     Row(40, 2, 0, a.sym, 24 * (syms + 1), 7, firstGlobal, 8, 24),
     Row(48, 3, 0, a.str, strings, 0, 0, 1, 0),
     Row(56, 3, 0, a.shstr, 66, 0, 0, 1, 0)]
  }

  lemma {:induction false} RowsAre(o: Object, rows: seq<Row>)
    requires Writes(o) && rows == RowsFrom(LayoutFor(o), |o.text|, |o.relText|, |o.data|, |o.relData|, o.bss, |o.syms|,
                                           FirstGlobal(o.syms), |Strings(Names(o.syms))|)
    ensures rows == Rows(o) && |rows| == 8 && forall k :: 0 <= k < 8 ==> SmallRow(rows[k], k == 5)
  {
    hide Strings, FileOf, LayoutFor, Having;
    HavingAll(o.syms, |o.syms|);
    RowFits(o, 0); RowFits(o, 1); RowFits(o, 2); RowFits(o, 3); RowFits(o, 4); RowFits(o, 5); RowFits(o, 6); RowFits(o, 7);
  }

  // ----- Reading it back -----

  /** Looks a section up by name. */
  method FindShByName(file: seq<Byte>, target: string) returns (i: int)
    requires TableFits(file)
    ensures i == FindSection(file, target)
  {
    var shnum, shstrndx := R16(file, 60), R16(file, 62);
    if shnum <= 0 || shstrndx < 0 || shstrndx >= shnum { return -1; }
    i := 1;
    while i < shnum
      invariant 1 <= i && (i <= shnum || shnum == 0) && FindFrom(file, target, 1) == FindFrom(file, target, i)
    {
      if SectionName(file, i) == target { return; }
      i := i + 1;
    }
    i := -1;
  }

  /** The reader: checks the header, finds the sections and takes them apart. */
  method ReadInput(file: seq<Byte>) returns (r: Reading)
    ensures r == ReadObject(file)
  {
    hide FindSection, SectionPlace, ReadSymbols, ReadRelocs, Content, TableFits, R16;
    if |file| < 64 || file[0] != 0x7F || file[1] != 0x45 || file[2] != 0x4C || file[3] != 0x46 { return NotElf; }
    assert file[..4] == [file[0], file[1], file[2], file[3]];
    if file[4] != 2 { return Not64Bit; }
    if R16(file, 16) != 1 { return NotRelocatable; }
    if R16(file, 18) != 62 { return NotX86; }
    if !TableFits(file) { return Outside; }
    var text := FindShByName(file, ".text");
    var data := FindShByName(file, ".data");
    var bss := FindShByName(file, ".bss");
    var symtab := FindShByName(file, ".symtab");
    var strtab := FindShByName(file, ".strtab");
    var relaText := FindShByName(file, ".rela.text");
    var relaData := FindShByName(file, ".rela.data");
    var t, d, b := SectionPlace(file, text), SectionPlace(file, data), SectionPlace(file, bss);
    var sy, st := SectionPlace(file, symtab), SectionPlace(file, strtab);
    var rt, rd := SectionPlace(file, relaText), SectionPlace(file, relaData);
    if !Fits(file, t) || !Fits(file, d) || b.size < 0 || !Fits(file, sy) || !Fits(file, st) || !Fits(file, rt) || !Fits(file, rd) {
      return Outside;
    }
    r := Read(L.Input(Content(file, t), Content(file, d), b.size, text, data, bss,
                      ReadSymbols(file, st, sy), ReadRelocs(file, rt), ReadRelocs(file, rd)));
  }

  /** Writing an object and reading the file gives back what the linker needs of it. */
  method WriteThenRead(w: ObjectWriter) returns (r: Reading)
    requires w.p == 0 && w.buf.Length == 262144 && w.symIdx.Length == |w.syms| && w.relText != w.relData
    requires Writes(w.Pending()) && |FileOf(w.Pending())| <= 262144
    modifies w, w.buf, w.symIdx, w.relText, w.relData
    ensures r == Read(InputOf(old(w.Pending())))
  {
    hide FileOf, Writes, ReadObject, InputOf;
    ghost var o := w.Pending();
    w.WriteObject();
    r := ReadInput(w.buf[..w.p]);
    RoundTrip(o);
  }
}
