/** What static linking means: section layout, symbol resolution, relocation and
    the executable file, as functions of the input objects.  Linker.dfy has the
    program that computes them in place. */
module Linking {
  import opened Bytes
  import opened Words

  // ----- Inputs -----

  /** bind is 0 for local symbols; shndx 0 means undefined and 0xFFF1 absolute. */
  datatype Sym = Sym(name: string, bind: nat, shndx: nat, value: nat)

  datatype Rela = Rela(off: nat, sym: nat, typ: nat, addend: int)

  /** A parsed object file; section numbers are -1 for sections it does not have. */
  datatype Input = Input(text: seq<Byte>, data: seq<Byte>, bss: nat, shText: int, shData: int, shBss: int,
                         syms: seq<Sym>, relText: seq<Rela>, relData: seq<Rela>)

  type Inputs = seq<Input>

  // ----- Layout -----

  const BASE_ADDR: int := 0x40_0000

  function AlignUp(v: nat, a: nat): (r: nat)
    requires a > 0
    ensures v <= r < v + a
  {
    (v + a - 1) / a * a
  }

  /** The offset of part i when parts of these sizes are laid out with this alignment. */
  function Offset(sizes: seq<nat>, align: nat, i: nat): nat
    requires align > 0 && i <= |sizes|
  {
    if i == 0 then 0 else AlignUp(Offset(sizes, align, i - 1) + sizes[i - 1], align)
  }

  function Texts(ins: Inputs): (s: seq<seq<Byte>>)
    ensures |s| == |ins|
  {
    seq(|ins|, i requires 0 <= i < |ins| => ins[i].text)
  }

  function Datas(ins: Inputs): (s: seq<seq<Byte>>)
    ensures |s| == |ins|
  {
    seq(|ins|, i requires 0 <= i < |ins| => ins[i].data)
  }

  function Sizes(parts: seq<seq<Byte>>): (s: seq<nat>)
    ensures |s| == |parts|
  {
    seq(|parts|, i requires 0 <= i < |parts| => |parts[i]|)
  }

  function BssSizes(ins: Inputs): (s: seq<nat>)
    ensures |s| == |ins|
  {
    seq(|ins|, i requires 0 <= i < |ins| => ins[i].bss)
  }

  /** The first i parts, each one padded with zeros to the alignment. */
  function Padded(parts: seq<seq<Byte>>, align: nat, i: nat): (s: seq<Byte>)
    requires align > 0 && i <= |parts|
    ensures |s| == Offset(Sizes(parts), align, i)
  {
    if i == 0 then []
    else
      var before := Padded(parts, align, i - 1);
      before + parts[i - 1] + Zeros(AlignUp(|before| + |parts[i - 1]|, align) - (|before| + |parts[i - 1]|))
  }

  function TextOff(ins: Inputs, i: nat): nat
    requires i <= |ins|
  {
    Offset(Sizes(Texts(ins)), 16, i)
  }

  function DataOff(ins: Inputs, i: nat): nat
    requires i <= |ins|
  {
    Offset(Sizes(Datas(ins)), 32, i)
  }

  function BssOff(ins: Inputs, i: nat): nat
    requires i <= |ins|
  {
    Offset(BssSizes(ins), 32, i)
  }

  function TextSize(ins: Inputs): nat { TextOff(ins, |ins|) }

  function DataSize(ins: Inputs): nat { DataOff(ins, |ins|) }

  function BssSize(ins: Inputs): nat { BssOff(ins, |ins|) }

  function DataAddr(ins: Inputs): int { BASE_ADDR + TextSize(ins) }

  function BssAddr(ins: Inputs): int { DataAddr(ins) + DataSize(ins) }

  function TextBase(ins: Inputs, i: nat): int
    requires i < |ins|
  {
    BASE_ADDR + TextOff(ins, i)
  }

  function DataBase(ins: Inputs, i: nat): int
    requires i < |ins|
  {
    DataAddr(ins) + DataOff(ins, i)
  }

  function BssBase(ins: Inputs, i: nat): int
    requires i < |ins|
  {
    BssAddr(ins) + BssOff(ins, i)
  }

  // ----- Symbols -----

  /** The address of a symbol of input fi; values are cut to 32 bits, as int. */
  function SymAddr(ins: Inputs, fi: nat, s: Sym): int
    requires fi < |ins|
  {
    var f := ins[fi];
    if s.shndx == 0 then 0
    else if s.shndx == 0xFFF1 then s.value
    else if s.shndx == f.shText % 0x1_0000 then TextBase(ins, fi) + S32(s.value)
    else if s.shndx == f.shData % 0x1_0000 then DataBase(ins, fi) + S32(s.value)
    else if s.shndx == f.shBss % 0x1_0000 then BssBase(ins, fi) + S32(s.value)
    else s.value
  }

  datatype Binding = Binding(name: string, value: int)

  datatype Found = None | Some(v: int)

  /** The first binding of name. */
  function Find(bs: seq<Binding>, name: string): Found
  {
    if bs == [] then None else if bs[0].name == name then Some(bs[0].value) else Find(bs[1..], name)
  }

  predicate IsDefinition(s: Sym) { s.bind != 0 && s.shndx != 0 && s.name != "" }

  predicate IsReference(s: Sym) { s.bind != 0 && s.shndx == 0 && s.name != "" }

  /** The global definitions among the first si symbols of input fi, in order. */
  function DefsIn(ins: Inputs, fi: nat, si: nat): seq<Binding>
    requires fi < |ins| && si <= |ins[fi].syms|
  {
    if si == 0 then []
    else
      var s := ins[fi].syms[si - 1];
      DefsIn(ins, fi, si - 1) + (if IsDefinition(s) then [Binding(s.name, SymAddr(ins, fi, s))] else [])
  }

  /** The global definitions of the first fi inputs. */
  function Defs(ins: Inputs, fi: nat): seq<Binding>
    requires fi <= |ins|
  {
    if fi == 0 then [] else Defs(ins, fi - 1) + DefsIn(ins, fi - 1, |ins[fi - 1].syms|)
  }

  /** A symbol is what its first global definition says. */
  function Resolve(ins: Inputs, name: string): Found { Find(Defs(ins, |ins|), name) }

  /** Some input refers to name without defining it there. */
  ghost predicate Referenced(ins: Inputs, name: string)
  {
    exists fi, si :: 0 <= fi < |ins| && 1 <= si < |ins[fi].syms| && ins[fi].syms[si].name == name
      && IsReference(ins[fi].syms[si])
  }

  /** Names that start with _G may stay undefined. */
  predicate IsGot(name: string): (b: bool)
    ensures b <==> "_G" <= name
  {
    |name| >= 2 && name[0] == '_' && name[1] == 'G'
  }

  /** Every reference is defined (or is a _G name), and the entry symbol has an address. */
  ghost predicate Resolvable(ins: Inputs, entry: string)
  {
    && (forall name :: Referenced(ins, name) && !IsGot(name) ==> Resolve(ins, name).Some?)
    && Resolve(ins, entry).Some? && Resolve(ins, entry).v != 0
  }

  /** The value of symbol k of input fi in a relocation: local symbols by their own
      place, others by name; 0 outside the table and for undefined _G names. */
  function SymValue(ins: Inputs, fi: nat, k: nat): (v: int)
    requires fi < |ins|
    ensures k >= |ins[fi].syms| ==> v == 0
  {
    if k >= |ins[fi].syms| then 0
    else
      var s := ins[fi].syms[k];
      if s.bind == 0 then SymAddr(ins, fi, s)
      else match Resolve(ins, s.name) case Some(v) => v case None => 0
  }

  // ----- Relocations -----

  /** none, 64, PC32, PLT32 and 32. */
  predicate Supported(typ: nat) { typ == 0 || typ == 1 || typ == 2 || typ == 4 || typ == 10 }

  /** The bytes a relocation stores, for symbol value s at place p. */
  function FieldBytes(r: Rela, s: int, p: int): seq<Byte>
  {
    if r.typ == 1 then LE8(s + r.addend)
    else if r.typ == 2 || r.typ == 4 then LE4(s + r.addend - p)
    else if r.typ == 10 then LE4(s + r.addend)
    else []
  }

  datatype Write = Write(at: int, bytes: seq<Byte>)

  /** The store of relocation r of input fi, in a merged section where the input's
      part is at offset off and address base. */
  function WriteOf(ins: Inputs, fi: nat, r: Rela, base: int, off: int): Write
    requires fi < |ins|
  {
    Write(off + S32(r.off), FieldBytes(r, SymValue(ins, fi, r.sym), base + S32(r.off)))
  }

  function WritesIn(ins: Inputs, fi: nat, rs: seq<Rela>, base: int, off: int, k: nat): (ws: seq<Write>)
    requires fi < |ins| && k <= |rs|
    ensures |ws| == k
  {
    if k == 0 then [] else WritesIn(ins, fi, rs, base, off, k - 1) + [WriteOf(ins, fi, rs[k - 1], base, off)]
  }

  /** All stores into the merged text, in the order they are made. */
  function TextWrites(ins: Inputs, fi: nat): seq<Write>
    requires fi <= |ins|
  {
    if fi == 0 then []
    else
      var k := fi - 1;
      TextWrites(ins, k) + WritesIn(ins, k, ins[k].relText, TextBase(ins, k), TextOff(ins, k), |ins[k].relText|)
  }

  function DataWrites(ins: Inputs, fi: nat): seq<Write>
    requires fi <= |ins|
  {
    if fi == 0 then []
    else
      var k := fi - 1;
      DataWrites(ins, k) + WritesIn(ins, k, ins[k].relData, DataBase(ins, k), DataOff(ins, k), |ins[k].relData|)
  }

  /** Every store lies inside a buffer of n bytes. */
  predicate Inside(ws: seq<Write>, n: nat)
  {
    forall i :: 0 <= i < |ws| ==> 0 <= ws[i].at && ws[i].at + |ws[i].bytes| <= n
  }

  function Stored(s: seq<Byte>, w: Write): (r: seq<Byte>)
    ensures |r| == |s|
  {
    if 0 <= w.at && w.at + |w.bytes| <= |s| then WriteAt(s, w.at, w.bytes) else s
  }

  function AllStored(s: seq<Byte>, ws: seq<Write>): (r: seq<Byte>)
    ensures |r| == |s|
    decreases |ws|
  {
    if ws == [] then s else Stored(AllStored(s, ws[..|ws| - 1]), ws[|ws| - 1])
  }

  /** The merged and relocated sections. */
  function FinalText(ins: Inputs): (s: seq<Byte>)
    ensures |s| == TextSize(ins)
  {
    AllStored(Padded(Texts(ins), 16, |ins|), TextWrites(ins, |ins|))
  }

  function FinalData(ins: Inputs): (s: seq<Byte>)
    ensures |s| == DataSize(ins)
  {
    AllStored(Padded(Datas(ins), 32, |ins|), DataWrites(ins, |ins|))
  }

  // ----- The executable -----

  const PAGE: nat := 0x1000

  const IDENT: seq<Byte> := [0x7F, 0x45, 0x4C, 0x46, 2, 1, 1, 0, 0, 0, 0, 0, 0, 0, 0, 0]

  /** The section names: NUL, .text, .data, .bss and .shstrtab. */
  const NAMES: seq<Byte> :=
    [0, 46, 116, 101, 120, 116, 0, 46, 100, 97, 116, 97, 0, 46, 98, 115, 115, 0, 46, 115, 104, 115, 116, 114, 116, 97, 98, 0]

  function ElfHeader(entry: int, shoff: int): (s: seq<Byte>)
    ensures |s| == 64
  {
    IDENT + LE2(2) + LE2(62) + LE4(1) + LE8(entry) + LE8(64) + LE8(shoff) + LE4(0)
      + LE2(64) + LE2(56) + LE2(1) + LE2(64) + LE2(5) + LE2(4)
  }

  function ProgramHeader(filesz: int, memsz: int): (s: seq<Byte>)
    ensures |s| == 56
  {
    LE4(1) + LE4(7) + LE8(PAGE) + LE8(BASE_ADDR) + LE8(BASE_ADDR) + LE8(filesz) + LE8(memsz) + LE8(PAGE)
  }

  function SectionHeader(name: int, typ: int, flags: int, addr: int, off: int, size: int, align: int): (s: seq<Byte>)
    ensures |s| == 64
  {
    LE4(name) + LE4(typ) + LE8(flags) + LE8(addr) + LE8(off) + LE8(size) + LE4(0) + LE4(0) + LE8(align) + LE8(0)
  }

  function SectionHeaders(ts: nat, ds: nat, bs: nat): (s: seq<Byte>)
    ensures |s| == 320
  {
    Zeros(64)
      + SectionHeader(1, 1, 6, BASE_ADDR, PAGE, ts, 16)
      + SectionHeader(7, 1, 3, BASE_ADDR + ts, PAGE + ts, ds, 32)
      + SectionHeader(13, 8, 3, BASE_ADDR + ts + ds, 0, bs, 32)
      + SectionHeader(18, 3, 0, 0, PAGE + ts + ds, 28, 1)
  }

  /** The file: headers, padding to a page, text, data, section names and headers. */
  function Executable(text: seq<Byte>, data: seq<Byte>, bss: nat, entry: int): seq<Byte>
  {
    ElfHeader(entry, PAGE + |text| + |data| + 28) + ProgramHeader(|text| + |data|, |text| + |data| + bss)
      + Zeros(PAGE - 120) + text + data + NAMES + SectionHeaders(|text|, |data|, bss)
  }

  // ----- Loading -----

  /** The byte at address a after loading: the program header is read from the file. */
  function LoadedByte(file: seq<Byte>, a: int): Found
  {
    if |file| < 64 || R64(file, 32) + 56 > |file| then None
    else
      var ph := R64(file, 32);
      var off, va, fs, ms := R64(file, ph + 8), R64(file, ph + 16), R64(file, ph + 32), R64(file, ph + 40);
      if va <= a < va + fs then (if off + (a - va) < |file| then Some(file[off + (a - va)]) else None)
      else if va + fs <= a < va + ms then Some(0)
      else None
  }

  function EntryPoint(file: seq<Byte>): Found { if |file| < 64 then None else Some(R64(file, 24)) }
}
