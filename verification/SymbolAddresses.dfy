/** Where symbols end up: behind the address of a symbol the loaded program has the bytes
    behind its definition, and different definitions do not share memory. */
module SymbolAddresses {
  import opened Bytes
  import opened Words
  import opened Linking
  import opened LinkProofs

  /** The parts of an object in which symbols are defined. */
  datatype Part = InText | InData | InBss

  function Number(f: Input, p: Part): int { match p case InText => f.shText case InData => f.shData case InBss => f.shBss }

  function PartSize(f: Input, p: Part): nat { match p case InText => |f.text| case InData => |f.data| case InBss => f.bss }

  /** Symbol s is defined in part p, whose section number no other part has. */
  predicate Lies(f: Input, s: Sym, p: Part)
  {
    && 0 < Number(f, p) < 0xFF00 && s.shndx == Number(f, p) && s.value <= PartSize(f, p)
    && forall q: Part :: q != p ==> -1 <= Number(f, q) < 0xFF00 && Number(f, q) != Number(f, p)
  }

  /** Byte j of part p of input fi as the object has it; uninitialised data is zero. */
  function Content(f: Input, p: Part, j: nat): Byte
    requires j < PartSize(f, p)
  {
    match p case InText => f.text[j] case InData => f.data[j] case InBss => 0
  }

  /** No relocation stores into byte j of part p. */
  ghost predicate Untouched(ins: Inputs, fi: nat, p: Part, j: nat)
    requires fi < |ins|
  {
    match p
    case InText => forall i :: 0 <= i < |TextWrites(ins, |ins|)| ==> !Covers(TextWrites(ins, |ins|)[i], TextOff(ins, fi) + j)
    case InData => forall i :: 0 <= i < |DataWrites(ins, |ins|)| ==> !Covers(DataWrites(ins, |ins|)[i], DataOff(ins, fi) + j)
    case InBss => true
  }

  /** The address of part p of input fi. */
  function Base(ins: Inputs, fi: nat, p: Part): int
    requires fi < |ins|
  {
    match p case InText => TextBase(ins, fi) case InData => DataBase(ins, fi) case InBss => BssBase(ins, fi)
  }

  lemma {:induction false} AddressIs(ins: Inputs, fi: nat, s: Sym, p: Part)
    requires fi < |ins| && Lies(ins[fi], s, p) && s.value < 0x8000_0000
    ensures SymAddr(ins, fi, s) == Base(ins, fi, p) + s.value
  {
    hide TextBase, DataBase, BssBase;
    var f := ins[fi];
    assert S32(s.value) == s.value;
    SmallMod(Number(f, InText)); SmallMod(Number(f, InData)); SmallMod(Number(f, InBss));
  }

  lemma {:induction false} SmallMod(n: int)
    requires -1 <= n < 0xFF00
    ensures n % 0x1_0000 == if n < 0 then 0xFFFF else n
  {
  }

  lemma {:induction false} PartsSmall(ins: Inputs, entry: string, fi: nat, p: Part)
    requires Linkable(ins, entry) && fi < |ins|
    ensures PartSize(ins[fi], p) < 0x7000_0000
  {
    hide Resolvable, Resolve, Inside, AlignUp;
    OffsetsGrow(Sizes(Texts(ins)), 16, fi, |ins|);
    OffsetsGrow(Sizes(Datas(ins)), 32, fi, |ins|);
    OffsetsGrow(BssSizes(ins), 32, fi, |ins|);
  }

  /** Counted from the address of a definition the whole part lies in memory. */
  lemma {:induction false} DefinitionLoaded(ins: Inputs, entry: string, fi: nat, s: Sym, p: Part, j: nat)
    requires Linkable(ins, entry) && fi < |ins| && Lies(ins[fi], s, p) && j < PartSize(ins[fi], p) && Untouched(ins, fi, p, j)
    ensures LoadedByte(Output(ins, entry), SymAddr(ins, fi, s) - s.value + j) == Some(Content(ins[fi], p, j))
  {
    hide Linkable, Output, LoadedByte, TextBase, DataBase, BssBase, TextWrites, DataWrites, SymAddr;
    PartsSmall(ins, entry, fi, p);
    AddressIs(ins, fi, s, p);
    match p
    case InText => TextByteLoaded(ins, entry, fi, j);
    case InData => DataByteLoaded(ins, entry, fi, j);
    case InBss => BssByteLoaded(ins, entry, fi, j);
  }

  // ----- Names -----

  /** Symbol k of input fi means definition si of input fd: itself if it is local, and the
      first global definition of its name otherwise. */
  ghost predicate Names(ins: Inputs, fi: nat, k: nat, fd: nat, si: nat)
  {
    && fi < |ins| && k < |ins[fi].syms| && fd < |ins| && si < |ins[fd].syms|
    && var s, d := ins[fi].syms[k], ins[fd].syms[si];
       if s.bind == 0 then fd == fi && si == k
       else
         && IsDefinition(d) && d.name == s.name
         && forall a, b :: 0 <= a <= fd && 0 <= b < |ins[a].syms| && (a < fd || b < si) && IsDefinition(ins[a].syms[b]) ==>
              ins[a].syms[b].name != s.name
  }

  lemma {:induction false} ValueIs(ins: Inputs, fi: nat, k: nat, fd: nat, si: nat)
    requires Names(ins, fi, k, fd, si)
    ensures SymValue(ins, fi, k) == SymAddr(ins, fd, ins[fd].syms[si])
  {
    hide SymAddr, Defs;
    var s := ins[fi].syms[k];
    if s.bind != 0 {
      if Find(Defs(ins, |ins|), s.name).None? {
        NoneBefore(ins, |ins|, fd, si, s.name);
        assert false;
      }
      var a, b := ResolveIsFirst(ins, |ins|, s.name);
      assert a == fd && b == si;
    }
  }

  /** What every reference is relocated to: counted from the value of a symbol, the part of
      the object that defines it lies in memory, byte for byte. */
  lemma {:induction false} SymbolLoaded(ins: Inputs, entry: string, fi: nat, k: nat, fd: nat, si: nat, p: Part, j: nat)
    requires Linkable(ins, entry) && Names(ins, fi, k, fd, si) && Lies(ins[fd], ins[fd].syms[si], p)
    requires j < PartSize(ins[fd], p) && Untouched(ins, fd, p, j)
    ensures LoadedByte(Output(ins, entry), SymValue(ins, fi, k) - ins[fd].syms[si].value + j) == Some(Content(ins[fd], p, j))
  {
    hide Linkable, Output, LoadedByte, SymAddr, SymValue, Untouched, Lies;
    ValueIs(ins, fi, k, fd, si);
    DefinitionLoaded(ins, entry, fd, ins[fd].syms[si], p, j);
  }

  /** An absolute symbol is its value. */
  lemma {:induction false} AbsoluteIs(ins: Inputs, fi: nat, k: nat, fd: nat, si: nat)
    requires Names(ins, fi, k, fd, si) && ins[fd].syms[si].shndx == 0xFFF1
    ensures SymValue(ins, fi, k) == ins[fd].syms[si].value
  {
    ValueIs(ins, fi, k, fd, si);
  }

  // ----- Memory of their own -----

  lemma {:induction false} PartsApart(ins: Inputs, fi: nat, p: Part, fj: nat, q: Part)
    requires fi < |ins| && fj < |ins| && (fi != fj || p != q)
    ensures Base(ins, fi, p) + PartSize(ins[fi], p) <= Base(ins, fj, q) || Base(ins, fj, q) + PartSize(ins[fj], q) <= Base(ins, fi, p)
  {
    hide AlignUp;
    var n := |ins|;
    Grow(ins, fi, n); Grow(ins, fj, n); Grow(ins, 0, fi); Grow(ins, 0, fj);
    if fi < fj { Grow(ins, fi, fj); } else if fj < fi { Grow(ins, fj, fi); }
  }

  lemma {:induction false} Grow(ins: Inputs, i: nat, j: nat)
    requires i <= j <= |ins|
    ensures TextOff(ins, i) <= TextOff(ins, j) && DataOff(ins, i) <= DataOff(ins, j) && BssOff(ins, i) <= BssOff(ins, j)
    ensures i < j ==> TextOff(ins, i) + |ins[i].text| <= TextOff(ins, j) && DataOff(ins, i) + |ins[i].data| <= DataOff(ins, j)
    ensures i < j ==> BssOff(ins, i) + ins[i].bss <= BssOff(ins, j)
  {
    hide Offset;
    OffsetsGrow(Sizes(Texts(ins)), 16, i, j);
    OffsetsGrow(Sizes(Datas(ins)), 32, i, j);
    OffsetsGrow(BssSizes(ins), 32, i, j);
  }

  /** Two objects of m and n bytes that are defined in different parts or inputs, or at
      different places of one part, get different memory. */
  lemma {:induction false} SymbolsApart(ins: Inputs, entry: string, fi: nat, s: Sym, p: Part, m: nat, fj: nat, t: Sym, q: Part, n: nat)
    requires Linkable(ins, entry) && fi < |ins| && fj < |ins| && Lies(ins[fi], s, p) && Lies(ins[fj], t, q)
    requires s.value + m <= PartSize(ins[fi], p) && t.value + n <= PartSize(ins[fj], q)
    requires fi != fj || p != q || s.value + m <= t.value || t.value + n <= s.value
    ensures SymAddr(ins, fi, s) + m <= SymAddr(ins, fj, t) || SymAddr(ins, fj, t) + n <= SymAddr(ins, fi, s)
  {
    hide Linkable, Base, SymAddr;
    PartsSmall(ins, entry, fi, p); PartsSmall(ins, entry, fj, q);
    AddressIs(ins, fi, s, p); AddressIs(ins, fj, t, q);
    if fi != fj || p != q { PartsApart(ins, fi, p, fj, q); }
  }

  // ----- Alignment -----

  lemma {:induction false} AlignUpIs(v: nat, a: nat)
    requires a > 0
    ensures AlignUp(v, a) % a == 0 && forall r: nat :: v <= r && r % a == 0 ==> AlignUp(v, a) <= r
  {
    var q := (v + a - 1) / a;
    DivModUnique(q * a, a, q, 0);
    forall r: nat | v <= r && r % a == 0 ensures AlignUp(v, a) <= r {
      var k := r / a;
      assert r == k * a && (k + 1) * a == k * a + a;
      if q > k { MulMono(q, k + 1, a, a); } else { MulMono(k, q, a, a); }
    }
  }

  lemma {:induction false} OffsetAligned(sizes: seq<nat>, align: nat, i: nat)
    requires align > 0 && i <= |sizes|
    ensures Offset(sizes, align, i) % align == 0
  {
    hide AlignUp;
    if i > 0 { AlignUpIs(Offset(sizes, align, i - 1) + sizes[i - 1], align); }
  }

  /** Text starts at multiples of 16, and so do data and bss. */
  lemma {:induction false} Sixteen(ins: Inputs, fi: nat, p: Part)
    requires fi < |ins|
    ensures Base(ins, fi, p) % 16 == 0
  {
    hide Offset;
    OffsetAligned(Sizes(Texts(ins)), 16, fi); OffsetAligned(Sizes(Texts(ins)), 16, |ins|);
    OffsetAligned(Sizes(Datas(ins)), 32, fi); OffsetAligned(Sizes(Datas(ins)), 32, |ins|);
    OffsetAligned(BssSizes(ins), 32, fi);
    Sum16(BASE_ADDR, TextOff(ins, fi), 0, 0);
    Sum16(BASE_ADDR, TextSize(ins), DataOff(ins, fi), 0);
    Sum16(BASE_ADDR, TextSize(ins), DataSize(ins), BssOff(ins, fi));
  }

  lemma {:induction false} Sum16(a: int, b: int, c: int, d: int)
    requires a % 16 == 0 && b % 16 == 0 && c % 32 == 0 && d % 32 == 0
    ensures (a + b + c + d) % 16 == 0
  {
  }

  lemma {:induction false} Sum32(a: int, b: int, c: int, d: int)
    requires a % 32 == 0 && c % 32 == 0 && d % 32 == 0
    ensures (a + b + c + d) % 32 == 0 <==> b % 32 == 0
  {
  }

  /** Data and bss are announced with alignment 32, and they have it if and only if the
      size of the text is a multiple of 32. */
  lemma {:induction false} ThirtyTwoExactly(ins: Inputs, fi: nat, p: Part)
    requires fi < |ins| && p != InText
    ensures Base(ins, fi, p) % 32 == 0 <==> TextSize(ins) % 32 == 0
  {
    hide Offset;
    OffsetAligned(Sizes(Datas(ins)), 32, fi); OffsetAligned(Sizes(Datas(ins)), 32, |ins|);
    OffsetAligned(BssSizes(ins), 32, fi);
    Sum32(BASE_ADDR, TextSize(ins), DataOff(ins, fi), 0);
    Sum32(BASE_ADDR, TextSize(ins), DataSize(ins), BssOff(ins, fi));
  }

  /** One object with 16 bytes of text and some data. */
  lemma {:induction false} SixteenOnly(f: Input)
    requires |f.text| == 16
    ensures Base([f], 0, InData) % 32 == 16
  {
    var ins := [f];
    assert Offset(Sizes(Texts(ins)), 16, 0) == 0 && Sizes(Texts(ins))[0] == 16;
    AlignUpIs(16, 16);
    assert TextSize(ins) == 16;
    OffsetAligned(Sizes(Datas(ins)), 32, 0);
  }
}
