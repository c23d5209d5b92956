/** What the headers of the executable say, read from the bytes of the file at the places
    that chapters 4 and 5 of the System V gABI give the fields. */
module ElfHeaders {
  import opened Bytes
  import opened Words
  import opened Linking
  import opened LinkProofs

  // ----- The ELF header -----

  const FRONT: seq<Byte> := [0x7F, 69, 76, 70, 2, 1, 1, 0, 0, 0, 0, 0, 0, 0, 0, 0, 2, 0, 62, 0, 1, 0, 0, 0]
  const BACK: seq<Byte> := [0, 0, 0, 0, 64, 0, 56, 0, 1, 0, 64, 0, 5, 0, 4, 0]

  lemma {:induction false} FrontIs()
    ensures IDENT + LE2(2) + LE2(62) + LE4(1) == FRONT
    ensures LE4(0) + LE2(64) + LE2(56) + LE2(1) + LE2(64) + LE2(5) + LE2(4) == BACK
  {
  }

  lemma {:induction false} HeaderParts(entry: int, shoff: int)
    ensures ElfHeader(entry, shoff) == FRONT + (LE8(entry) + LE8(64) + LE8(shoff)) + BACK
  {
    hide LE2, LE4, LE8;
    FrontIs();
    var a, b, c, m := IDENT + LE2(2) + LE2(62) + LE4(1), LE8(entry) + LE8(64) + LE8(shoff), LE4(0) + LE2(64) + LE2(56), LE8(shoff);
    var d := LE2(1) + LE2(64) + LE2(5) + LE2(4);
    assert c + d == LE4(0) + LE2(64) + LE2(56) + LE2(1) + LE2(64) + LE2(5) + LE2(4);
    assert ElfHeader(entry, shoff) == a + b + (c + d);
  }

  /** A 64-bit little-endian executable file for the x86-64, with one program header behind
      the ELF header and five section headers. */
  lemma {:induction false} HeaderSays(entry: int, shoff: int)
    ensures var h := ElfHeader(entry, shoff);
      && h[0] == 0x7F && h[1] == 'E' as int && h[2] == 'L' as int && h[3] == 'F' as int && h[4] == 2 && h[5] == 1 && h[6] == 1
      && R16(h, 16) == 2 && R16(h, 18) == 62 && R32(h, 20) == 1
      && R16(h, 52) == |h| && R16(h, 54) == 56 && R16(h, 56) == 1 && R16(h, 58) == 64 && R16(h, 60) == 5 && R16(h, 62) == 4
    ensures Sits(ElfHeader(entry, shoff), 24, LE8(entry) + LE8(64) + LE8(shoff))
  {
    hide LE8, ElfHeader;
    HeaderParts(entry, shoff);
    var h, m := ElfHeader(entry, shoff), LE8(entry) + LE8(64) + LE8(shoff);
    SitsBetween(FRONT, m, BACK);
    FromFront(h, m + BACK);
    FromBack(h, FRONT + m);
    assert h == FRONT + (m + BACK);
  }

  lemma {:induction false} FromFront(h: seq<Byte>, more: seq<Byte>)
    requires h == FRONT + more
    ensures h[0] == 0x7F && h[1] == 69 && h[2] == 76 && h[3] == 70 && h[4] == 2 && h[5] == 1 && h[6] == 1
    ensures R16(h, 16) == 2 && R16(h, 18) == 62 && R32(h, 20) == 1
  {
    assert h[..24] == FRONT;
    assert h[16] == FRONT[16] && h[17] == FRONT[17] && h[18] == FRONT[18] && h[19] == FRONT[19];
    assert h[20] == FRONT[20] && h[21] == FRONT[21] && h[22] == FRONT[22] && h[23] == FRONT[23];
  }

  lemma {:induction false} FromBack(h: seq<Byte>, front: seq<Byte>)
    requires h == front + BACK && |front| == 48
    ensures R16(h, 52) == 64 && R16(h, 54) == 56 && R16(h, 56) == 1 && R16(h, 58) == 64 && R16(h, 60) == 5 && R16(h, 62) == 4
  {
    assert forall k :: 0 <= k < 16 ==> h[48 + k] == BACK[k];
    assert h[48 + 4] == 64 && h[48 + 5] == 0 && h[48 + 6] == 56 && h[48 + 7] == 0 && h[48 + 8] == 1 && h[48 + 9] == 0;
    assert h[48 + 10] == 64 && h[48 + 11] == 0 && h[48 + 12] == 5 && h[48 + 13] == 0 && h[48 + 14] == 4 && h[48 + 15] == 0;
  }

  // ----- The program header -----

  /** A segment that is loaded, readable, writable and executable, whose place in the file
      and address agree modulo its alignment, section 5 of the gABI, Program Header. */
  lemma {:induction false} SegmentSays(filesz: nat, memsz: nat)
    requires filesz < 0x8000_0000 && memsz < 0x8000_0000
    ensures var h := ProgramHeader(filesz, memsz);
      && R32(h, 0) == 1 && R32(h, 4) == 1 + 2 + 4
      && R64(h, 32) == filesz && R64(h, 40) == memsz
      && R64(h, 48) > 0 && R64(h, 16) % R64(h, 48) == R64(h, 8) % R64(h, 48) && R64(h, 24) == R64(h, 16)
  {
    hide LE4, LE8, R32, R64, U32;
    var h := ProgramHeader(filesz, memsz);
    ProgramFields(filesz, memsz);
    SegmentSits(filesz, memsz);
    Read32(h, 0, 1); Read32(h, 4, 7); Read64(h, 8, PAGE); Read64(h, 16, BASE_ADDR); Read64(h, 24, BASE_ADDR);
    Read64(h, 32, filesz); Read64(h, 40, memsz); Read64(h, 48, PAGE);
    SmallWords();
  }

  lemma {:induction false} SegmentSits(filesz: nat, memsz: nat)
    ensures var h := ProgramHeader(filesz, memsz);
      Sits(h, 0, LE4(1)) && Sits(h, 4, LE4(7)) && Sits(h, 24, LE8(BASE_ADDR)) && Sits(h, 48, LE8(PAGE))
  {
    hide LE4, LE8, Sits;
    var h := ProgramHeader(filesz, memsz);
    var a, w := LE4(1) + LE4(7), LE8(PAGE) + LE8(BASE_ADDR);
    var x, y, z := LE8(BASE_ADDR), LE8(filesz) + LE8(memsz), LE8(PAGE);
    assert h == a + w + x + y + z;
    FiveSit(LE4(1), LE4(7), w, x, y, z);
  }

  lemma {:induction false} FiveSit(a: seq<Byte>, b: seq<Byte>, w: seq<Byte>, x: seq<Byte>, y: seq<Byte>, z: seq<Byte>)
    ensures var h := a + b + w + x + y + z;
      && Sits(h, 0, a) && Sits(h, |a|, b) && Sits(h, |a| + |b| + |w|, x) && Sits(h, |a| + |b| + |w| + |x| + |y|, z)
  {
    var h := a + b + w + x + y + z;
    assert h[..|a|] == a;
    assert h[|a|..|a| + |b|] == b;
    assert h[|a| + |b| + |w|..|a| + |b| + |w| + |x|] == x;
    assert h[|a| + |b| + |w| + |x| + |y|..] == z;
  }

  lemma {:induction false} SmallWords()
    ensures U32(1) == 1 && U32(7) == 7
  {
  }

  // ----- Section headers -----

  /** The fields of one section header. */
  lemma {:induction false} SectionSays(name: nat, typ: nat, flags: nat, addr: nat, off: nat, size: nat, align: nat)
    requires name < 0x8000_0000 && typ < 0x8000_0000 && flags < 0x8000_0000 && addr < 0x8000_0000 && off < 0x8000_0000
    requires size < 0x8000_0000 && align < 0x8000_0000
    ensures var h := SectionHeader(name, typ, flags, addr, off, size, align);
      && R32(h, 0) == name && R32(h, 4) == typ && R64(h, 8) == flags && R64(h, 16) == addr && R64(h, 24) == off
      && R64(h, 32) == size && R64(h, 48) == align
  {
    hide LE4, LE8, R32, R64, U32;
    var h := SectionHeader(name, typ, flags, addr, off, size, align);
    SectionSits(name, typ, flags, addr, off, size, align);
    Read32(h, 0, name); Read32(h, 4, typ); Read64(h, 8, flags); Read64(h, 16, addr); Read64(h, 24, off);
    Read64(h, 32, size); Read64(h, 48, align);
    SmallWord(name); SmallWord(typ);
  }

  lemma {:induction false} SectionSits(name: nat, typ: nat, flags: nat, addr: nat, off: nat, size: nat, align: nat)
    ensures var h := SectionHeader(name, typ, flags, addr, off, size, align);
      && Sits(h, 0, LE4(name)) && Sits(h, 4, LE4(typ)) && Sits(h, 8, LE8(flags)) && Sits(h, 16, LE8(addr)) && Sits(h, 24, LE8(off))
      && Sits(h, 32, LE8(size)) && Sits(h, 48, LE8(align))
  {
    hide LE4, LE8, Sits;
    var h := SectionHeader(name, typ, flags, addr, off, size, align);
    var b, c := LE8(flags) + LE8(addr) + LE8(off) + LE8(size), LE4(0) + LE4(0);
    FourSit(flags, addr, off, size);
    assert h == LE4(name) + LE4(typ) + [] + b + c + (LE8(align) + LE8(0));
    FiveSit(LE4(name), LE4(typ), [], b, c, LE8(align) + LE8(0));
    SitsBetween([], LE8(align), LE8(0));
    assert [] + LE8(align) + LE8(0) == LE8(align) + LE8(0);
    SitsIn(h, 48, LE8(align) + LE8(0), 0, LE8(align));
    SitsIn(h, 8, b, 0, LE8(flags)); SitsIn(h, 8, b, 8, LE8(addr)); SitsIn(h, 8, b, 16, LE8(off)); SitsIn(h, 8, b, 24, LE8(size));
  }

  lemma {:induction false} FourSit(w: int, x: int, y: int, z: int)
    ensures var b := LE8(w) + LE8(x) + LE8(y) + LE8(z);
      Sits(b, 0, LE8(w)) && Sits(b, 8, LE8(x)) && Sits(b, 16, LE8(y)) && Sits(b, 24, LE8(z))
  {
    hide LE8;
    var b := LE8(w) + LE8(x) + LE8(y) + LE8(z);
    assert b == [] + LE8(w) + (LE8(x) + LE8(y) + LE8(z));
    SitsBetween([], LE8(w), LE8(x) + LE8(y) + LE8(z));
    assert b == LE8(w) + LE8(x) + (LE8(y) + LE8(z));
    SitsBetween(LE8(w), LE8(x), LE8(y) + LE8(z));
    SitsBetween(LE8(w) + LE8(x), LE8(y), LE8(z));
    assert b == (LE8(w) + LE8(x) + LE8(y)) + LE8(z) + [];
    SitsBetween(LE8(w) + LE8(x) + LE8(y), LE8(z), []);
  }

  lemma {:induction false} SmallWord(v: nat)
    requires v < 0x8000_0000
    ensures U32(v) == v
  {
  }

  // ----- The file -----

  /** The name that starts at offset n of the section names. */
  predicate Called(n: nat, name: seq<Byte>) { Sits(NAMES, n, name + [0]) }

  const TEXT_NAME: seq<Byte> := ['.' as int, 't' as int, 'e' as int, 'x' as int, 't' as int]
  const DATA_NAME: seq<Byte> := ['.' as int, 'd' as int, 'a' as int, 't' as int, 'a' as int]
  const BSS_NAME: seq<Byte> := ['.' as int, 'b' as int, 's' as int, 's' as int]

  /** Section k of the file, as its header describes it. */
  predicate Section(f: seq<Byte>, k: nat, name: seq<Byte>, typ: int, flags: int, addr: int, size: int)
    requires 64 <= |f| && R64(f, 40) + 64 * k + 64 <= |f|
  {
    var h := R64(f, 40) + 64 * k;
    && Called(R32(f, h), name) && R32(f, h + 4) == typ && R64(f, h + 8) == flags && R64(f, h + 16) == addr && R64(f, h + 32) == size
  }

  /** The section headers stand where the ELF header says, and describe the text, the data
      and the uninitialised data: names, types, flags, addresses, sizes and, for the two
      that are in the file, the bytes. */
  lemma {:induction false} SectionsSay(text: seq<Byte>, data: seq<Byte>, bss: nat, entry: int)
    requires |text| + |data| + bss < 0x7000_0000 && 0 <= entry < 0x8000_0000
    ensures var f := Executable(text, data, bss, entry);
      && |f| == R64(f, 40) + 64 * 5
      && Section(f, 1, TEXT_NAME, 1, 2 + 4, BASE_ADDR, |text|)
      && Section(f, 2, DATA_NAME, 1, 1 + 2, BASE_ADDR + |text|, |data|)
      && Section(f, 3, BSS_NAME, 8, 1 + 2, BASE_ADDR + |text| + |data|, bss)
      && Sits(f, R64(f, R64(f, 40) + 64 + 24), text) && Sits(f, R64(f, R64(f, 40) + 128 + 24), data)
  {
    hide LE2, LE4, LE8, R32, R64, ElfHeader, ProgramHeader, SectionHeader, Sits, Called, Section, Executable;
    var f := Executable(text, data, bss, entry);
    var ts, ds, sh := |text|, |data|, SectionHeaders(|text|, |data|, bss);
    var shoff := PAGE + ts + ds + 28;
    FileSits(text, data, bss, entry);
    var a, b, c := TextHeader(ts), DataHeader(ts, ds), BssHeader(ts, ds, bss);
    FiveParts(a, b, c, SectionHeader(18, 3, 0, 0, PAGE + ts + ds, 28, 1));
    NamesCalled();
    SitsIn(f, shoff, sh, 64, a); SitsIn(f, shoff, sh, 128, b); SitsIn(f, shoff, sh, 192, c);
    SectionSays(1, 1, 6, BASE_ADDR, PAGE, ts, 16);
    SectionIs(f, shoff, 1, a, 1, TEXT_NAME, 1, 6, BASE_ADDR, ts, PAGE);
    SectionSays(7, 1, 3, BASE_ADDR + ts, PAGE + ts, ds, 32);
    SectionIs(f, shoff, 2, b, 7, DATA_NAME, 1, 3, BASE_ADDR + ts, ds, PAGE + ts);
    SectionSays(13, 8, 3, BASE_ADDR + ts + ds, 0, bss, 32);
    SectionIs(f, shoff, 3, c, 13, BSS_NAME, 8, 3, BASE_ADDR + ts + ds, bss, 0);
  }

  function TextHeader(ts: nat): seq<Byte> { SectionHeader(1, 1, 6, BASE_ADDR, PAGE, ts, 16) }
  function DataHeader(ts: nat, ds: nat): seq<Byte> { SectionHeader(7, 1, 3, BASE_ADDR + ts, PAGE + ts, ds, 32) }
  function BssHeader(ts: nat, ds: nat, bss: nat): seq<Byte> { SectionHeader(13, 8, 3, BASE_ADDR + ts + ds, 0, bss, 32) }

  lemma {:induction false} SectionIs(f: seq<Byte>, shoff: nat, k: nat, h: seq<Byte>, n: nat, name: seq<Byte>, typ: int, flags: int, addr: int,
                                     size: int, off: int)
    requires |f| >= 64 && R64(f, 40) == shoff && |h| == 64 && Sits(f, shoff + 64 * k, h) && Called(n, name)
    requires R32(h, 0) == n && R32(h, 4) == typ && R64(h, 8) == flags && R64(h, 16) == addr && R64(h, 24) == off && R64(h, 32) == size
    ensures shoff + 64 * k + 64 <= |f| && Section(f, k, name, typ, flags, addr, size) && R64(f, shoff + 64 * k + 24) == off
  {
    hide R32, R64, Sits, Called;
    Inside64(f, shoff + 64 * k, h);
  }

  lemma {:induction false} FileSits(text: seq<Byte>, data: seq<Byte>, bss: nat, entry: int)
    requires |text| + |data| + bss < 0x7000_0000
    ensures var f, shoff := Executable(text, data, bss, entry), PAGE + |text| + |data| + 28;
      && |f| == shoff + 320 && R64(f, 40) == shoff && Sits(f, PAGE, text) && Sits(f, PAGE + |text|, data)
      && Sits(f, shoff, SectionHeaders(|text|, |data|, bss))
  {
    hide LE2, LE4, LE8, R32, R64, ElfHeader, ProgramHeader, SectionHeader, SectionHeaders, Sits;
    var f, shoff := Executable(text, data, bss, entry), PAGE + |text| + |data| + 28;
    var eh, ph := ElfHeader(entry, shoff), ProgramHeader(|text| + |data|, |text| + |data| + bss);
    var sh := SectionHeaders(|text|, |data|, bss);
    var pre := eh + ph + Zeros(PAGE - 120);
    FileParts(pre, text, data, sh);
    assert f == pre + text + data + NAMES + sh;
    var rest := ph + Zeros(PAGE - 120) + text + data + NAMES + sh;
    assert f == eh + rest;
    OffsetRead(f, entry, shoff, rest);
  }

  lemma {:induction false} FileParts(pre: seq<Byte>, text: seq<Byte>, data: seq<Byte>, sh: seq<Byte>)
    requires |pre| == PAGE
    ensures var f := pre + text + data + NAMES + sh;
      Sits(f, PAGE, text) && Sits(f, PAGE + |text|, data) && Sits(f, PAGE + |text| + |data| + 28, sh)
  {
    var f := pre + text + data + NAMES + sh;
    assert f == pre + text + (data + NAMES + sh);
    SitsBetween(pre, text, data + NAMES + sh);
    assert f == (pre + text) + data + (NAMES + sh);
    SitsBetween(pre + text, data, NAMES + sh);
    assert f == (pre + text + data + NAMES) + sh + [];
    SitsBetween(pre + text + data + NAMES, sh, []);
  }

  lemma {:induction false} OffsetRead(f: seq<Byte>, entry: int, shoff: int, rest: seq<Byte>)
    requires f == ElfHeader(entry, shoff) + rest && 0 <= shoff < 0x8000_0000
    ensures R64(f, 40) == shoff
  {
    hide LE8, ElfHeader, R64;
    var eh := ElfHeader(entry, shoff);
    HeaderSays(entry, shoff);
    FourSit(entry, 64, shoff, 0);
    var m := LE8(entry) + LE8(64) + LE8(shoff);
    assert m == (LE8(entry) + LE8(64)) + LE8(shoff) + [];
    SitsBetween(LE8(entry) + LE8(64), LE8(shoff), []);
    SitsIn(eh, 24, m, 16, LE8(shoff));
    assert f[..64] == eh;
    assert f[40..48] == eh[40..48];
    Read64(f, 40, shoff);
  }

  lemma {:induction false} FiveParts(a: seq<Byte>, b: seq<Byte>, c: seq<Byte>, d: seq<Byte>)
    requires |a| == |b| == |c| == |d| == 64
    ensures var s := Zeros(64) + a + b + c + d; Sits(s, 64, a) && Sits(s, 128, b) && Sits(s, 192, c)
  {
    var z := Zeros(64);
    var s := z + a + b + c + d;
    assert s == z + a + (b + c + d);
    SitsBetween(z, a, b + c + d);
    assert s == (z + a) + b + (c + d);
    SitsBetween(z + a, b, c + d);
    assert s == (z + a + b) + c + d;
    SitsBetween(z + a + b, c, d);
  }

  /** The fields of a header are those of the file at its place. */
  lemma {:induction false} Inside64(f: seq<Byte>, p: nat, h: seq<Byte>)
    requires Sits(f, p, h) && |h| == 64
    ensures p + 64 <= |f| && R32(f, p) == R32(h, 0) && R32(f, p + 4) == R32(h, 4)
    ensures R64(f, p + 8) == R64(h, 8) && R64(f, p + 16) == R64(h, 16) && R64(f, p + 24) == R64(h, 24) && R64(f, p + 32) == R64(h, 32)
  {
    forall k | 0 <= k < 64 ensures f[p + k] == h[k] { SitsByte(f, p, h, k); }
    WordIn(f, p, h, 0); WordIn(f, p, h, 4); WordIn(f, p, h, 8); WordIn(f, p, h, 12); WordIn(f, p, h, 16); WordIn(f, p, h, 20);
    WordIn(f, p, h, 24); WordIn(f, p, h, 28); WordIn(f, p, h, 32); WordIn(f, p, h, 36);
  }

  lemma {:induction false} WordIn(f: seq<Byte>, p: nat, h: seq<Byte>, q: nat)
    requires p + |h| <= |f| && q + 4 <= |h| && forall k :: 0 <= k < |h| ==> f[p + k] == h[k]
    ensures R32(f, p + q) == R32(h, q)
  {
    assert f[p + q] == h[q] && f[p + (q + 1)] == h[q + 1] && f[p + (q + 2)] == h[q + 2] && f[p + (q + 3)] == h[q + 3];
  }

  lemma {:induction false} NamesCalled()
    ensures Called(1, TEXT_NAME) && Called(7, DATA_NAME) && Called(13, BSS_NAME)
  {
    TextCalled();
    DataCalled();
    BssCalled();
  }

  lemma {:induction false} TextCalled()
    ensures Called(1, TEXT_NAME)
  {
    assert TEXT_NAME == [46, 116, 101, 120, 116];
    assert [46, 116, 101, 120, 116] + [0] == [46, 116, 101, 120, 116, 0];
    var s := NAMES[1..7];
    assert s[0] == NAMES[1] == 46 && s[1] == NAMES[2] == 116 && s[2] == NAMES[3] == 101 && s[3] == NAMES[4] == 120;
    assert s[4] == NAMES[5] == 116 && s[5] == NAMES[6] == 0;
    assert s == [46, 116, 101, 120, 116, 0];
  }

  lemma {:induction false} DataCalled()
    ensures Called(7, DATA_NAME)
  {
    assert DATA_NAME + [0] == [46, 100, 97, 116, 97, 0];
    assert NAMES[7..13] == [46, 100, 97, 116, 97, 0];
  }

  lemma {:induction false} BssCalled()
    ensures Called(13, BSS_NAME)
  {
    assert BSS_NAME + [0] == [46, 98, 115, 115, 0];
    assert NAMES[13..18] == [46, 98, 115, 115, 0];
  }
}
