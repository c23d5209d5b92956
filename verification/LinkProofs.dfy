/** The linked and loaded program: every input byte and every relocated field is
    where and what section 4.4.1 of the AMD64 psABI says. */
module LinkProofs {
  import opened Bytes
  import opened Words
  import opened Linking

  // ----- Layout -----

  lemma {:induction false} OffsetsGrow(sizes: seq<nat>, align: nat, i: nat, j: nat)
    requires align > 0 && i <= j <= |sizes|
    ensures Offset(sizes, align, i) <= Offset(sizes, align, j)
    ensures i < j ==> Offset(sizes, align, i) + sizes[i] <= Offset(sizes, align, j)
    decreases j
  {
    hide AlignUp;
    if i < j {
      OffsetsGrow(sizes, align, i, j - 1);
    }
  }

  /** Part i lies unchanged at its offset in the merged section. */
  lemma {:induction false} PartSits(parts: seq<seq<Byte>>, align: nat, i: nat, n: nat)
    requires align > 0 && i < n <= |parts|
    ensures Sits(Padded(parts, align, n), Offset(Sizes(parts), align, i), parts[i])
    decreases n
  {
    hide AlignUp, Offset;
    var before := Padded(parts, align, n - 1);
    var pad := Zeros(AlignUp(|before| + |parts[n - 1]|, align) - (|before| + |parts[n - 1]|));
    if i == n - 1 {
      SitsBetween(before, parts[i], pad);
    } else {
      PartSits(parts, align, i, n - 1);
      SitsLonger(before, parts[n - 1] + pad, Offset(Sizes(parts), align, i), parts[i]);
      assert before + (parts[n - 1] + pad) == before + parts[n - 1] + pad;
    }
  }

  lemma {:induction false} SitsLonger(s: seq<Byte>, more: seq<Byte>, p: int, b: seq<Byte>)
    requires Sits(s, p, b)
    ensures Sits(s + more, p, b)
  {
    assert (s + more)[p..p + |b|] == s[p..p + |b|];
  }

  lemma {:induction false} SitsLater(pre: seq<Byte>, s: seq<Byte>, p: int, b: seq<Byte>)
    requires Sits(s, p, b)
    ensures Sits(pre + s, |pre| + p, b)
  {
    assert (pre + s)[|pre| + p..|pre| + p + |b|] == s[p..p + |b|];
  }

  // ----- Stores that do not overlap -----

  ghost predicate Apart(ws: seq<Write>, i: int, j: int)
    requires 0 <= i < |ws| && 0 <= j < |ws|
  {
    ws[i].bytes == [] || ws[j].bytes == []
    || ws[i].at + |ws[i].bytes| <= ws[j].at || ws[j].at + |ws[j].bytes| <= ws[i].at
  }

  /** No two stores overlap. */
  ghost predicate Disjoint(ws: seq<Write>)
  {
    forall i, j :: 0 <= i < j < |ws| ==> Apart(ws, i, j)
  }

  predicate Covers(w: Write, p: int) { w.at <= p < w.at + |w.bytes| }

  lemma {:induction false} WriteNothing(s: seq<Byte>, p: nat)
    requires p <= |s|
    ensures WriteAt(s, p, []) == s
  {
  }

  lemma {:induction false} NothingSits(s: seq<Byte>, p: nat)
    requires p <= |s|
    ensures Sits(s, p, [])
  {
  }

  /** After disjoint stores, each field holds what was stored there. */
  lemma {:induction false} StoredField(s: seq<Byte>, ws: seq<Write>, i: nat)
    requires Inside(ws, |s|) && Disjoint(ws) && i < |ws|
    ensures Sits(AllStored(s, ws), ws[i].at, ws[i].bytes)
    decreases |ws|
  {
    hide Sits, WriteAt;
    var n := |ws| - 1;
    var init, last := ws[..n], ws[n];
    var t := AllStored(s, init);
    assert Stored(t, last) == WriteAt(t, last.at, last.bytes);
    if i == n {
      WrittenAt(t, last.at, last.bytes);
    } else {
      assert Disjoint(init) by {
        forall a, b | 0 <= a < b < |init| ensures Apart(init, a, b) { assert Apart(ws, a, b); }
      }
      StoredField(s, init, i);
      assert Apart(ws, i, n);
      if last.bytes == [] {
        WriteNothing(t, last.at);
      } else if ws[i].bytes == [] {
        NothingSits(AllStored(s, ws), ws[i].at);
      } else {
        WrittenElsewhere(t, last.at, last.bytes, ws[i].at, ws[i].bytes);
      }
    }
  }

  /** Bytes outside all fields keep their values. */
  lemma {:induction false} StoredOutside(s: seq<Byte>, ws: seq<Write>, p: nat)
    requires Inside(ws, |s|) && p < |s| && forall i :: 0 <= i < |ws| ==> !Covers(ws[i], p)
    ensures AllStored(s, ws)[p] == s[p]
    decreases |ws|
  {
    if ws != [] {
      var n := |ws| - 1;
      var t := AllStored(s, ws[..n]);
      StoredOutside(s, ws[..n], p);
      assert !Covers(ws[n], p);
      WrittenAt(t, ws[n].at, ws[n].bytes);
    }
  }

  lemma {:induction false} StoreNext(s: seq<Byte>, ws: seq<Write>, w: Write)
    ensures AllStored(s, ws + [w]) == Stored(AllStored(s, ws), w)
  {
    assert (ws + [w])[..|ws|] == ws;
  }

  lemma {:induction false} StoreAll(s: seq<Byte>, a: seq<Write>, b: seq<Write>)
    ensures AllStored(s, a + b) == AllStored(AllStored(s, a), b)
    decreases |b|
  {
    if b == [] {
      assert a + b == a;
    } else {
      var n := |b| - 1;
      assert a + b == a + b[..n] + [b[n]];
      StoreNext(s, a + b[..n], b[n]);
      StoreAll(s, a, b[..n]);
    }
  }

  /** The store of relocation k of input fi is among the stores. */
  lemma {:induction false} WriteListed(ins: Inputs, fi: nat, rs: seq<Rela>, base: int, off: int, n: nat, k: nat)
    requires fi < |ins| && k < n <= |rs|
    ensures WritesIn(ins, fi, rs, base, off, n)[k] == WriteOf(ins, fi, rs[k], base, off)
    decreases n
  {
    if k < n - 1 { WriteListed(ins, fi, rs, base, off, n - 1, k); }
  }

  lemma {:induction false} TextListed(ins: Inputs, n: nat, fi: nat, k: nat) returns (i: nat)
    requires fi < n <= |ins| && k < |ins[fi].relText|
    ensures i < |TextWrites(ins, n)|
    ensures TextWrites(ins, n)[i] == WriteOf(ins, fi, ins[fi].relText[k], TextBase(ins, fi), TextOff(ins, fi))
    decreases n
  {
    hide WriteOf, TextBase, TextOff;
    if fi == n - 1 {
      WriteListed(ins, fi, ins[fi].relText, TextBase(ins, fi), TextOff(ins, fi), |ins[fi].relText|, k);
      i := |TextWrites(ins, n - 1)| + k;
    } else {
      i := TextListed(ins, n - 1, fi, k);
    }
  }

  lemma {:induction false} DataListed(ins: Inputs, n: nat, fi: nat, k: nat) returns (i: nat)
    requires fi < n <= |ins| && k < |ins[fi].relData|
    ensures i < |DataWrites(ins, n)|
    ensures DataWrites(ins, n)[i] == WriteOf(ins, fi, ins[fi].relData[k], DataBase(ins, fi), DataOff(ins, fi))
    decreases n
  {
    hide WriteOf, DataBase, DataOff;
    if fi == n - 1 {
      WriteListed(ins, fi, ins[fi].relData, DataBase(ins, fi), DataOff(ins, fi), |ins[fi].relData|, k);
      i := |DataWrites(ins, n - 1)| + k;
    } else {
      i := DataListed(ins, n - 1, fi, k);
    }
  }

  // ----- The file -----

  /** What a loader reads from the headers. */
  lemma {:induction false} HeaderFields(text: seq<Byte>, data: seq<Byte>, bss: nat, entry: int)
    requires |text| + |data| + bss < 0x8000_0000 && 0 <= entry < 0x8000_0000
    ensures var file := Executable(text, data, bss, entry);
      && |file| >= PAGE + |text| + |data|
      && R64(file, 24) == entry && R64(file, 32) == 64
      && R64(file, 72) == PAGE && R64(file, 80) == BASE_ADDR
      && R64(file, 96) == |text| + |data| && R64(file, 104) == |text| + |data| + bss
  {
    hide LE8, LE4, LE2, R64, SectionHeaders, Sits;
    var file := Executable(text, data, bss, entry);
    var shoff := PAGE + |text| + |data| + 28;
    var eh, ph := ElfHeader(entry, shoff), ProgramHeader(|text| + |data|, |text| + |data| + bss);
    var rest := Zeros(PAGE - 120) + text + data + NAMES + SectionHeaders(|text|, |data|, bss);
    assert file == eh + (ph + rest);
    assert file == eh + ph + rest;
    ElfFields(entry, shoff);
    ProgramFields(|text| + |data|, |text| + |data| + bss);
    SitsLonger(eh, ph + rest, 24, LE8(entry)); SitsLonger(eh, ph + rest, 32, LE8(64));
    SitsLater(eh, ph, 8, LE8(PAGE)); SitsLater(eh, ph, 16, LE8(BASE_ADDR));
    SitsLater(eh, ph, 32, LE8(|text| + |data|)); SitsLater(eh, ph, 40, LE8(|text| + |data| + bss));
    SitsLonger(eh + ph, rest, 72, LE8(PAGE)); SitsLonger(eh + ph, rest, 80, LE8(BASE_ADDR));
    SitsLonger(eh + ph, rest, 96, LE8(|text| + |data|)); SitsLonger(eh + ph, rest, 104, LE8(|text| + |data| + bss));
    Read64(file, 24, entry); Read64(file, 32, 64); Read64(file, 72, PAGE); Read64(file, 80, BASE_ADDR);
    Read64(file, 96, |text| + |data|); Read64(file, 104, |text| + |data| + bss);
  }

  lemma {:induction false} ElfFields(entry: int, shoff: int)
    ensures Sits(ElfHeader(entry, shoff), 24, LE8(entry)) && Sits(ElfHeader(entry, shoff), 32, LE8(64))
  {
    hide LE8, LE4, LE2;
    var h := ElfHeader(entry, shoff);
    var pre := IDENT + LE2(2) + LE2(62) + LE4(1);
    var post := LE8(shoff) + LE4(0) + LE2(64) + LE2(56) + LE2(1) + LE2(64) + LE2(5) + LE2(4);
    assert h == pre + LE8(entry) + (LE8(64) + post);
    SitsBetween(pre, LE8(entry), LE8(64) + post);
    assert h == (pre + LE8(entry)) + LE8(64) + post;
    SitsBetween(pre + LE8(entry), LE8(64), post);
  }

  lemma {:induction false} ProgramFields(filesz: int, memsz: int)
    ensures var h := ProgramHeader(filesz, memsz);
      Sits(h, 8, LE8(PAGE)) && Sits(h, 16, LE8(BASE_ADDR)) && Sits(h, 32, LE8(filesz)) && Sits(h, 40, LE8(memsz))
  {
    hide LE8, LE4;
    var h := ProgramHeader(filesz, memsz);
    var a := LE4(1) + LE4(7);
    var b := a + LE8(PAGE);
    var c := b + LE8(BASE_ADDR) + LE8(BASE_ADDR);
    assert h == a + LE8(PAGE) + (LE8(BASE_ADDR) + LE8(BASE_ADDR) + LE8(filesz) + LE8(memsz) + LE8(PAGE));
    SitsBetween(a, LE8(PAGE), LE8(BASE_ADDR) + LE8(BASE_ADDR) + LE8(filesz) + LE8(memsz) + LE8(PAGE));
    assert h == b + LE8(BASE_ADDR) + (LE8(BASE_ADDR) + LE8(filesz) + LE8(memsz) + LE8(PAGE));
    SitsBetween(b, LE8(BASE_ADDR), LE8(BASE_ADDR) + LE8(filesz) + LE8(memsz) + LE8(PAGE));
    assert h == c + LE8(filesz) + (LE8(memsz) + LE8(PAGE));
    SitsBetween(c, LE8(filesz), LE8(memsz) + LE8(PAGE));
    assert h == (c + LE8(filesz)) + LE8(memsz) + LE8(PAGE);
    SitsBetween(c + LE8(filesz), LE8(memsz), LE8(PAGE));
  }

  /** Loading the file puts text and data at the base address, and zeros behind them. */
  lemma {:induction false} LoadedImage(text: seq<Byte>, data: seq<Byte>, bss: nat, entry: int, i: nat)
    requires |text| + |data| + bss < 0x8000_0000 && 0 <= entry < 0x8000_0000
    ensures var file := Executable(text, data, bss, entry);
      && EntryPoint(file) == Some(entry)
      && (i < |text| + |data| ==> LoadedByte(file, BASE_ADDR + i) == Some((text + data)[i]))
      && (|text| + |data| <= i < |text| + |data| + bss ==> LoadedByte(file, BASE_ADDR + i) == Some(0))
      && (i >= |text| + |data| + bss ==> LoadedByte(file, BASE_ADDR + i) == None)
  {
    hide LE8, LE4, LE2, R64, SectionHeaders, ElfHeader, ProgramHeader;
    HeaderFields(text, data, bss, entry);
    var file := Executable(text, data, bss, entry);
    if i < |text| + |data| {
      var pre := ElfHeader(entry, PAGE + |text| + |data| + 28) + ProgramHeader(|text| + |data|, |text| + |data| + bss)
        + Zeros(PAGE - 120);
      assert file == pre + (text + data) + (NAMES + SectionHeaders(|text|, |data|, bss));
      assert file[PAGE + i] == (text + data)[i];
    }
  }

  // ----- The theorems -----

  /** What linking is asked for: it can resolve every symbol, knows every relocation
      type, and everything lies below 2 GB. */
  ghost predicate Linkable(ins: Inputs, entry: string)
  {
    && Resolvable(ins, entry) && 0 <= Resolve(ins, entry).v < 0x8000_0000
    && TextSize(ins) + DataSize(ins) + BssSize(ins) < 0x7000_0000
    && Inside(TextWrites(ins, |ins|), TextSize(ins)) && Inside(DataWrites(ins, |ins|), DataSize(ins))
  }

  /** The output of the linker. */
  function Output(ins: Inputs, entry: string): seq<Byte>
    requires Resolve(ins, entry).Some?
  {
    Executable(FinalText(ins), FinalData(ins), BssSize(ins), Resolve(ins, entry).v)
  }

  /** b is in memory from address a on. */
  ghost predicate Loaded(file: seq<Byte>, a: int, b: seq<Byte>)
  {
    forall i :: 0 <= i < |b| ==> LoadedByte(file, a + i) == Some(b[i])
  }

  lemma {:induction false} TextLoaded(ins: Inputs, entry: string, at: nat, b: seq<Byte>)
    requires Linkable(ins, entry) && Sits(FinalText(ins), at, b)
    ensures Loaded(Output(ins, entry), BASE_ADDR + at, b)
  {
    hide Executable, FinalText, FinalData, LoadedByte, TextSize, DataSize, BssSize, Inside, Resolve;
    var t, d := FinalText(ins), FinalData(ins);
    forall i | 0 <= i < |b| ensures LoadedByte(Output(ins, entry), BASE_ADDR + at + i) == Some(b[i]) {
      SitsByte(t, at, b, i);
      LoadedImage(t, d, BssSize(ins), Resolve(ins, entry).v, at + i);
      assert (t + d)[at + i] == t[at + i];
    }
  }

  lemma {:induction false} DataLoaded(ins: Inputs, entry: string, at: nat, b: seq<Byte>)
    requires Linkable(ins, entry) && Sits(FinalData(ins), at, b)
    ensures Loaded(Output(ins, entry), DataAddr(ins) + at, b)
  {
    hide Executable, FinalText, FinalData, LoadedByte, TextSize, DataSize, BssSize, Inside, Resolve;
    var t, d := FinalText(ins), FinalData(ins);
    forall i | 0 <= i < |b| ensures LoadedByte(Output(ins, entry), DataAddr(ins) + at + i) == Some(b[i]) {
      SitsByte(d, at, b, i);
      LoadedImage(t, d, BssSize(ins), Resolve(ins, entry).v, |t| + at + i);
      assert (t + d)[|t| + at + i] == d[at + i];
      assert DataAddr(ins) + at + i == BASE_ADDR + (|t| + at + i);
    }
  }

  /** A text byte that no relocation covers is loaded where its input's text went. */
  lemma {:induction false} TextByteLoaded(ins: Inputs, entry: string, fi: nat, j: nat)
    requires Linkable(ins, entry) && fi < |ins| && j < |ins[fi].text|
    requires forall i :: 0 <= i < |TextWrites(ins, |ins|)| ==> !Covers(TextWrites(ins, |ins|)[i], TextOff(ins, fi) + j)
    ensures LoadedByte(Output(ins, entry), TextBase(ins, fi) + j) == Some(ins[fi].text[j])
  {
    hide Executable, FinalData, LoadedByte, BssSize, Inside, Resolve, AllStored, Padded, TextWrites, DataWrites, Offset,
      Output, Sits;
    var at := TextOff(ins, fi) + j;
    var merged := Padded(Texts(ins), 16, |ins|);
    PartSits(Texts(ins), 16, fi, |ins|);
    SitsBound(merged, TextOff(ins, fi), ins[fi].text);
    SitsByte(merged, TextOff(ins, fi), ins[fi].text, j);
    StoredOutside(merged, TextWrites(ins, |ins|), at);
    OneByte(FinalText(ins), at);
    TextLoaded(ins, entry, at, [ins[fi].text[j]]);
    assert LoadedByte(Output(ins, entry), BASE_ADDR + at + 0) == Some([ins[fi].text[j]][0]);
  }

  lemma {:induction false} OneByte(s: seq<Byte>, p: nat)
    requires p < |s|
    ensures Sits(s, p, [s[p]])
  {
  }

  lemma {:induction false} SitsBound(s: seq<Byte>, p: int, b: seq<Byte>)
    requires Sits(s, p, b)
    ensures 0 <= p && p + |b| <= |s|
  {
  }

  lemma {:induction false} DataByteLoaded(ins: Inputs, entry: string, fi: nat, j: nat)
    requires Linkable(ins, entry) && fi < |ins| && j < |ins[fi].data|
    requires forall i :: 0 <= i < |DataWrites(ins, |ins|)| ==> !Covers(DataWrites(ins, |ins|)[i], DataOff(ins, fi) + j)
    ensures LoadedByte(Output(ins, entry), DataBase(ins, fi) + j) == Some(ins[fi].data[j])
  {
    hide Executable, FinalText, LoadedByte, BssSize, Inside, Resolve, AllStored, Padded, TextWrites, DataWrites, Offset,
      Output, Sits, DataAddr;
    var at := DataOff(ins, fi) + j;
    var merged := Padded(Datas(ins), 32, |ins|);
    PartSits(Datas(ins), 32, fi, |ins|);
    SitsBound(merged, DataOff(ins, fi), ins[fi].data);
    SitsByte(merged, DataOff(ins, fi), ins[fi].data, j);
    StoredOutside(merged, DataWrites(ins, |ins|), at);
    OneByte(FinalData(ins), at);
    DataLoaded(ins, entry, at, [ins[fi].data[j]]);
    assert LoadedByte(Output(ins, entry), DataAddr(ins) + at + 0) == Some([ins[fi].data[j]][0]);
  }

  /** Uninitialised data is zero. */
  lemma {:induction false} BssByteLoaded(ins: Inputs, entry: string, fi: nat, j: nat)
    requires Linkable(ins, entry) && fi < |ins| && j < ins[fi].bss
    ensures LoadedByte(Output(ins, entry), BssBase(ins, fi) + j) == Some(0)
  {
    hide Executable, FinalText, FinalData, LoadedByte, Inside, Resolve, Offset;
    OffsetsGrow(BssSizes(ins), 32, fi, |ins|);
    LoadedImage(FinalText(ins), FinalData(ins), BssSize(ins), Resolve(ins, entry).v,
                |FinalText(ins)| + |FinalData(ins)| + BssOff(ins, fi) + j);
  }

  /** The word that a relocation asks for, as section 4.4.1 of the AMD64 psABI defines
      it, is the content of the field. */
  predicate FieldMeans(r: Rela, field: seq<Byte>, s: int, p: int)
  {
    match r.typ
    case 1 => |field| == 8 && R64(field, 0) == (s + r.addend) % 0x1_0000_0000_0000_0000
    case 2 => |field| == 4 && (IsInt(s + r.addend - p) ==> S32(R32(field, 0)) + p == s + r.addend)
    case 4 => |field| == 4 && (IsInt(s + r.addend - p) ==> S32(R32(field, 0)) + p == s + r.addend)
    case 10 => |field| == 4 && (0 <= s + r.addend < 0x1_0000_0000 ==> R32(field, 0) == s + r.addend)
    case _ => field == []
  }

  lemma {:induction false} FieldIs(r: Rela, s: int, p: int)
    ensures FieldMeans(r, FieldBytes(r, s, p), s, p)
  {
    hide LE4, LE8, R32, R64, S32, U32;
    var f := FieldBytes(r, s, p);
    SitsSelf(f);
    if r.typ == 1 {
      Read64(f, 0, s + r.addend);
    } else if r.typ == 2 || r.typ == 4 {
      Read32(f, 0, s + r.addend - p);
      SignedField(s + r.addend - p);
    } else if r.typ == 10 {
      Read32(f, 0, s + r.addend);
      SmallField(s + r.addend);
    }
  }

  lemma {:induction false} SitsSelf(s: seq<Byte>)
    ensures Sits(s, 0, s)
  {
  }

  lemma {:induction false} SignedField(v: int)
    ensures IsInt(v) ==> S32(U32(v)) == v
  {
    if IsInt(v) { U32OfInt(v); }
  }

  lemma {:induction false} SmallField(v: int)
    ensures 0 <= v < 0x1_0000_0000 ==> U32(v) == v
  {
  }

  /** Every text relocation: at its address the loaded program has S + A, or the
      displacement that leads there. */
  lemma {:induction false} TextFieldLoaded(ins: Inputs, entry: string, fi: nat, k: nat)
    requires Linkable(ins, entry) && Disjoint(TextWrites(ins, |ins|)) && fi < |ins| && k < |ins[fi].relText|
    ensures var r := ins[fi].relText[k];
      var p, s := TextBase(ins, fi) + S32(r.off), SymValue(ins, fi, r.sym);
      Loaded(Output(ins, entry), p, FieldBytes(r, s, p)) && FieldMeans(r, FieldBytes(r, s, p), s, p)
  {
    hide Executable, FinalData, LoadedByte, BssSize, Inside, Resolve, AllStored, Padded, TextWrites, DataWrites, Offset,
      Output, Sits, FieldBytes, SymValue, S32, Loaded, FieldMeans, Disjoint;
    var r := ins[fi].relText[k];
    var ws := TextWrites(ins, |ins|);
    var i := TextListed(ins, |ins|, fi, k);
    StoredField(Padded(Texts(ins), 16, |ins|), ws, i);
    SitsBound(FinalText(ins), ws[i].at, ws[i].bytes);
    TextLoaded(ins, entry, ws[i].at, ws[i].bytes);
    FieldIs(r, SymValue(ins, fi, r.sym), TextBase(ins, fi) + S32(r.off));
    assert BASE_ADDR + ws[i].at == TextBase(ins, fi) + S32(r.off);
  }

  lemma {:induction false} DataFieldLoaded(ins: Inputs, entry: string, fi: nat, k: nat)
    requires Linkable(ins, entry) && Disjoint(DataWrites(ins, |ins|)) && fi < |ins| && k < |ins[fi].relData|
    ensures var r := ins[fi].relData[k];
      var p, s := DataBase(ins, fi) + S32(r.off), SymValue(ins, fi, r.sym);
      Loaded(Output(ins, entry), p, FieldBytes(r, s, p)) && FieldMeans(r, FieldBytes(r, s, p), s, p)
  {
    hide Executable, FinalText, LoadedByte, BssSize, Inside, Resolve, AllStored, Padded, TextWrites, DataWrites, Offset,
      Output, Sits, FieldBytes, SymValue, S32, Loaded, FieldMeans, Disjoint, DataAddr;
    var r := ins[fi].relData[k];
    var ws := DataWrites(ins, |ins|);
    var i := DataListed(ins, |ins|, fi, k);
    StoredField(Padded(Datas(ins), 32, |ins|), ws, i);
    SitsBound(FinalData(ins), ws[i].at, ws[i].bytes);
    DataLoaded(ins, entry, ws[i].at, ws[i].bytes);
    FieldIs(r, SymValue(ins, fi, r.sym), DataBase(ins, fi) + S32(r.off));
    assert DataAddr(ins) + ws[i].at == DataBase(ins, fi) + S32(r.off);
  }

  /** Control starts at the entry symbol. */
  lemma {:induction false} EntryLoaded(ins: Inputs, entry: string)
    requires Linkable(ins, entry)
    ensures EntryPoint(Output(ins, entry)) == Some(Resolve(ins, entry).v)
  {
    hide Executable, FinalText, FinalData, LoadedByte, Inside, Resolve;
    LoadedImage(FinalText(ins), FinalData(ins), BssSize(ins), Resolve(ins, entry).v, 0);
  }

  // ----- Resolution -----

  lemma {:induction false} FindCat(a: seq<Binding>, b: seq<Binding>, name: string)
    ensures Find(a + b, name) == if Find(a, name).Some? then Find(a, name) else Find(b, name)
    decreases |a|
  {
    if a == [] {
      assert a + b == b;
    } else {
      assert (a + b)[1..] == a[1..] + b;
      FindCat(a[1..], b, name);
    }
  }

  /** A name resolves to the address of a definition, and no earlier input or earlier
      symbol of that input defines it. */
  lemma {:induction false} ResolveIsFirst(ins: Inputs, n: nat, name: string) returns (fi: nat, si: nat)
    requires n <= |ins| && Find(Defs(ins, n), name).Some?
    ensures fi < n && si < |ins[fi].syms|
    ensures IsDefinition(ins[fi].syms[si]) && ins[fi].syms[si].name == name
    ensures Find(Defs(ins, n), name).v == SymAddr(ins, fi, ins[fi].syms[si])
    ensures forall a, b :: 0 <= a <= fi && 0 <= b < |ins[a].syms| && (a < fi || b < si) && IsDefinition(ins[a].syms[b]) ==>
      ins[a].syms[b].name != name
    decreases n
  {
    hide SymAddr;
    var k := n - 1;
    FindCat(Defs(ins, k), DefsIn(ins, k, |ins[k].syms|), name);
    if Find(Defs(ins, k), name).Some? {
      fi, si := ResolveIsFirst(ins, k, name);
    } else {
      fi := k;
      si := FirstIn(ins, k, |ins[k].syms|, name);
      forall a, b | 0 <= a < k && 0 <= b < |ins[a].syms| && IsDefinition(ins[a].syms[b])
        ensures ins[a].syms[b].name != name
      {
        NoneBefore(ins, k, a, b, name);
      }
    }
  }

  lemma {:induction false} FirstIn(ins: Inputs, fi: nat, n: nat, name: string) returns (si: nat)
    requires fi < |ins| && n <= |ins[fi].syms| && Find(DefsIn(ins, fi, n), name).Some?
    ensures si < n && IsDefinition(ins[fi].syms[si]) && ins[fi].syms[si].name == name
    ensures Find(DefsIn(ins, fi, n), name).v == SymAddr(ins, fi, ins[fi].syms[si])
    ensures forall b :: 0 <= b < si && IsDefinition(ins[fi].syms[b]) ==> ins[fi].syms[b].name != name
    decreases n
  {
    hide SymAddr;
    var s := ins[fi].syms[n - 1];
    var last := if IsDefinition(s) then [Binding(s.name, SymAddr(ins, fi, s))] else [];
    FindCat(DefsIn(ins, fi, n - 1), last, name);
    if Find(DefsIn(ins, fi, n - 1), name).Some? {
      si := FirstIn(ins, fi, n - 1, name);
    } else {
      si := n - 1;
      forall b | 0 <= b < si && IsDefinition(ins[fi].syms[b]) ensures ins[fi].syms[b].name != name {
        NoneIn(ins, fi, n - 1, b, name);
      }
    }
  }

  lemma {:induction false} NoneIn(ins: Inputs, fi: nat, n: nat, b: nat, name: string)
    requires fi < |ins| && b < n <= |ins[fi].syms| && Find(DefsIn(ins, fi, n), name).None? && IsDefinition(ins[fi].syms[b])
    ensures ins[fi].syms[b].name != name
    decreases n
  {
    hide SymAddr;
    var s := ins[fi].syms[n - 1];
    var last := if IsDefinition(s) then [Binding(s.name, SymAddr(ins, fi, s))] else [];
    FindCat(DefsIn(ins, fi, n - 1), last, name);
    if b < n - 1 { NoneIn(ins, fi, n - 1, b, name); }
  }

  lemma {:induction false} NoneBefore(ins: Inputs, n: nat, a: nat, b: nat, name: string)
    requires a < n <= |ins| && b < |ins[a].syms| && Find(Defs(ins, n), name).None? && IsDefinition(ins[a].syms[b])
    ensures ins[a].syms[b].name != name
    decreases n
  {
    FindCat(Defs(ins, n - 1), DefsIn(ins, n - 1, |ins[n - 1].syms|), name);
    if a < n - 1 {
      NoneBefore(ins, n - 1, a, b, name);
    } else {
      NoneIn(ins, a, |ins[a].syms|, b, name);
    }
  }
}
