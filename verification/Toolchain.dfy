/** From source to a running executable: a program that was compiled, linked and
    loaded does what the source says. */
module Toolchain {
  import opened Bytes
  import opened Words
  import opened X86
  import opened CSource
  import opened Emission
  import opened Labels
  import opened WholeProgram
  import L = Linking
  import P = LinkProofs

  /** Input i of the link is the object of program p: its text with open call
      fields, one PLT32 relocation with addend -4 for each call, and symbols that
      resolve to the functions. */
  ghost predicate IsObjectOf(ins: L.Inputs, i: nat, p: Program)
    requires i < |ins|
  {
    var calls := ProgramCalls(p, |p|);
    && ins[i].text == Text(p, |p|, []) && |ins[i].relText| == |calls|
    && forall k :: 0 <= k < |ins[i].relText| ==> IsCall(ins, i, p, k)
  }

  ghost predicate IsCall(ins: L.Inputs, i: nat, p: Program, k: nat)
    requires i < |ins| && k < |ins[i].relText| && k < |ProgramCalls(p, |p|)|
  {
    var r, c := ins[i].relText[k], ProgramCalls(p, |p|)[k];
    && r.off == c.at && r.typ == 4 && r.addend == -4 && c.at + 4 <= |ins[i].text| < 0x8000_0000 && c.fn < |p|
    && L.SymValue(ins, i, r.sym) == L.TextBase(ins, i) + Start(p, c.fn)
  }

  /** Each input's text relocations stay inside its own text. */
  ghost predicate OwnParts(ins: L.Inputs)
  {
    forall i, k :: 0 <= i < |ins| && 0 <= k < |ins[i].relText| ==> OwnWrite(ins, i, k)
  }

  ghost predicate OwnWrite(ins: L.Inputs, i: nat, k: nat)
    requires i < |ins| && k < |ins[i].relText|
  {
    var w := TextWrite(ins, i, k);
    L.TextOff(ins, i) <= w.at && w.at + |w.bytes| <= L.TextOff(ins, i) + |ins[i].text|
  }

  function TextWrite(ins: L.Inputs, i: nat, k: nat): L.Write
    requires i < |ins| && k < |ins[i].relText|
  {
    L.WriteOf(ins, i, ins[i].relText[k], L.TextBase(ins, i), L.TextOff(ins, i))
  }

  function OwnWrites(ins: L.Inputs, i: nat, n: nat): seq<L.Write>
    requires i < |ins| && n <= |ins[i].relText|
  {
    L.WritesIn(ins, i, ins[i].relText, L.TextBase(ins, i), L.TextOff(ins, i), n)
  }

  // ----- The part of one input in the merged text -----

  function Region(s: seq<Byte>, at: nat, n: nat): (r: seq<Byte>)
    requires at + n <= |s|
    ensures |r| == n
  {
    s[at..at + n]
  }

  lemma {:induction false} RegionWrite(s: seq<Byte>, at: nat, n: nat, p: nat, b: seq<Byte>)
    requires at + n <= |s| && p + |b| <= n
    ensures Region(WriteAt(s, at + p, b), at, n) == WriteAt(Region(s, at, n), p, b)
  {
  }

  lemma {:induction false} RegionKept(s: seq<Byte>, at: nat, n: nat, w: L.Write)
    requires at + n <= |s| && (w.at + |w.bytes| <= at || at + n <= w.at)
    ensures Region(L.Stored(s, w), at, n) == Region(s, at, n)
  {
  }

  /** The stores of another input leave a part alone. */
  lemma {:induction false} OthersKeep(ins: L.Inputs, i: nat, j: nat, s: seq<Byte>, n: nat)
    requires i < |ins| && j < |ins| && i != j && OwnParts(ins) && n <= |ins[j].relText|
    requires |s| == L.TextSize(ins) && L.TextOff(ins, i) + |ins[i].text| <= |s|
    ensures Region(L.AllStored(s, OwnWrites(ins, j, n)), L.TextOff(ins, i), |ins[i].text|)
         == Region(s, L.TextOff(ins, i), |ins[i].text|)
    decreases n
  {
    hide L.WriteOf, L.Stored, Region, L.TextOff, L.TextSize;
    if n > 0 {
      OthersKeep(ins, i, j, s, n - 1);
      P.WriteListed(ins, j, ins[j].relText, L.TextBase(ins, j), L.TextOff(ins, j), n, n - 1);
      var w := TextWrite(ins, j, n - 1);
      P.StoreNext(s, OwnWrites(ins, j, n - 1), w);
      assert OwnWrite(ins, j, n - 1);
      PartsApart(ins, i, j);
      RegionKept(L.AllStored(s, OwnWrites(ins, j, n - 1)), L.TextOff(ins, i), |ins[i].text|, w);
    } else {
      NoOwn(ins, j, s);
    }
  }

  lemma {:induction false} NoOwn(ins: L.Inputs, i: nat, s: seq<Byte>)
    requires i < |ins|
    ensures L.AllStored(s, OwnWrites(ins, i, 0)) == s
  {
  }

  lemma {:induction false} PartsApart(ins: L.Inputs, i: nat, j: nat)
    requires i < |ins| && j < |ins| && i != j
    ensures L.TextOff(ins, i) + |ins[i].text| <= L.TextOff(ins, j) || L.TextOff(ins, j) + |ins[j].text| <= L.TextOff(ins, i)
  {
    hide L.Offset;
    if i < j { P.OffsetsGrow(L.Sizes(L.Texts(ins)), 16, i, j); } else { P.OffsetsGrow(L.Sizes(L.Texts(ins)), 16, j, i); }
  }

  lemma {:induction false} PartInside(ins: L.Inputs, i: nat)
    requires i < |ins|
    ensures L.TextOff(ins, i) + |ins[i].text| <= L.TextSize(ins)
  {
    hide L.Offset;
    P.OffsetsGrow(L.Sizes(L.Texts(ins)), 16, i, |ins|);
  }

  /** The linker's stores into the program's own part are its call relocations. */
  lemma {:induction false} OwnCalls(ins: L.Inputs, i: nat, p: Program, s: seq<Byte>, n: nat)
    requires i < |ins| && IsObjectOf(ins, i, p) && n <= |ins[i].relText|
    requires |s| == L.TextSize(ins) && L.TextOff(ins, i) + |ins[i].text| <= |s|
    ensures Region(L.AllStored(s, OwnWrites(ins, i, n)), L.TextOff(ins, i), |ins[i].text|)
         == ApplyCalls(Region(s, L.TextOff(ins, i), |ins[i].text|), ProgramCalls(p, |p|)[..n], Starts_(p))
    decreases n
  {
    hide L.AllStored, L.TextOff, L.TextSize, L.TextBase, Region, ProgramCalls, L.SymValue, Starts_, Text, OwnWrites, ApplyCalls,
      IsObjectOf, L.Stored;
    var at, size, calls, entry := L.TextOff(ins, i), |ins[i].text|, ProgramCalls(p, |p|), Starts_(p);
    ObjectCalls(ins, i, p);
    if n == 0 {
      NoOwn(ins, i, s);
      NoCalls(Region(s, at, size), entry);
      assert calls[..0] == [];
    } else {
      var k := n - 1;
      OwnCalls(ins, i, p, s, k);
      var before := L.AllStored(s, OwnWrites(ins, i, k));
      NextOwn(ins, i, s, k);
      OwnCall(ins, i, p, before, k);
      assert calls[..n] == calls[..k] + [calls[k]];
      CallsThen(Region(s, at, size), calls[..k], [calls[k]], entry);
    }
  }

  lemma {:induction false} ObjectCalls(ins: L.Inputs, i: nat, p: Program)
    requires i < |ins| && IsObjectOf(ins, i, p)
    ensures |ins[i].relText| == |ProgramCalls(p, |p|)|
    ensures forall k :: 0 <= k < |ProgramCalls(p, |p|)| ==> IsCall(ins, i, p, k)
  {
    hide ProgramCalls, IsCall;
    var calls := ProgramCalls(p, |p|);
    forall k | 0 <= k < |calls| ensures IsCall(ins, i, p, k) { var c := calls[k]; }
  }

  /** One call relocation in the program's part. */
  lemma {:induction false} OwnCall(ins: L.Inputs, i: nat, p: Program, s: seq<Byte>, k: nat)
    requires i < |ins| && k < |ins[i].relText| && k < |ProgramCalls(p, |p|)| && IsCall(ins, i, p, k)
    requires L.TextOff(ins, i) + |ins[i].text| <= |s|
    ensures Region(L.Stored(s, TextWrite(ins, i, k)), L.TextOff(ins, i), |ins[i].text|)
         == ApplyCalls(Region(s, L.TextOff(ins, i), |ins[i].text|), [ProgramCalls(p, |p|)[k]], Starts_(p))
  {
    hide L.TextOff, L.TextBase, ProgramCalls, L.SymValue, LE4, ApplyCalls, Region, WriteAt, Start;
    var at, size, entry := L.TextOff(ins, i), |ins[i].text|, Starts_(p);
    var c := ProgramCalls(p, |p|)[k];
    CallWrite(ins, i, p, k);
    RegionWrite(s, at, size, c.at, LE4(Start(p, c.fn) - 4 - c.at));
    OneCall(Region(s, at, size), c, entry);
  }

  lemma {:induction false} NextOwn(ins: L.Inputs, i: nat, s: seq<Byte>, k: nat)
    requires i < |ins| && k < |ins[i].relText|
    ensures L.AllStored(s, OwnWrites(ins, i, k + 1)) == L.Stored(L.AllStored(s, OwnWrites(ins, i, k)), TextWrite(ins, i, k))
  {
    hide L.WriteOf, L.Stored, L.TextOff, L.TextBase;
    P.StoreNext(s, OwnWrites(ins, i, k), TextWrite(ins, i, k));
  }

  lemma {:induction false} OneCall(s: seq<Byte>, c: CallReloc, entry: seq<int>)
    ensures ApplyCalls(s, [c], entry) == ApplyCall(s, c, entry)
  {
    NoCalls(ApplyCall(s, c, entry), entry);
  }

  /** S + A - P for a call: the distance from the end of the field. */
  lemma {:induction false} CallWrite(ins: L.Inputs, i: nat, p: Program, k: nat)
    requires i < |ins| && k < |ins[i].relText| && k < |ProgramCalls(p, |p|)| && IsCall(ins, i, p, k)
    ensures var c := ProgramCalls(p, |p|)[k];
      TextWrite(ins, i, k) == L.Write(L.TextOff(ins, i) + c.at, LE4(Start(p, c.fn) - 4 - c.at))
  {
    hide ProgramCalls, L.SymValue, LE4, L.TextOff, Start;
    U32OfInt(ins[i].relText[k].off);
  }

  /** The part of the program in the merged text, before and after its own relocations. */
  lemma {:induction false} PartAfter(ins: L.Inputs, i: nat, p: Program, n: nat)
    requires i < |ins| && n <= |ins| && IsObjectOf(ins, i, p) && OwnParts(ins)
    requires L.TextOff(ins, i) + |ins[i].text| <= L.TextSize(ins)
    ensures Region(L.AllStored(L.Padded(L.Texts(ins), 16, |ins|), L.TextWrites(ins, n)), L.TextOff(ins, i), |ins[i].text|)
         == if n <= i then ins[i].text else LinkedText(p)
    decreases n
  {
    hide L.AllStored, L.Padded, L.Offset, L.TextBase, Region, L.SymValue, Text, IsObjectOf, OwnParts, L.WritesIn,
      ApplyCalls, ProgramCalls, Starts_;
    var merged := L.Padded(L.Texts(ins), 16, |ins|);
    if n == 0 {
      P.PartSits(L.Texts(ins), 16, i, |ins|);
      FirstRegion(ins, i, merged);
    } else {
      PartAfter(ins, i, p, n - 1);
      var j := n - 1;
      var before := L.AllStored(merged, L.TextWrites(ins, j));
      P.StoreAll(merged, L.TextWrites(ins, j), OwnWrites(ins, j, |ins[j].relText|));
      if j == i {
        OwnCalls(ins, i, p, before, |ins[i].relText|);
        WholeCalls(ins, i, p);
      } else {
        OthersKeep(ins, i, j, before, |ins[j].relText|);
      }
    }
  }

  lemma {:induction false} FirstRegion(ins: L.Inputs, i: nat, merged: seq<Byte>)
    requires i < |ins| && Sits(merged, L.TextOff(ins, i), ins[i].text)
    ensures L.TextOff(ins, i) + |ins[i].text| <= |merged|
    ensures Region(L.AllStored(merged, []), L.TextOff(ins, i), |ins[i].text|) == ins[i].text
  {
    hide L.TextOff;
  }

  lemma {:induction false} WholeCalls(ins: L.Inputs, i: nat, p: Program)
    requires i < |ins| && IsObjectOf(ins, i, p)
    ensures ApplyCalls(ins[i].text, ProgramCalls(p, |p|)[..|ins[i].relText|], Starts_(p)) == LinkedText(p)
  {
    hide ApplyCalls, ProgramCalls, Starts_, Text;
    var calls := ProgramCalls(p, |p|);
    assert calls[..|calls|] == calls;
    CallsLinked(p, |p|, []);
    assert Text(p, |p|, []) + [] == Text(p, |p|, []);
    assert Text(p, |p|, Starts_(p)) + [] == Text(p, |p|, Starts_(p));
  }

  /** The linked program is in the final text, where its object was put. */
  lemma {:induction false} ProgramInText(ins: L.Inputs, i: nat, p: Program)
    requires i < |ins| && IsObjectOf(ins, i, p) && OwnParts(ins)
    ensures Sits(L.FinalText(ins), L.TextOff(ins, i), LinkedText(p))
  {
    hide L.AllStored, L.Padded, L.TextOff, L.TextSize, IsObjectOf, OwnParts, L.TextWrites, LinkedText, L.Texts;
    PartInside(ins, i);
    PartAfter(ins, i, p, |ins|);
    SameSize(ins, i, p);
  }

  lemma {:induction false} SameSize(ins: L.Inputs, i: nat, p: Program)
    requires i < |ins| && IsObjectOf(ins, i, p)
    ensures |ins[i].text| == |LinkedText(p)|
  {
    hide ProgramCalls, IsCall;
  }

  // ----- The loaded program -----

  /** The code the processor sees: what loading the file puts at the text addresses. */
  function LoadedText(file: seq<Byte>, n: nat): (s: seq<Byte>)
    ensures |s| == n
  {
    seq(n, i => MemByte(file, i))
  }

  function MemByte(file: seq<Byte>, i: int): Byte { ByteOf(L.LoadedByte(file, L.BASE_ADDR + i)) }

  function ByteOf(f: L.Found): Byte { if f.Some? && 0 <= f.v < 256 then f.v else 0 }

  lemma {:induction false} LoadedTextIs(ins: L.Inputs, entry: string)
    requires P.Linkable(ins, entry)
    ensures LoadedText(P.Output(ins, entry), L.TextSize(ins)) == L.FinalText(ins)
  {
    hide L.LoadedByte, L.Executable, L.FinalText, L.FinalData, L.TextSize, L.Resolve;
    var file, text := P.Output(ins, entry), L.FinalText(ins);
    P.SitsSelf(text);
    P.TextLoaded(ins, entry, 0, text);
    forall i | 0 <= i < |text| ensures LoadedText(file, |text|)[i] == text[i] {
      assert L.LoadedByte(file, L.BASE_ADDR + 0 + i) == L.Some(text[i]);
    }
  }

  /** The whole way: if program p was compiled to an object, the object linked with
      others, and the result loaded, then calling a function of p runs the loaded bytes
      to a return with the value the source gives, and leaves the caller's stack alone. */
  lemma {:induction false} LinkedProgramReturns(ins: L.Inputs, entry: string, i: nat, p: Program, fuel: nat, fn: nat,
                                                vals: seq<int>, m: M)
    requires P.Linkable(ins, entry) && L.TextSize(ins) <= CODE_LIMIT
    requires i < |ins| && IsObjectOf(ins, i, p) && OwnParts(ins)
    requires ProgramFits(p) && CallState(p, L.TextBase(ins, i), fn, vals, m) && |vals| <= p[fn].slots
    requires Meaning(p, fuel, fn, vals).Returned? || Meaning(p, fuel, fn, vals).Normal?
    ensures exists n: nat, m' ::
      Run(ProgOf(LoadedText(P.Output(ins, entry), L.TextSize(ins)), L.BASE_ADDR), m, n) == Next(m')
      && BackAtCaller(m, m', Meaning(p, fuel, fn, vals))
  {
    hide L.FinalText, L.TextSize, LoadedText, ProgOf, Run, BackAtCaller, Meaning, ProgramFits, L.TextOff, IsObjectOf, OwnParts;
    LoadedTextIs(ins, entry);
    ProgramInText(ins, i, p);
    Returns(p, L.FinalText(ins), L.BASE_ADDR, L.TextOff(ins, i), fuel, fn, vals, m);
  }

  /** A source program that never stops keeps the loaded bytes running. */
  lemma {:induction false} LinkedProgramDiverges(ins: L.Inputs, entry: string, i: nat, p: Program, fn: nat,
                                                 vals: seq<int>, m: M, steps: nat)
    requires P.Linkable(ins, entry) && L.TextSize(ins) <= CODE_LIMIT
    requires i < |ins| && IsObjectOf(ins, i, p) && OwnParts(ins)
    requires ProgramFits(p) && CallState(p, L.TextBase(ins, i), fn, vals, m) && |vals| <= p[fn].slots
    requires forall fuel: nat :: Meaning(p, fuel, fn, vals) == Stopped(Timeout)
    ensures Run(ProgOf(LoadedText(P.Output(ins, entry), L.TextSize(ins)), L.BASE_ADDR), m, steps).Next?
  {
    hide L.FinalText, L.TextSize, LoadedText, ProgOf, Run, Meaning, ProgramFits, L.TextOff, IsObjectOf, OwnParts;
    LoadedTextIs(ins, entry);
    ProgramInText(ins, i, p);
    Diverges(p, L.FinalText(ins), L.BASE_ADDR, L.TextOff(ins, i), fn, vals, m, steps);
  }

  /** A division by zero in the source is a divide fault of the loaded bytes. */
  lemma {:induction false} LinkedProgramTraps(ins: L.Inputs, entry: string, i: nat, p: Program, fuel: nat, fn: nat,
                                              vals: seq<int>, m: M)
    requires P.Linkable(ins, entry) && L.TextSize(ins) <= CODE_LIMIT
    requires i < |ins| && IsObjectOf(ins, i, p) && OwnParts(ins)
    requires ProgramFits(p) && CallState(p, L.TextBase(ins, i), fn, vals, m) && |vals| <= p[fn].slots
    requires Meaning(p, fuel, fn, vals) == Stopped(Trap)
    ensures exists n: nat ::
      Run(ProgOf(LoadedText(P.Output(ins, entry), L.TextSize(ins)), L.BASE_ADDR), m, n) == DivideError
  {
    hide L.FinalText, L.TextSize, LoadedText, ProgOf, Run, Meaning, ProgramFits, L.TextOff, IsObjectOf, OwnParts;
    LoadedTextIs(ins, entry);
    ProgramInText(ins, i, p);
    Traps(p, L.FinalText(ins), L.BASE_ADDR, L.TextOff(ins, i), fuel, fn, vals, m);
  }
}
