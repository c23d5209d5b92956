/** Code trees as bytes: what is emitted at once, what is patched in later, and
    that the bytes decode to the tree. */
module Emission {
  import opened Bytes
  import opened Words
  import opened X86
  import opened CSource
  import opened CodeGen
  import opened Blocks

  /** A label definition: its number and the offset it marks. */
  datatype Def = Def(id: int, at: int)

  /** A jump to be patched: its label, the offset of its opcode, and its form. */
  datatype Fixup = Fixup(target: int, at: nat, isJmp: bool)

  /** A call to be relocated: the offset of its field (type PLT32, addend -4). */
  datatype CallReloc = CallReloc(at: nat, fn: nat)

  /** The offset of the first definition of id, or -1. */
  function Lookup(labels: seq<Def>, id: int): int
  {
    if labels == [] then -1
    else if labels[0].id == id then labels[0].at
    else Lookup(labels[1..], id)
  }

  const PLACE_JMP: int := 0x4433_2211
  const PLACE_JCC: int := -0x7788_99AB   // the bytes 55 66 77 88

  /** The bytes that emitting c at offset pos appends, when labels are the
      definitions seen so far. */
  function Raw(c: Code, pos: nat, labels: seq<Def>): (s: seq<Byte>)
    ensures |s| == Size(c)
  {
    match c
    case Nil => []
    case I(i) => LenIsLength(i); Encode(i)
    case JmpL(l) =>
      var off := Lookup(labels, l);
      Encode(Jmp(if off >= 0 then off - (pos + 5) else PLACE_JMP))
    case JccL(cc, l) =>
      var off := Lookup(labels, l);
      Encode(Jcc(cc, if off >= 0 then off - (pos + 6) else PLACE_JCC))
    case Lab(_) => []
    case CallF(_) => Encode(CallRel(PLACE_JMP))
    case Cat(a, b) => Raw(a, pos, labels) + Raw(b, pos + Size(a), labels + Labs(a, pos))
  }

  /** The labels that c defines. */
  function Labs(c: Code, pos: nat): (s: seq<Def>)
    ensures forall i :: 0 <= i < |s| ==> s[i].at >= 0
  {
    match c
    case Lab(l) => [Def(l, pos)]
    case Cat(a, b) => Labs(a, pos) + Labs(b, pos + Size(a))
    case _ => []
  }

  /** The jumps whose labels are not known yet. */
  function Fixes(c: Code, pos: nat, labels: seq<Def>): seq<Fixup>
  {
    match c
    case JmpL(l) => if Lookup(labels, l) >= 0 then [] else [Fixup(l, pos, true)]
    case JccL(_, l) => if Lookup(labels, l) >= 0 then [] else [Fixup(l, pos, false)]
    case Cat(a, b) => Fixes(a, pos, labels) + Fixes(b, pos + Size(a), labels + Labs(a, pos))
    case _ => []
  }

  function Calls(c: Code, pos: nat): seq<CallReloc>
  {
    match c
    case CallF(fn) => [CallReloc(pos + 1, fn)]
    case Cat(a, b) => Calls(a, pos) + Calls(b, pos + Size(a))
    case _ => []
  }

  /** The state of the emitter. */
  datatype Emitted = Emitted(bytes: seq<Byte>, labels: seq<Def>, fixups: seq<Fixup>, calls: seq<CallReloc>)

  /** Emitting c in state s. */
  function Emit(c: Code, s: Emitted): Emitted
  {
    var pos := |s.bytes|;
    Emitted(s.bytes + Raw(c, pos, s.labels), s.labels + Labs(c, pos), s.fixups + Fixes(c, pos, s.labels),
            s.calls + Calls(c, pos))
  }

  lemma {:induction false} Regroup<T>(a: seq<T>, b: seq<T>, c: seq<T>)
    ensures a + (b + c) == a + b + c
  {
  }

  /** Emission goes piece by piece. */
  lemma {:induction false} EmitCat(a: Code, b: Code, s: Emitted)
    ensures Emit(Cat(a, b), s) == Emit(b, Emit(a, s))
  {
    hide Encode, Lookup, LE4, Len;
    var pos, mid := |s.bytes|, |s.bytes| + Size(a);
    var known := s.labels + Labs(a, pos);
    Regroup(s.bytes, Raw(a, pos, s.labels), Raw(b, mid, known));
    Regroup(s.labels, Labs(a, pos), Labs(b, mid));
    Regroup(s.fixups, Fixes(a, pos, s.labels), Fixes(b, mid, known));
    Regroup(s.calls, Calls(a, pos), Calls(b, mid));
  }

  // ----- Fixups -----

  /** v written over the four bytes at p. */
  function Patch(s: seq<Byte>, p: nat, v: int): (r: seq<Byte>)
    requires p + 4 <= |s|
    ensures |r| == |s|
  {
    WriteAt(s, p, LE4(v))
  }

  function FieldAt(f: Fixup): nat { if f.isJmp then f.at + 1 else f.at + 2 }

  /** One fixup: the displacement from the end of the jump, if the label is known. */
  function ApplyFixup(s: seq<Byte>, f: Fixup, labels: seq<Def>): (r: seq<Byte>)
    ensures |r| == |s|
  {
    var off := Lookup(labels, f.target);
    if off < 0 || FieldAt(f) + 4 > |s| then s else Patch(s, FieldAt(f), off - (FieldAt(f) + 4))
  }

  function ApplyFixups(s: seq<Byte>, fs: seq<Fixup>, labels: seq<Def>): (r: seq<Byte>)
    ensures |r| == |s|
    decreases |fs|
  {
    if fs == [] then s else ApplyFixups(ApplyFixup(s, fs[0], labels), fs[1..], labels)
  }

  lemma {:induction false} FixupsThen(s: seq<Byte>, f: seq<Fixup>, g: seq<Fixup>, labels: seq<Def>)
    ensures ApplyFixups(s, f + g, labels) == ApplyFixups(ApplyFixups(s, f, labels), g, labels)
    decreases |f|
  {
    if f == [] {
      assert f + g == g;
    } else {
      assert (f + g)[1..] == f[1..] + g;
      FixupsThen(ApplyFixup(s, f[0], labels), f[1..], g, labels);
    }
  }

  /** The bytes of c with every jump resolved against all labels and every call
      against the entry offsets.  What is never defined keeps its placeholder. */
  function Final(c: Code, pos: nat, all: seq<Def>, entry: seq<int>): (s: seq<Byte>)
    ensures |s| == Size(c)
  {
    match c
    case Nil => []
    case I(i) => LenIsLength(i); Encode(i)
    case JmpL(l) =>
      var off := Lookup(all, l);
      Encode(Jmp(if off >= 0 then off - (pos + 5) else PLACE_JMP))
    case JccL(cc, l) =>
      var off := Lookup(all, l);
      Encode(Jcc(cc, if off >= 0 then off - (pos + 6) else PLACE_JCC))
    case Lab(_) => []
    case CallF(fn) => Encode(CallRel(if fn < |entry| then entry[fn] - (pos + 5) else PLACE_JMP))
    case Cat(a, b) => Final(a, pos, all, entry) + Final(b, pos + Size(a), all, entry)
  }

  /** A label found early is found at the same place later. */
  lemma {:induction false} LookupPrefix(labels: seq<Def>, more: seq<Def>, id: int)
    requires Lookup(labels, id) >= 0
    ensures Lookup(labels + more, id) == Lookup(labels, id)
    decreases |labels|
  {
    if labels[0].id != id {
      assert (labels + more)[1..] == labels[1..] + more;
      LookupPrefix(labels[1..], more, id);
    }
  }

  /** Patching one field between unchanged parts. */
  lemma {:induction false} PatchMiddle(pre: seq<Byte>, head: seq<Byte>, old_: int, post: seq<Byte>, v: int)
    ensures Patch(pre + (head + LE4(old_)) + post, |pre| + |head|, v) == pre + (head + LE4(v)) + post
  {
    hide LE4;
    var s := pre + (head + LE4(old_)) + post;
    var p := |pre| + |head|;
    assert s[..p] == pre + head;
    assert s[p + 4..] == post;
  }

  lemma {:induction false} Prefixes<T>(a: seq<T>, b: seq<T>, all: seq<T>)
    requires a + b <= all
    ensures a <= all
  {
    assert a == (a + b)[..|a|];
  }

  lemma {:induction false} Around(pre: seq<Byte>, a: seq<Byte>, b: seq<Byte>, post: seq<Byte>)
    ensures pre + (a + b) + post == pre + a + (b + post) && pre + (a + b) + post == (pre + a) + b + post
  {
  }

  lemma {:induction false} NoFixups(s: seq<Byte>, labels: seq<Def>)
    ensures ApplyFixups(s, [], labels) == s
  {
  }

  lemma {:induction false} OneFixup(s: seq<Byte>, f: Fixup, labels: seq<Def>)
    ensures ApplyFixups(s, [f], labels) == ApplyFixup(s, f, labels)
  {
    NoFixups(ApplyFixup(s, f, labels), labels);
  }

  /** Backpatching is exact: applying the fixups of c to its raw bytes gives its
      final bytes and changes nothing around them. */
  lemma {:induction false} Backpatch(c: Code, pre: seq<Byte>, post: seq<Byte>, known: seq<Def>, all: seq<Def>)
    requires known + Labs(c, |pre|) <= all
    ensures ApplyFixups(pre + Raw(c, |pre|, known) + post, Fixes(c, |pre|, known), all) == pre + Final(c, |pre|, all, []) + post
    decreases c
  {
    hide LE4, Encode, Lookup, Len, ApplyFixups;
    var pos := |pre|;
    if c.Nil? || c.I? || c.Lab? || c.CallF? { NoFixups(pre + Raw(c, pos, known) + post, all); }
    match c {
      case Cat(a, b) =>
        var known1 := known + Labs(a, pos);
        Regroup(known, Labs(a, pos), Labs(b, pos + Size(a)));
        Prefixes(known1, Labs(b, pos + Size(a)), all);
        var ra, rb := Raw(a, pos, known), Raw(b, pos + Size(a), known1);
        Backpatch(a, pre, rb + post, known, all);
        Backpatch(b, pre + Final(a, pos, all, []), post, known1, all);
        FixupsThen(pre + (ra + rb) + post, Fixes(a, pos, known), Fixes(b, pos + Size(a), known1), all);
        Around(pre, ra, rb, post);
        Around(pre, Final(a, pos, all, []), rb, post);
        Around(pre, Final(a, pos, all, []), Final(b, pos + Size(a), all, []), post);
      case JmpL(l) => BackpatchJump(c, pre, post, known, all);
      case JccL(_, l) => BackpatchJump(c, pre, post, known, all);
      case Nil =>
      case I(_) =>
      case Lab(_) =>
      case CallF(_) =>
    }
  }

  lemma {:induction false} BackpatchJump(c: Code, pre: seq<Byte>, post: seq<Byte>, known: seq<Def>, all: seq<Def>)
    requires (c.JmpL? || c.JccL?) && known <= all
    ensures ApplyFixups(pre + Raw(c, |pre|, known) + post, Fixes(c, |pre|, known), all) == pre + Final(c, |pre|, all, []) + post
  {
    hide LE4, ApplyFixups;
    var pos := |pre|;
    NoFixups(pre + Raw(c, pos, known) + post, all);
    if Lookup(known, c.l) >= 0 {
      assert known + all[|known|..] == all;
      LookupPrefix(known, all[|known|..], c.l);
    } else {
      var off := Lookup(all, c.l);
      var f := Fixup(c.l, pos, c.JmpL?);
      assert Fixes(c, pos, known) == [f];
      var s := pre + Raw(c, pos, known) + post;
      OneFixup(s, f, all);
      if off >= 0 {
        var head: seq<Byte> := if c.JmpL? then [0xE9] else [0x0F, 0x80 + CcNibble(c.cc)];
        var place := if c.JmpL? then PLACE_JMP else PLACE_JCC;
        assert Raw(c, pos, known) == head + LE4(place);
        PatchMiddle(pre, head, place, post, off - (FieldAt(f) + 4));
      }
    }
  }

  // ----- Call relocations -----

  /** One call relocation: S + A - P with A = -4, for functions that are known. */
  function ApplyCall(s: seq<Byte>, r: CallReloc, entry: seq<int>): (t: seq<Byte>)
    ensures |t| == |s|
  {
    if r.fn < |entry| && r.at + 4 <= |s| then Patch(s, r.at, entry[r.fn] - 4 - r.at) else s
  }

  function ApplyCalls(s: seq<Byte>, rs: seq<CallReloc>, entry: seq<int>): (t: seq<Byte>)
    ensures |t| == |s|
    decreases |rs|
  {
    if rs == [] then s else ApplyCalls(ApplyCall(s, rs[0], entry), rs[1..], entry)
  }

  lemma {:induction false} CallsThen(s: seq<Byte>, f: seq<CallReloc>, g: seq<CallReloc>, entry: seq<int>)
    ensures ApplyCalls(s, f + g, entry) == ApplyCalls(ApplyCalls(s, f, entry), g, entry)
    decreases |f|
  {
    if f == [] {
      assert f + g == g;
    } else {
      assert (f + g)[1..] == f[1..] + g;
      CallsThen(ApplyCall(s, f[0], entry), f[1..], g, entry);
    }
  }

  /** Relocation is exact: only the call fields of c change, to the final bytes. */
  lemma {:induction false} Relocate(c: Code, pre: seq<Byte>, post: seq<Byte>, all: seq<Def>, entry: seq<int>)
    ensures ApplyCalls(pre + Final(c, |pre|, all, []) + post, Calls(c, |pre|), entry)
         == pre + Final(c, |pre|, all, entry) + post
    decreases c
  {
    hide LE4, Encode, Lookup, Len, ApplyCalls;
    var pos := |pre|;
    match c {
      case Cat(a, b) =>
        var ra, rb := Final(a, pos, all, []), Final(b, pos + Size(a), all, []);
        var fa, fb := Final(a, pos, all, entry), Final(b, pos + Size(a), all, entry);
        Relocate(a, pre, rb + post, all, entry);
        Relocate(b, pre + fa, post, all, entry);
        CallsThen(pre + (ra + rb) + post, Calls(a, pos), Calls(b, pos + Size(a)), entry);
        Around(pre, ra, rb, post);
        Around(pre, fa, rb, post);
        Around(pre, fa, fb, post);
      case CallF(fn) => RelocateCall(fn, pre, post, all, entry);
      case Nil => NoCalls(pre + [] + post, entry);
      case I(_) => NoCalls(pre + Final(c, pos, all, []) + post, entry);
      case Lab(_) => NoCalls(pre + [] + post, entry);
      case JmpL(_) => NoCalls(pre + Final(c, pos, all, []) + post, entry);
      case JccL(_, _) => NoCalls(pre + Final(c, pos, all, []) + post, entry);
    }
  }

  lemma {:induction false} NoCalls(s: seq<Byte>, entry: seq<int>)
    ensures ApplyCalls(s, [], entry) == s
  {
  }

  lemma {:induction false} RelocateCall(fn: nat, pre: seq<Byte>, post: seq<Byte>, all: seq<Def>, entry: seq<int>)
    ensures ApplyCalls(pre + Final(CallF(fn), |pre|, all, []) + post, Calls(CallF(fn), |pre|), entry)
         == pre + Final(CallF(fn), |pre|, all, entry) + post
  {
    hide LE4;
    var s := pre + Final(CallF(fn), |pre|, all, []) + post;
    var r := CallReloc(|pre| + 1, fn);
    assert ApplyCalls(s, [r], entry) == ApplyCall(s, r, entry) by { NoCalls(ApplyCall(s, r, entry), entry); }
    if fn < |entry| {
      PatchMiddle(pre, [0xE8], PLACE_JMP, post, entry[fn] - 4 - r.at);
    }
  }

  // ----- The bytes as a program -----

  /** What the processor fetches at each address when text is loaded at base. */
  function ProgOf(text: seq<Byte>, base: int): Prog
  {
    map pc: int | base <= pc < base + |text| && Fetch(text, base, pc).Ok? :: Fetch(text, base, pc).i
  }

  function Fetch(text: seq<Byte>, base: int, pc: int): Decoded { Decode(text, pc - base) }

  /** Immediates and displacements fit their fields. */
  predicate Fits(c: Code)
  {
    match c
    case I(i) => Encodable(i)
    case Cat(a, b) => Fits(a) && Fits(b)
    case _ => true
  }

  /** Every jump has a label and every call a function. */
  predicate Closed(c: Code, all: seq<Def>, functions: nat)
  {
    match c
    case JmpL(l) => Lookup(all, l) >= 0
    case JccL(_, l) => Lookup(all, l) >= 0
    case CallF(fn) => fn < functions
    case Cat(a, b) => Closed(a, all, functions) && Closed(b, all, functions)
    case _ => true
  }

  /** Every label of c is found where c defines it. */
  predicate Found(c: Code, pos: nat, all: seq<Def>)
  {
    match c
    case Lab(l) => Lookup(all, l) == pos
    case Cat(a, b) => Found(a, pos, all) && Found(b, pos + Size(a), all)
    case _ => true
  }

  /** v describes text loaded at base; offsets of labels and functions count from org. */
  ghost predicate Describes(v: Env, text: seq<Byte>, base: int, org: nat, all: seq<Def>, entry: seq<int>)
  {
    && v.prog == ProgOf(text, base) && |v.entry| == |entry|
    && (forall fn {:trigger entry[fn]} :: 0 <= fn < |entry| ==> v.entry[fn] == base + org + entry[fn] && 0 <= entry[fn] <= |text|)
    && (forall l {:trigger Lookup(all, l)} :: Lookup(all, l) >= 0 ==>
          l in v.L && v.L[l] == base + org + Lookup(all, l) && Lookup(all, l) <= |text|)
  }

  lemma {:induction false} PlacedInstr(v: Env, text: seq<Byte>, base: int, p: int, i: Instr)
    requires v.prog == ProgOf(text, base) && Sits(text, p, Encode(i)) && Encodable(i)
    ensures base + p in v.prog && v.prog[base + p] == i
  {
    hide Encodable, Decode, Sits;
    DecodeEncode(text, p, i);
    NotEmpty(text, p, i);
  }

  lemma {:induction false} NotEmpty(text: seq<Byte>, p: int, i: Instr)
    requires Sits(text, p, Encode(i))
    ensures 0 <= p < |text|
  {
    LenIsLength(i);
  }

  /** The final bytes of c, loaded, are code c in place. */
  lemma {:induction false} Placed(c: Code, pos: nat, text: seq<Byte>, base: int, org: nat, all: seq<Def>, entry: seq<int>, v: Env)
    requires Sits(text, org + pos, Final(c, pos, all, entry)) && |text| <= 0x4000_0000
    requires Fits(c) && Closed(c, all, |entry|) && Found(c, pos, all) && Describes(v, text, base, org, all, entry)
    ensures Place(v, base + org + pos, c).InPlace?
    decreases c
  {
    hide Encode, Encodable, Lookup, Len, Sits, Decode, ProgOf;
    SitsInside(text, org + pos, Final(c, pos, all, entry));
    match c {
      case Cat(a, b) =>
        SitsParts(text, org + pos, Final(a, pos, all, entry), Final(b, pos + Size(a), all, entry));
        Placed(a, pos, text, base, org, all, entry, v);
        Placed(b, pos + Size(a), text, base, org, all, entry, v);
        assert base + org + (pos + Size(a)) == base + org + pos + Size(a);
      case I(i) => PlacedInstr(v, text, base, org + pos, i);
      case JmpL(l) =>
        FitsJump(Jmp(Lookup(all, l) - (pos + 5)));
        PlacedInstr(v, text, base, org + pos, Jmp(Lookup(all, l) - (pos + 5)));
      case JccL(cc, l) =>
        FitsJump(Jcc(cc, Lookup(all, l) - (pos + 6)));
        PlacedInstr(v, text, base, org + pos, Jcc(cc, Lookup(all, l) - (pos + 6)));
      case CallF(fn) =>
        FitsJump(CallRel(entry[fn] - (pos + 5)));
        PlacedInstr(v, text, base, org + pos, CallRel(entry[fn] - (pos + 5)));
      case Nil =>
      case Lab(_) =>
    }
  }

  lemma {:induction false} SitsInside(text: seq<Byte>, p: int, s: seq<Byte>)
    requires Sits(text, p, s)
    ensures 0 <= p <= |text|
  {
  }

  lemma {:induction false} FitsJump(i: Instr)
    requires i.Jmp? || i.Jcc? || i.CallRel?
    requires IsInt(i.disp)
    ensures Encodable(i)
  {
  }
}
