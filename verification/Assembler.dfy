/** The assembler's emitter: it appends instruction bytes to the code buffer and
    patches jumps to numbered local labels. */
module Assembler {
  import opened Bytes
  import opened Words
  import opened Encoder

  /** A one-byte field at pos that waits for label n. */
  datatype Fixup = Fixup(n: nat, pos: nat)

  const MAX_LABELS: nat := 2048
  const MAX_FIXUPS: nat := 32

  /** How many fixups wait for label n. */
  function Waiting(fs: seq<Fixup>, n: nat): nat
  {
    if fs == [] then 0 else Waiting(fs[..|fs| - 1], n) + if fs[|fs| - 1].n == n then 1 else 0
  }

  /** The byte that a fixup gets. */
  function Patch(f: Fixup, at: map<nat, nat>, was: Byte): Byte
  {
    if f.n in at then Disp8(at[f.n] - (f.pos + 1)) else was
  }

  /** The code after the first k fixups. */
  function Patched(code: seq<Byte>, fs: seq<Fixup>, at: map<nat, nat>, k: nat): (r: seq<Byte>)
    requires k <= |fs| && forall j :: 0 <= j < |fs| ==> fs[j].pos < |code|
    ensures |r| == |code|
  {
    if k == 0 then code
    else
      var r, f := Patched(code, fs, at, k - 1), fs[k - 1];
      r[f.pos := Patch(f, at, r[f.pos])]
  }

  /** Each fixup's byte is the distance to its label, and no other byte changes. */
  lemma {:induction false} PatchedIs(code: seq<Byte>, fs: seq<Fixup>, at: map<nat, nat>, k: nat, p: nat)
    requires k <= |fs| && (forall j :: 0 <= j < |fs| ==> fs[j].pos < |code|) && p < |code|
    requires forall i, j :: 0 <= i < j < |fs| ==> fs[i].pos != fs[j].pos
    ensures (forall j :: 0 <= j < k ==> fs[j].pos != p) ==> Patched(code, fs, at, k)[p] == code[p]
    ensures forall j :: 0 <= j < k && fs[j].pos == p ==> Patched(code, fs, at, k)[p] == Patch(fs[j], at, code[p])
    decreases k
  {
    hide Patch;
    if k > 0 { PatchedIs(code, fs, at, k - 1, p); }
  }

  predicate IsJump(op: int) { op == 0x75 || op == 0x74 || op == 0xEB }

  /** A short jump at pos - 1 lands on its label exactly when the label is near enough. */
  lemma {:induction false} LandsExactly(op: nat, pos: nat, target: nat, rest: seq<Byte>)
    requires IsJump(op)
    ensures var d := Decode([op, Disp8(target - (pos + 1))] + rest);
      d.Got? && d.i.Jump? && d.i.op == op && (pos + 1 + d.i.disp == target <==> Is8(target - (pos + 1)))
  {
    hide DecodeModRM;
    var v: int := target - (pos + 1);
    assert S8(Disp8(v)) == v <==> Is8(v) by { ExactByte(v); }
  }

  lemma {:induction false} ExactByte(v: int)
    ensures S8(Disp8(v)) == v <==> Is8(v)
  {
    if Is8(v) { ByteRead(v); }
  }

  /** The fields are apart: no field is the opcode of another jump. */
  predicate Apart(fs: seq<Fixup>, size: nat)
  {
    && (forall j :: 0 <= j < |fs| ==> fs[j].pos < size)
    && forall i, j :: 0 <= i < j < |fs| ==> fs[i].pos + 1 < fs[j].pos
  }

  /** After the fixups the jump at fixup j goes to the label that it waits for if and only
      if the distance fits its byte. */
  ghost predicate Lands(code: seq<Byte>, f: Fixup, at: map<nat, nat>, op: int)
    requires 0 < f.pos < |code| && f.n in at
  {
    var d := Decode(code[f.pos - 1..]);
    d.Got? && d.i.Jump? && d.i.op == op && (f.pos + 1 + d.i.disp == at[f.n] <==> Is8(at[f.n] - (f.pos + 1)))
  }

  lemma {:induction false} JumpsLand(code: seq<Byte>, fs: seq<Fixup>, at: map<nat, nat>, j: nat)
    requires Apart(fs, |code|) && j < |fs| && fs[j].pos > 0 && fs[j].n in at && IsJump(code[fs[j].pos - 1])
    ensures Lands(Patched(code, fs, at, |fs|), fs[j], at, code[fs[j].pos - 1])
  {
    hide Patched, Decode, Disp8, Is8;
    var f, r := fs[j], Patched(code, fs, at, |fs|);
    assert forall i :: 0 <= i < |fs| ==> fs[i].pos != f.pos - 1 by {
      assert forall i :: 0 <= i < |fs| ==> (i < j ==> fs[i].pos + 1 < f.pos) && (i > j ==> f.pos + 1 < fs[i].pos);
    }
    PatchedIs(code, fs, at, |fs|, f.pos - 1);
    PatchedIs(code, fs, at, |fs|, f.pos);
    LandsExactly(code[f.pos - 1], f.pos, at[f.n], r[f.pos + 1..]);
    assert r[f.pos - 1..] == [r[f.pos - 1], r[f.pos]] + r[f.pos + 1..];
  }

  lemma {:induction false} Join(a: seq<Byte>, op: Byte, t: seq<Byte>)
    ensures a + [op] + t == a + ([op] + t)
  {
  }

  lemma {:induction false} Join2(a: seq<Byte>, b: seq<Byte>, c: seq<Byte>)
    ensures a + (b + c) == a + b + c
  {
  }

  class Assembler {
    const buf: array<Byte>
    var size: nat
    /** Where the numbered labels are: the last definition counts. */
    var labels: map<nat, nat>
    var fixups: seq<Fixup>

    constructor (capacity: nat)
      ensures Valid() && Code() == [] && labels == map[] && fixups == [] && fresh(buf) && buf.Length == capacity
    {
      buf := new Byte[capacity];
      size, labels, fixups := 0, map[], [];
    }

    /** Fixups are inside the code, at different places. */
    ghost predicate Valid()
      reads `size, `fixups
    {
      size <= buf.Length && Apart(fixups, size)
    }

    ghost function Code(): seq<Byte>
      requires size <= buf.Length
      reads `size, buf
    {
      buf[..size]
    }

    /** One byte; false when the buffer is full. */
    method E1(b: int) returns (ok: bool)
      requires Valid()
      modifies buf, `size
      ensures Valid() && (ok <==> old(size) < buf.Length)
      ensures Code() == if ok then old(Code()) + [b % 256] else old(Code())
    {
      ok := size < buf.Length;
      if ok {
        buf[size] := b % 256;
        size := size + 1;
      }
    }

    method Emit(s: seq<Byte>) returns (ok: bool)
      requires Valid()
      modifies buf, `size
      ensures Valid() && old(size) <= size && (ok <==> old(size) + |s| <= buf.Length)
      ensures ok ==> Code() == old(Code()) + s
    {
      ghost var before := Code();
      var k := 0;
      while k < |s|
        invariant 0 <= k <= |s| && Valid() && size == old(size) + k && Code() == before + s[..k]
      {
        ok := E1(s[k]);
        if !ok { return; }
        k := k + 1;
      }
      assert s[..k] == s;
      ok := true;
    }

    method EmitRex(w: bool, r: nat, x: nat, b: nat) returns (ok: bool)
      requires Valid()
      modifies buf, `size
      ensures Valid() && old(size) <= size
      ensures ok <==> old(size) + |Rex(w, r, x, b)| <= buf.Length
      ensures ok ==> Code() == old(Code()) + Rex(w, r, x, b)
    {
      var rex := 0x40 + (if w then 8 else 0) + (if r >= 8 then 4 else 0) + (if x >= 8 then 2 else 0) + if b >= 8 then 1 else 0;
      ok := true;
      if rex != 0x40 { ok := E1(rex); }
    }

    /** Prefix, opcode and the rest of an instruction. */
    method EmitOp(w: bool, r: nat, x: nat, b: nat, op: Byte, tail: seq<Byte>) returns (ok: bool)
      requires Valid()
      modifies buf, `size
      ensures Valid() && old(size) <= size
      ensures ok <==> old(size) + |Rex(w, r, x, b)| + 1 + |tail| <= buf.Length
      ensures ok ==> Code() == old(Code()) + (Rex(w, r, x, b) + [op] + tail)
    {
      hide Rex;
      ok := EmitRex(w, r, x, b);
      if ok { ok := E1(op); }
      if ok { ok := Emit(tail); }
    }

    /** A displacement of one or four bytes behind ModRM and perhaps SIB. */
    method DispBytes(reg: nat, rm: nat, sib: seq<Byte>, disp: int) returns (m: seq<Byte>)
      ensures m == WithDisp(reg, rm, sib, disp)
    {
      if disp >= -128 && disp < 128 {
        m := [ModRM(1, reg, rm)] + sib + [Disp8(disp)];
      } else {
        m := [ModRM(2, reg, rm)] + sib + LE4(disp);
      }
    }

    /** One instruction. */
    method EncodeInstr(i: Ins) returns (ok: bool)
      requires Valid() && Shaped(i)
      modifies buf, `size
      ensures Valid() && (ok <==> old(size) + |Encode(i)| <= buf.Length)
      ensures ok ==> Code() == old(Code()) + Encode(i)
    {
      hide Encode;
      if i.Load? || i.Store? || i.Lea? || i.LeaIndex? {
        ok := EncodeMemory(i);
      } else if i.Move? || i.MovImm? || i.Small? || i.CallReg? {
        ok := EncodeRegister(i);
      } else {
        ok := EncodeFixed(i);
      }
    }

    /** Loads, stores and addresses. */
    method EncodeMemory(i: Ins) returns (ok: bool)
      requires Valid() && Shaped(i) && (i.Load? || i.Store? || i.Lea? || i.LeaIndex?)
      modifies buf, `size
      ensures Valid() && (ok <==> old(size) + |Encode(i)| <= buf.Length)
      ensures ok ==> Code() == old(Code()) + Encode(i)
    {
      hide Rex, ModRM, LE4, Disp8, WithDisp, LoadOperand, LeaOperand;
      var m;
      match i {
        case Load(plain, disp, base, dst) =>
          m := LoadBytes(plain, disp, base, dst);
          ok := EmitOp(true, dst, 0, base, 0x8B, m);
        case Store(src, base) =>
          m := if base == 4 then [ModRM(0, src, 4)] + RSP_SIB else [ModRM(0, src, base)];
          ok := EmitOp(true, src, 0, base, 0x89, m);
        case Lea(disp, base, dst) =>
          m := LeaBytes(disp, base, dst);
          ok := EmitOp(true, dst, 0, base, 0x8D, m);
        case LeaIndex(disp, base, index, scale, dst) =>
          m := DispBytes(dst, 4, [ModRM(scale, index, base)], disp);
          ok := EmitOp(true, dst, index, base, 0x8D, m);
      }
    }

    /** A register operand, perhaps with an immediate. */
    method EncodeRegister(i: Ins) returns (ok: bool)
      requires Valid() && Shaped(i) && (i.Move? || i.MovImm? || i.Small? || i.CallReg?)
      modifies buf, `size
      ensures Valid() && (ok <==> old(size) + |Encode(i)| <= buf.Length)
      ensures ok ==> Code() == old(Code()) + Encode(i)
    {
      hide Rex, ModRM, LE4, Disp8;
      match i {
        case Move(op, wide, src, dst) =>
          ok := EmitOp(wide, src, 0, dst, op, [ModRM(3, src, dst)]);
          Join(Rex(wide, src, 0, dst), op, [ModRM(3, src, dst)]);
        case MovImm(v, dst) =>
          ok := EmitOp(true, 0, 0, dst, 0xC7, [ModRM(3, 0, dst)] + LE4(v));
          Join(Rex(true, 0, 0, dst), 0xC7, [ModRM(3, 0, dst)] + LE4(v));
          assert [0xC7] + ([ModRM(3, 0, dst)] + LE4(v)) == [0xC7, ModRM(3, 0, dst)] + LE4(v);
          Join2(Rex(true, 0, 0, dst), [0xC7, ModRM(3, 0, dst)], LE4(v));
        case Small(ext, v, dst) =>
          ok := EmitOp(true, 0, 0, dst, 0x83, [ModRM(3, ext, dst), Disp8(v)]);
          Join(Rex(true, 0, 0, dst), 0x83, [ModRM(3, ext, dst), Disp8(v)]);
        case CallReg(r) =>
          ok := EmitOp(false, 0, 0, r, 0xFF, [ModRM(3, 2, r)]);
          Join(Rex(false, 0, 0, r), 0xFF, [ModRM(3, 2, r)]);
      }
    }

    /** Instructions without a REX prefix of their own. */
    method EncodeFixed(i: Ins) returns (ok: bool)
      requires Valid() && Shaped(i)
      requires i.MovByte? || i.CallLabel? || i.Jump? || i.Pop? || i.Push? || i.Syscall? || i.Halt? || i.Return? || i.Nop?
      modifies buf, `size
      ensures Valid() && (ok <==> old(size) + |Encode(i)| <= buf.Length)
      ensures ok ==> Code() == old(Code()) + Encode(i)
    {
      hide LE4, Disp8;
      var s;
      match i {
        case MovByte(imm, dst) => s := [0xB0 + dst, imm];
        case CallLabel => s := [0xE8] + LE4(0);
        case Jump(op, disp) => s := [op, Disp8(disp)];
        case Pop(r) => s := (if r >= 8 then [0x41] else []) + [0x58 + r % 8];
        case Push(r) => s := (if r >= 8 then [0x41] else []) + [0x50 + r % 8];
        case Syscall => s := [0x0F, 0x05];
        case Halt => s := [0xF4];
        case Return => s := [0xC3];
        case Nop => s := [0x90];
      }
      assert s == Encode(i);
      ok := Emit(s);
    }

    method LoadBytes(plain: bool, disp: int, base: nat, reg: nat) returns (m: seq<Byte>)
      ensures m == LoadOperand(plain, disp, base, reg)
    {
      if plain && base == 4 {
        m := [ModRM(0, reg, 4), 0x24];
      } else if !plain {
        if base == 4 {
          m := DispBytes(reg, 4, [0x24], disp);
        } else if disp == 0 {
          m := [ModRM(0, reg, base)];
        } else {
          m := DispBytes(reg, base, [], disp);
        }
      } else if base == 5 {
        m := [ModRM(1, reg, 5), 0];
      } else {
        m := [ModRM(0, reg, base)];
      }
    }

    method LeaBytes(disp: int, base: nat, reg: nat) returns (m: seq<Byte>)
      ensures m == LeaOperand(disp, base, reg)
    {
      if base == 4 {
        m := DispBytes(reg, 4, [0x24], disp);
      } else if disp == 0 && base != 5 {
        m := [ModRM(0, reg, base)];
      } else {
        m := DispBytes(reg, base, [], disp);
      }
    }

    /** A whole list of instructions: its bytes read back as the list. */
    method Assemble(code: seq<Ins>) returns (ok: bool)
      requires Valid() && size == 0 && AllShaped(code)
      modifies buf, `size
      ensures Valid() && (ok ==> Code() == EncodeAll(code))
      ensures ok && (forall k :: 0 <= k < |code| ==> Faithful(code[k])) ==> DecodeAll(Code()) == Instructions(Meanings(code))
    {
      hide Encode, DecodeAll, Meanings, Faithful, Shaped;
      ok := true;
      var k := 0;
      assert code[..0] == [] && code[0..] == code;
      while k < |code|
        invariant 0 <= k <= |code| && Valid() && AllShaped(code[k..]) && EncodeAll(code) == Code() + EncodeAll(code[k..])
      {
        assert code[k..][0] == code[k] && code[k..][1..] == code[k + 1..];
        ghost var before := Code();
        ok := EncodeInstr(code[k]);
        if !ok { return; }
        assert before + (Encode(code[k]) + EncodeAll(code[k + 1..])) == before + Encode(code[k]) + EncodeAll(code[k + 1..]);
        k := k + 1;
      }
      assert code[k..] == [] && Code() + [] == Code();
      if forall k :: 0 <= k < |code| ==> Faithful(code[k]) { StreamReads(code); }
    }

    // ----- Local labels -----

    method DefineLocal(n: nat) returns (ok: bool)
      requires Valid()
      modifies `labels
      ensures Valid() && (ok <==> n < MAX_LABELS)
      ensures labels == if ok then old(labels)[n := size] else old(labels)
    {
      ok := n < MAX_LABELS;
      if ok { labels := labels[n := size]; }
    }

    /** A jump to a label further down: its byte is filled in at the end. */
    method JumpForward(op: Byte, n: nat) returns (ok: bool)
      requires Valid()
      modifies buf, `size, `fixups
      ensures Valid() && (ok ==> Code() == old(Code()) + [op, 0] && fixups == old(fixups) + [Fixup(n, old(size) + 1)])
    {
      ok := E1(op);
      if !ok { return; }
      if n >= MAX_LABELS || Waiting(fixups, n) >= MAX_FIXUPS { return false; }
      var pos := size;
      ok := E1(0);
      if ok { fixups := fixups + [Fixup(n, pos)]; }
    }

    /** A jump to the last definition of a label. */
    method JumpBackward(op: Byte, n: nat) returns (ok: bool)
      requires Valid()
      modifies buf, `size
      ensures Valid()
      ensures ok ==> n in labels && Code() == old(Code()) + [op, Disp8(labels[n] - (old(size) + 2))]
      ensures ok && IsJump(op) ==> Lands(Code(), Fixup(n, old(size) + 1), labels, op)
    {
      hide Decode, Disp8, Is8;
      ghost var before := Code();
      ok := E1(op);
      if !ok { return; }
      if n !in labels { return false; }
      var distance := labels[n] - (size + 1);
      ok := E1(distance);
      DistanceByte(distance);
      if ok {
        assert Code()[|before|..] == [op, Disp8(distance)] + [];
        if IsJump(op) { LandsExactly(op, |before| + 1, labels[n], []); }
      }
    }

    /** Fills in the waiting jumps. */
    method ApplyLocalFixups()
      requires Valid()
      modifies buf
      ensures Valid() && Code() == Patched(old(Code()), fixups, labels, |fixups|)
      ensures forall j :: 0 <= j < |fixups| && fixups[j].pos > 0 && fixups[j].n in labels && IsJump(old(Code())[fixups[j].pos - 1]) ==>
        Lands(Code(), fixups[j], labels, old(Code())[fixups[j].pos - 1])
    {
      hide Patch, Lands;
      ghost var before := Code();
      var k := 0;
      while k < |fixups|
        invariant 0 <= k <= |fixups| && Code() == Patched(before, fixups, labels, k)
      {
        var f := fixups[k];
        PatchIs(f, labels, buf[f.pos]);
        ghost var now := Code();
        if f.n in labels { buf[f.pos] := (labels[f.n] - (f.pos + 1)) % 256; }
        assert Code() == now[f.pos := Patch(f, labels, now[f.pos])];
        k := k + 1;
      }
      forall j | 0 <= j < |fixups| && fixups[j].pos > 0 && fixups[j].n in labels && IsJump(before[fixups[j].pos - 1])
        ensures Lands(Code(), fixups[j], labels, before[fixups[j].pos - 1])
      {
        JumpsLand(before, fixups, labels, j);
      }
    }
  }

  lemma {:induction false} PatchIs(f: Fixup, at: map<nat, nat>, was: Byte)
    ensures Patch(f, at, was) == if f.n in at then (at[f.n] - (f.pos + 1)) % 256 else was
  {
  }

  lemma {:induction false} DistanceByte(v: int)
    ensures Disp8(v) == v % 256
  {
  }
}
