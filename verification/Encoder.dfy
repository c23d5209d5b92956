/** The assembler's instruction encoder, checked against a decoder of REX, ModRM and
    SIB bytes (sections 2.1.3 and 2.2.1 of the Intel SDM, volume 2A). */
module Encoder {
  import opened Bytes
  import opened Words

  /** Registers are numbered 0 to 15.  plain marks a load without a displacement. */
  datatype Ins =
    | Move(op: nat, wide: bool, src: nat, dst: nat)
    | MovImm(v: int, dst: nat)
    | Small(ext: nat, v: int, dst: nat)
    | MovByte(imm: nat, dst: nat)
    | Load(plain: bool, disp: int, base: nat, dst: nat)
    | Store(src: nat, base: nat)
    | Lea(disp: int, base: nat, dst: nat)
    | LeaIndex(disp: int, base: nat, index: nat, scale: nat, dst: nat)
    | CallLabel
    | CallReg(r: nat)
    | Jump(op: nat, disp: int)
    | Pop(r: nat)
    | Push(r: nat)
    | Syscall
    | Halt
    | Return
    | Nop

  predicate IsReg(r: nat) { r < 16 }

  predicate Is8(v: int) { -128 <= v < 128 }

  /** What the operand parser can hand over.  An operand with a SIB byte always names an
      index register there, so the encoder's case for a missing one does not arise. */
  predicate Shaped(i: Ins)
  {
    match i
    case Move(op, _, s, d) => (op == 0x89 || op == 0x31 || op == 0x85) && IsReg(s) && IsReg(d)
    case MovImm(v, d) => IsInt(v) && IsReg(d)
    case Small(ext, v, d) => (ext == 4 || ext == 5) && IsInt(v) && IsReg(d)
    case MovByte(v, d) => v < 256 && d < 8
    case Load(plain, disp, b, d) => IsInt(disp) && IsReg(b) && IsReg(d) && (plain ==> disp == 0)
    case Store(s, b) => IsReg(s) && IsReg(b)
    case Lea(disp, b, d) => IsInt(disp) && IsReg(b) && IsReg(d)
    case LeaIndex(disp, b, x, sc, d) => IsInt(disp) && IsReg(b) && IsReg(x) && IsReg(d) && sc < 4
    case CallReg(r) => IsReg(r)
    case Jump(op, disp) => (op == 0x75 || op == 0x74 || op == 0xEB) && Is8(disp)
    case Pop(r) => IsReg(r)
    case Push(r) => IsReg(r)
    case _ => true
  }

  // ----- Encoding -----

  function Low(r: nat): nat { r % 8 }

  function Bit(b: bool): nat { if b then 1 else 0 }

  function ModRM(mod: nat, reg: nat, rm: nat): (b: Byte)
    requires mod < 4
    ensures b / 64 == mod && b / 8 % 8 == reg % 8 && b % 8 == rm % 8
  {
    64 * mod + 8 * (reg % 8) + rm % 8
  }

  /** A REX prefix, unless it would say nothing. */
  function Rex(w: bool, r: nat, x: nat, b: nat): seq<Byte>
  {
    var v := 8 * Bit(w) + 4 * Bit(r >= 8) + 2 * Bit(x >= 8) + Bit(b >= 8);
    if v == 0 then [] else [0x40 + v]
  }

  function Disp8(v: int): Byte { v % 256 }

  /** ModRM with a displacement of the size it needs; rm 4 takes the SIB byte along. */
  function WithDisp(reg: nat, rm: nat, sib: seq<Byte>, disp: int): seq<Byte>
  {
    if Is8(disp) then [ModRM(1, reg, rm)] + sib + [Disp8(disp)] else [ModRM(2, reg, rm)] + sib + LE4(disp)
  }

  /** The SIB byte for a base of rsp alone. */
  const RSP_SIB: seq<Byte> := [0x24]

  function LoadOperand(plain: bool, disp: int, base: nat, reg: nat): seq<Byte>
  {
    if plain then
      if base == 4 then [ModRM(0, reg, 4)] + RSP_SIB
      else if base == 5 then [ModRM(1, reg, 5), 0]
      else [ModRM(0, reg, base)]
    else if base == 4 then WithDisp(reg, 4, RSP_SIB, disp)
    else if disp == 0 then [ModRM(0, reg, base)]
    else WithDisp(reg, base, [], disp)
  }

  function StoreOperand(base: nat, reg: nat): seq<Byte>
  {
    if base == 4 then [ModRM(0, reg, 4)] + RSP_SIB else [ModRM(0, reg, base)]
  }

  function LeaOperand(disp: int, base: nat, reg: nat): seq<Byte>
  {
    if base == 4 then WithDisp(reg, 4, RSP_SIB, disp)
    else if disp == 0 && base != 5 then [ModRM(0, reg, base)]
    else WithDisp(reg, base, [], disp)
  }

  function Encode(i: Ins): (s: seq<Byte>)
    requires Shaped(i)
  {
    match i
    case Move(op, wide, src, dst) => Rex(wide, src, 0, dst) + [op, ModRM(3, src, dst)]
    case MovImm(v, dst) => Rex(true, 0, 0, dst) + [0xC7, ModRM(3, 0, dst)] + LE4(v)
    case Small(ext, v, dst) => Rex(true, 0, 0, dst) + [0x83, ModRM(3, ext, dst), Disp8(v)]
    case MovByte(v, dst) => [0xB0 + dst, v]
    case Load(plain, disp, base, dst) => Rex(true, dst, 0, base) + [0x8B] + LoadOperand(plain, disp, base, dst)
    case Store(src, base) => Rex(true, src, 0, base) + [0x89] + StoreOperand(base, src)
    case Lea(disp, base, dst) => Rex(true, dst, 0, base) + [0x8D] + LeaOperand(disp, base, dst)
    case LeaIndex(disp, base, index, scale, dst) =>
      Rex(true, dst, index, base) + [0x8D] + WithDisp(dst, 4, [ModRM(scale, index, base)], disp)
    case CallLabel => [0xE8] + LE4(0)
    case CallReg(r) => Rex(false, 0, 0, r) + [0xFF, ModRM(3, 2, r)]
    case Jump(op, disp) => [op, Disp8(disp)]
    case Pop(r) => (if r >= 8 then [0x41] else []) + [0x58 + Low(r)]
    case Push(r) => (if r >= 8 then [0x41] else []) + [0x50 + Low(r)]
    case Syscall => [0x0F, 0x05]
    case Halt => [0xF4]
    case Return => [0xC3]
    case Nop => [0x90]
  }

  // ----- Decoding -----

  /** The REX bits; w is the operand size. */
  datatype Prefix = Prefix(w: bool, r: nat, x: nat, b: nat)

  datatype Operand = Memory(disp: int, base: nat, index: nat, scale: nat, len: nat) | Register(r: nat) | Bad

  datatype Decoded = Got(i: Ins, len: nat) | Fail

  const NO_INDEX: nat := 4

  function Displacement(s: seq<Byte>, p: nat, mod: nat): (d: int)
    requires mod < 3 && p + (if mod == 0 then 0 else if mod == 1 then 1 else 4) <= |s|
  {
    if mod == 0 then 0 else if mod == 1 then S8(s[p]) else S32(Join4(s[p], s[p + 1], s[p + 2], s[p + 3]))
  }

  /** The operand of the ModRM byte at p. */
  function DecodeOperand(s: seq<Byte>, p: nat, x: Prefix): Operand
  {
    if p >= |s| then Bad
    else
      var mod, rm := s[p] / 64, s[p] % 8;
      var size := if mod == 1 then 1 else if mod == 2 then 4 else 0;
      if mod == 3 then Register(rm + 8 * x.b)
      else if rm == 4 then
        if p + 2 + size > |s| || (mod == 0 && s[p + 1] % 8 == 5) then Bad
        else Memory(Displacement(s, p + 2, mod), s[p + 1] % 8 + 8 * x.b, s[p + 1] / 8 % 8 + 8 * x.x, s[p + 1] / 64, 2 + size)
      else if (mod == 0 && rm == 5) || p + 1 + size > |s| then Bad
      else Memory(Displacement(s, p + 1, mod), rm + 8 * x.b, NO_INDEX, 0, 1 + size)
  }

  function RegField(b: Byte, x: Prefix): nat { b / 8 % 8 + 8 * x.r }

  /** An instruction from its opcode on, with the prefix in front of it. */
  function DecodeAfter(s: seq<Byte>, x: Prefix): Decoded
  {
    if s == [] then Fail
    else
      var op := s[0];
      if op == 0x0F then if |s| > 1 && s[1] == 0x05 then Got(Syscall, 2) else Fail
      else if op == 0xF4 then Got(Halt, 1)
      else if op == 0xC3 then Got(Return, 1)
      else if op == 0x90 then Got(Nop, 1)
      else if 0x50 <= op < 0x58 then Got(Push(op - 0x50 + 8 * x.b), 1)
      else if 0x58 <= op < 0x60 then Got(Pop(op - 0x58 + 8 * x.b), 1)
      else if op == 0x75 || op == 0x74 || op == 0xEB then if |s| > 1 then Got(Jump(op, S8(s[1])), 2) else Fail
      else if op == 0xE8 then if |s| >= 5 then Got(CallLabel, 5) else Fail
      else if 0xB0 <= op < 0xB4 then if |s| > 1 then Got(MovByte(s[1], op - 0xB0), 2) else Fail
      else if |s| < 2 then Fail
      else DecodeModRM(s, x)
  }

  /** Instructions with an operand. */
  function DecodeModRM(s: seq<Byte>, x: Prefix): Decoded
    requires |s| >= 2
  {
    var op, reg, ext := s[0], RegField(s[1], x), s[1] / 8 % 8;
    match DecodeOperand(s, 1, x)
    case Bad => Fail
    case Register(r) => OnRegister(s, op, reg, ext, r, x.w)
    case Memory(disp, base, index, scale, len) =>
      if !x.w then Fail
      else if op == 0x8B && index == NO_INDEX then Got(Load(false, disp, base, reg), 1 + len)
      else if op == 0x89 && index == NO_INDEX && disp == 0 then Got(Store(reg, base), 1 + len)
      else if op == 0x8D && index == NO_INDEX then Got(Lea(disp, base, reg), 1 + len)
      else if op == 0x8D then Got(LeaIndex(disp, base, index, scale, reg), 1 + len)
      else Fail
  }

  function OnRegister(s: seq<Byte>, op: nat, reg: nat, ext: nat, r: nat, w: bool): Decoded
    requires |s| >= 2
  {
    if op == 0x89 || op == 0x31 || op == 0x85 then Got(Move(op, w, reg, r), 2)
    else if op == 0xC7 && ext == 0 && w && |s| >= 6 then Got(MovImm(S32(Join4(s[2], s[3], s[4], s[5])), r), 6)
    else if op == 0x83 && (ext == 4 || ext == 5) && w && |s| >= 3 then Got(Small(ext, S8(s[2]), r), 3)
    else if op == 0xFF && ext == 2 then Got(CallReg(r), 2)
    else Fail
  }

  function Longer(d: Decoded): Decoded { if d.Got? then Got(d.i, d.len + 1) else d }

  /** The first instruction of s. */
  function Decode(s: seq<Byte>): Decoded
  {
    if s != [] && 0x40 <= s[0] < 0x50 then
      Longer(DecodeAfter(s[1..], Prefix(s[0] / 8 % 2 == 1, s[0] / 4 % 2, s[0] / 2 % 2, s[0] % 2)))
    else DecodeAfter(s, Prefix(false, 0, 0, 0))
  }

  // ----- Round trip -----

  /** A decoder cannot tell a missing displacement from zero. */
  function Meaning(i: Ins): Ins { if i.Load? then i.(plain := false) else i }

  /** The operands that the encoder gets right. */
  predicate Faithful(i: Ins)
    requires Shaped(i)
  {
    match i
    case Small(_, v, _) => Is8(v)
    case MovByte(_, d) => d < 4
    case Load(plain, disp, b, _) => b != 12 && !(disp == 0 && (b == 13 || (b == 5 && !plain)))
    case Store(_, b) => b != 5 && b != 12 && b != 13
    case Lea(disp, b, _) => b != 12 && !(disp == 0 && b == 13)
    case LeaIndex(_, _, x, _, _) => x != 4
    case _ => true
  }

  lemma {:induction false} RexRead(w: bool, r: nat, x: nat, b: nat, t: seq<Byte>)
    requires IsReg(r) && IsReg(x) && IsReg(b) && t != [] && !(0x40 <= t[0] < 0x50)
    ensures var rex, d := Rex(w, r, x, b), DecodeAfter(t, Prefix(w, Bit(r >= 8), Bit(x >= 8), Bit(b >= 8)));
      Decode(rex + t) == if d.Got? then Got(d.i, d.len + |rex|) else Fail
  {
    hide DecodeAfter;
    var rex := Rex(w, r, x, b);
    if rex == [] {
      assert rex + t == t;
    } else {
      assert (rex + t)[1..] == t;
    }
  }

  /** The displacement behind a ModRM byte, and a SIB byte if there is one. */
  lemma {:induction false} WordRead(s: seq<Byte>, p: nat, v: int, rest: seq<Byte>)
    requires p <= |s| && s[p..] == LE4(v) + rest && IsInt(v)
    ensures p + 4 <= |s| && S32(Join4(s[p], s[p + 1], s[p + 2], s[p + 3])) == v
  {
    hide Join4, S32;
    var t := s[p..];
    assert s[p] == t[0] && s[p + 1] == t[1] && s[p + 2] == t[2] && s[p + 3] == t[3];
    LE4Sum(v);
    SignedRead(v);
  }

  lemma {:induction false} SignedRead(v: int)
    requires IsInt(v)
    ensures S32(U32(v)) == v
  {
    IsMod32(v);
    if v >= 0 { DivModUnique(v, 0x1_0000_0000, 0, v); } else { DivModUnique(v, 0x1_0000_0000, -1, v + 0x1_0000_0000); }
  }

  lemma {:induction false} ByteRead(v: int)
    requires Is8(v)
    ensures S8(Disp8(v)) == v
  {
  }

  /** An operand with rm 4 and a SIB byte. */
  lemma {:induction false} SibRead(op: Byte, reg: nat, sib: Byte, disp: int, x: Prefix, rest: seq<Byte>)
    requires IsReg(reg) && IsInt(disp)
    ensures var s := [op] + (WithDisp(reg, 4, [sib], disp) + rest);
      && DecodeOperand(s, 1, x)
        == Memory(disp, sib % 8 + 8 * x.b, sib / 8 % 8 + 8 * x.x, sib / 64, |WithDisp(reg, 4, [sib], disp)|)
      && s[1] / 8 % 8 == Low(reg)
  {
    hide S32, Join4, LE4, S8, ModRM;
    var m := WithDisp(reg, 4, [sib], disp);
    var s := [op] + (m + rest);
    assert s[1] == m[0] && s[2] == m[1] == sib;
    if Is8(disp) {
      ByteRead(disp);
      assert s[3] == m[2];
    } else {
      assert s[3..] == LE4(disp) + rest;
      WordRead(s, 3, disp, rest);
    }
  }

  /** An operand with a base register only. */
  lemma {:induction false} BaseRead(op: Byte, reg: nat, rm: nat, disp: int, x: Prefix, rest: seq<Byte>)
    requires IsReg(reg) && IsInt(disp) && rm % 8 != 4
    ensures var s := [op] + (WithDisp(reg, rm, [], disp) + rest);
      && DecodeOperand(s, 1, x) == Memory(disp, Low(rm) + 8 * x.b, NO_INDEX, 0, |WithDisp(reg, rm, [], disp)|)
      && s[1] / 8 % 8 == Low(reg)
  {
    hide S32, Join4, LE4, S8, ModRM;
    var m := WithDisp(reg, rm, [], disp);
    var s := [op] + (m + rest);
    assert s[1] == m[0];
    if Is8(disp) {
      ByteRead(disp);
      assert s[2] == m[1];
    } else {
      assert s[2..] == LE4(disp) + rest;
      WordRead(s, 2, disp, rest);
    }
  }

  /** An operand without a displacement. */
  lemma {:induction false} PlainRead(op: Byte, reg: nat, rm: nat, x: Prefix, rest: seq<Byte>)
    requires IsReg(reg) && rm % 8 != 4 && rm % 8 != 5
    ensures var s := [op] + ([ModRM(0, reg, rm)] + rest);
      DecodeOperand(s, 1, x) == Memory(0, Low(rm) + 8 * x.b, NO_INDEX, 0, 1) && s[1] / 8 % 8 == Low(reg)
  {
    hide ModRM;
    var s := [op] + ([ModRM(0, reg, rm)] + rest);
    assert s[1] == ModRM(0, reg, rm);
  }

  /** The stack pointer as a base. */
  lemma {:induction false} StackRead(op: Byte, reg: nat, x: Prefix, rest: seq<Byte>)
    requires IsReg(reg) && x.b == 0 && x.x == 0
    ensures var s := [op] + ([ModRM(0, reg, 4)] + RSP_SIB + rest);
      DecodeOperand(s, 1, x) == Memory(0, 4, NO_INDEX, 0, 2) && s[1] / 8 % 8 == Low(reg)
  {
    hide ModRM;
    var s := [op] + ([ModRM(0, reg, 4)] + RSP_SIB + rest);
    assert s[1] == ModRM(0, reg, 4) && s[2] == 0x24;
  }

  function PrefixOf(w: bool, r: nat, x: nat, b: nat): Prefix { Prefix(w, Bit(r >= 8), Bit(x >= 8), Bit(b >= 8)) }

  lemma {:induction false} RegRead(r: nat)
    requires IsReg(r)
    ensures Low(r) + 8 * Bit(r >= 8) == r
  {
  }

  /** A memory operand behind its opcode. */
  lemma {:induction false} MemoryRead(op: nat, m: seq<Byte>, rest: seq<Byte>, disp: int, base: nat, index: nat, scale: nat, reg: nat,
                                      x: Prefix)
    requires (op == 0x8B || op == 0x89 || op == 0x8D) && m != [] && x.w && IsReg(reg) && x.r == Bit(reg >= 8)
    requires var s := [op] + (m + rest);
      DecodeOperand(s, 1, x) == Memory(disp, base, index, scale, |m|) && s[1] / 8 % 8 == Low(reg)
    ensures DecodeAfter([op] + (m + rest), x) ==
      if op == 0x8B && index == NO_INDEX then Got(Load(false, disp, base, reg), 1 + |m|)
      else if op == 0x89 && index == NO_INDEX && disp == 0 then Got(Store(reg, base), 1 + |m|)
      else if op == 0x8D && index == NO_INDEX then Got(Lea(disp, base, reg), 1 + |m|)
      else if op == 0x8D then Got(LeaIndex(disp, base, index, scale, reg), 1 + |m|) else Fail
  {
    hide DecodeOperand;
    RegRead(reg);
  }

  lemma {:induction false} LoadReads(i: Ins, rest: seq<Byte>)
    requires i.Load? && Shaped(i) && Faithful(i)
    ensures Decode(Encode(i) + rest) == Got(Meaning(i), |Encode(i)|)
  {
    hide DecodeAfter, DecodeOperand, WithDisp, ModRM, Rex, Decode;
    var m, x := LoadOperand(i.plain, i.disp, i.base, i.dst), PrefixOf(true, i.dst, 0, i.base);
    RegRead(i.base);
    if i.plain && i.base == 4 {
      StackRead(0x8B, i.dst, x, rest);
    } else if i.plain && i.base == 5 {
      FiveZero(i.dst);
      BaseRead(0x8B, i.dst, 5, 0, x, rest);
    } else if i.base == 4 {
      SibRead(0x8B, i.dst, 0x24, i.disp, x, rest);
    } else if i.plain || i.disp == 0 {
      PlainRead(0x8B, i.dst, i.base, x, rest);
    } else {
      BaseRead(0x8B, i.dst, i.base, i.disp, x, rest);
    }
    DispNotEmpty(i.dst, i.base, i.disp);
    MemoryRead(0x8B, m, rest, i.disp, i.base, NO_INDEX, 0, i.dst, x);
    RexRead(true, i.dst, 0, i.base, [0x8B] + (m + rest));
    assert Encode(i) + rest == Rex(true, i.dst, 0, i.base) + ([0x8B] + (m + rest));
  }

  lemma {:induction false} FiveZero(reg: nat)
    ensures WithDisp(reg, 5, [], 0) == [ModRM(1, reg, 5), 0]
  {
  }

  lemma {:induction false} StoreReads(i: Ins, rest: seq<Byte>)
    requires i.Store? && Shaped(i) && Faithful(i)
    ensures Decode(Encode(i) + rest) == Got(Meaning(i), |Encode(i)|)
  {
    hide DecodeAfter, DecodeOperand, WithDisp, ModRM, Rex, Decode;
    var m, x := StoreOperand(i.base, i.src), PrefixOf(true, i.src, 0, i.base);
    RegRead(i.base);
    if i.base == 4 { StackRead(0x89, i.src, x, rest); } else { PlainRead(0x89, i.src, i.base, x, rest); }
    MemoryRead(0x89, m, rest, 0, i.base, NO_INDEX, 0, i.src, x);
    RexRead(true, i.src, 0, i.base, [0x89] + (m + rest));
    assert Encode(i) + rest == Rex(true, i.src, 0, i.base) + ([0x89] + (m + rest));
  }

  lemma {:induction false} LeaReads(i: Ins, rest: seq<Byte>)
    requires i.Lea? && Shaped(i) && Faithful(i)
    ensures Decode(Encode(i) + rest) == Got(Meaning(i), |Encode(i)|)
  {
    hide DecodeAfter, DecodeOperand, WithDisp, ModRM, Rex, Decode;
    var m, x := LeaOperand(i.disp, i.base, i.dst), PrefixOf(true, i.dst, 0, i.base);
    RegRead(i.base);
    if i.base == 4 {
      SibRead(0x8D, i.dst, 0x24, i.disp, x, rest);
    } else if i.disp == 0 && i.base != 5 {
      PlainRead(0x8D, i.dst, i.base, x, rest);
    } else {
      BaseRead(0x8D, i.dst, i.base, i.disp, x, rest);
    }
    DispNotEmpty(i.dst, i.base, i.disp);
    MemoryRead(0x8D, m, rest, i.disp, i.base, NO_INDEX, 0, i.dst, x);
    RexRead(true, i.dst, 0, i.base, [0x8D] + (m + rest));
    assert Encode(i) + rest == Rex(true, i.dst, 0, i.base) + ([0x8D] + (m + rest));
  }

  lemma {:induction false} DispNotEmpty(reg: nat, rm: nat, disp: int)
    ensures forall sib :: |WithDisp(reg, rm, sib, disp)| > 0
  {
  }

  lemma {:induction false} LeaIndexReads(i: Ins, rest: seq<Byte>)
    requires i.LeaIndex? && Shaped(i) && Faithful(i)
    ensures Decode(Encode(i) + rest) == Got(Meaning(i), |Encode(i)|)
  {
    hide DecodeAfter, DecodeOperand, WithDisp, ModRM, Rex, Decode;
    var m, x := WithDisp(i.dst, 4, [ModRM(i.scale, i.index, i.base)], i.disp), PrefixOf(true, i.dst, i.index, i.base);
    RegRead(i.base); RegRead(i.index);
    SibRead(0x8D, i.dst, ModRM(i.scale, i.index, i.base), i.disp, x, rest);
    DispNotEmpty(i.dst, 4, i.disp);
    MemoryRead(0x8D, m, rest, i.disp, i.base, i.index, i.scale, i.dst, x);
    RexRead(true, i.dst, i.index, i.base, [0x8D] + (m + rest));
    assert Encode(i) + rest == Rex(true, i.dst, i.index, i.base) + ([0x8D] + (m + rest));
  }

  /** A register operand behind its opcode. */
  lemma {:induction false} RegisterRead(op: Byte, reg: nat, rm: nat, x: Prefix, t: seq<Byte>)
    requires IsReg(rm) && x.b == Bit(rm >= 8)
    ensures var s := [op, ModRM(3, reg, rm)] + t;
      DecodeOperand(s, 1, x) == Register(rm) && s[1] / 8 % 8 == Low(reg)
  {
    hide ModRM;
    RegRead(rm);
    var s := [op, ModRM(3, reg, rm)] + t;
    assert s[1] == ModRM(3, reg, rm);
  }

  lemma {:induction false} MoveReads(i: Ins, rest: seq<Byte>)
    requires i.Move? && Shaped(i) && Faithful(i)
    ensures Decode(Encode(i) + rest) == Got(Meaning(i), |Encode(i)|)
  {
    hide DecodeOperand, ModRM, Rex, Decode, LE4, Join4, S32, S8, Disp8;
    var x, t := PrefixOf(i.wide, i.src, 0, i.dst), [i.op, ModRM(3, i.src, i.dst)] + rest;
    RegRead(i.src);
    RegisterRead(i.op, i.src, i.dst, x, rest);
    RexRead(i.wide, i.src, 0, i.dst, t);
    assert Encode(i) + rest == Rex(i.wide, i.src, 0, i.dst) + t;
  }

  lemma {:induction false} MovImmReads(i: Ins, rest: seq<Byte>)
    requires i.MovImm? && Shaped(i) && Faithful(i)
    ensures Decode(Encode(i) + rest) == Got(Meaning(i), |Encode(i)|)
  {
    hide DecodeOperand, ModRM, Rex, Decode, LE4, Join4, S32, S8, Disp8;
    var x, t := PrefixOf(true, 0, 0, i.dst), [0xC7, ModRM(3, 0, i.dst)] + (LE4(i.v) + rest);
    RegisterRead(0xC7, 0, i.dst, x, LE4(i.v) + rest);
    assert t[2..] == LE4(i.v) + rest;
    WordRead(t, 2, i.v, rest);
    RexRead(true, 0, 0, i.dst, t);
    assert Encode(i) + rest == Rex(true, 0, 0, i.dst) + t;
  }

  lemma {:induction false} SmallReads(i: Ins, rest: seq<Byte>)
    requires i.Small? && Shaped(i) && Faithful(i)
    ensures Decode(Encode(i) + rest) == Got(Meaning(i), |Encode(i)|)
  {
    hide DecodeOperand, ModRM, Rex, Decode, LE4, Join4, S32, S8, Disp8;
    var x, t := PrefixOf(true, 0, 0, i.dst), [0x83, ModRM(3, i.ext, i.dst)] + ([Disp8(i.v)] + rest);
    RegisterRead(0x83, i.ext, i.dst, x, [Disp8(i.v)] + rest);
    ByteRead(i.v);
    RexRead(true, 0, 0, i.dst, t);
    assert Encode(i) + rest == Rex(true, 0, 0, i.dst) + t;
  }

  lemma {:induction false} CallRegReads(i: Ins, rest: seq<Byte>)
    requires i.CallReg? && Shaped(i) && Faithful(i)
    ensures Decode(Encode(i) + rest) == Got(Meaning(i), |Encode(i)|)
  {
    hide DecodeOperand, ModRM, Rex, Decode, LE4, Join4, S32, S8, Disp8;
    var x, t := PrefixOf(false, 0, 0, i.r), [0xFF, ModRM(3, 2, i.r)] + rest;
    RegisterRead(0xFF, 2, i.r, x, rest);
    RexRead(false, 0, 0, i.r, t);
    assert Encode(i) + rest == Rex(false, 0, 0, i.r) + t;
  }

  lemma {:induction false} ShortReads(i: Ins, rest: seq<Byte>)
    requires i.MovByte? || i.CallLabel? || i.Jump? || i.Pop? || i.Push? || i.Syscall? || i.Halt? || i.Return? || i.Nop?
    requires Shaped(i) && Faithful(i)
    ensures Decode(Encode(i) + rest) == Got(Meaning(i), |Encode(i)|)
  {
    hide DecodeModRM, LE4, S8, Disp8;
    var s := Encode(i) + rest;
    if i.Jump? { ByteRead(i.disp); }
    if (i.Pop? || i.Push?) && i.r >= 8 { assert s[1..] == [s[1]] + rest; }
  }

  /** Every instruction the encoder gets right reads back, whatever follows it. */
  lemma {:induction false} Reads(i: Ins, rest: seq<Byte>)
    requires Shaped(i) && Faithful(i)
    ensures Decode(Encode(i) + rest) == Got(Meaning(i), |Encode(i)|)
  {
    hide Decode, Encode;
    match i
    case Load(_, _, _, _) => LoadReads(i, rest);
    case Store(_, _) => StoreReads(i, rest);
    case Lea(_, _, _) => LeaReads(i, rest);
    case LeaIndex(_, _, _, _, _) => LeaIndexReads(i, rest);
    case Move(_, _, _, _) => MoveReads(i, rest);
    case MovImm(_, _) => MovImmReads(i, rest);
    case Small(_, _, _) => SmallReads(i, rest);
    case CallReg(_) => CallRegReads(i, rest);
    case _ => ShortReads(i, rest);
  }

  // ----- Streams -----

  predicate AllShaped(code: seq<Ins>) { forall k :: 0 <= k < |code| ==> Shaped(code[k]) }

  function EncodeAll(code: seq<Ins>): seq<Byte>
    requires AllShaped(code)
  {
    if code == [] then [] else Encode(code[0]) + EncodeAll(code[1..])
  }

  datatype Stream = Instructions(code: seq<Ins>) | Garbled

  function DecodeAll(s: seq<Byte>): Stream
    decreases |s|
  {
    if s == [] then Instructions([])
    else match Decode(s)
      case Fail => Garbled
      case Got(i, len) =>
        if len == 0 || len > |s| then Garbled
        else match DecodeAll(s[len..])
          case Garbled => Garbled
          case Instructions(more) => Instructions([i] + more)
  }

  function Meanings(code: seq<Ins>): (r: seq<Ins>)
    ensures |r| == |code|
  {
    seq(|code|, k requires 0 <= k < |code| => Meaning(code[k]))
  }

  /** The emitted stream decodes to the instructions it was made from, and to no others. */
  lemma {:induction false} StreamReads(code: seq<Ins>)
    requires AllShaped(code) && forall k :: 0 <= k < |code| ==> Faithful(code[k])
    ensures DecodeAll(EncodeAll(code)) == Instructions(Meanings(code))
    decreases |code|
  {
    hide Decode, Encode, Meaning;
    if code != [] {
      var rest := EncodeAll(code[1..]);
      var s := Encode(code[0]) + rest;
      Reads(code[0], rest);
      NotEmpty(code[0]);
      assert s[|Encode(code[0])|..] == rest;
      StreamReads(code[1..]);
      assert Meanings(code) == [Meaning(code[0])] + Meanings(code[1..]);
    }
  }

  lemma {:induction false} NotEmpty(i: Ins)
    requires Shaped(i)
    ensures Encode(i) != []
  {
    hide WithDisp;
    if i.LeaIndex? || i.Lea? { DispNotEmpty(i.dst, if i.LeaIndex? then 4 else i.base, i.disp); }
  }

  // ----- Exactly these -----

  /** With r12 as a base the SIB byte is missing. */
  lemma {:induction false} NoSib(op: Byte, m: seq<Byte>, x: Prefix)
    requires |m| >= 1 && m[0] % 8 == 4 && m[0] / 64 < 3 && |m| < 2 + (if m[0] / 64 == 1 then 1 else if m[0] / 64 == 2 then 4 else 0)
    ensures DecodeOperand([op] + m, 1, x) == Bad
  {
    assert ([op] + m)[1] == m[0];
  }

  /** rbp or r13 as a base without a displacement means an address relative to the
      instruction. */
  lemma {:induction false} RipRelative(op: Byte, m: seq<Byte>, x: Prefix)
    requires |m| == 1 && m[0] % 8 == 5 && m[0] / 64 == 0
    ensures DecodeOperand([op] + m, 1, x) == Bad
  {
    assert ([op] + m)[1] == m[0];
  }

  lemma {:induction false} BadOperand(op: nat, m: seq<Byte>, x: Prefix)
    requires (op == 0x8B || op == 0x89 || op == 0x8D) && m != [] && DecodeOperand([op] + m, 1, x) == Bad
    ensures DecodeAfter([op] + m, x) == Fail
  {
    hide DecodeOperand;
  }

  lemma {:induction false} WrongMemory(i: Ins)
    requires (i.Load? || i.Store? || i.Lea?) && Shaped(i) && !Faithful(i)
    ensures Decode(Encode(i)) == Fail
  {
    hide DecodeAfter, DecodeOperand, ModRM, Rex, Decode, LE4, Disp8;
    var reg := if i.Store? then i.src else i.dst;
    var op := if i.Load? then 0x8B else if i.Store? then 0x89 else 0x8D;
    var m := if i.Load? then LoadOperand(i.plain, i.disp, i.base, reg)
             else if i.Store? then StoreOperand(i.base, reg) else LeaOperand(i.disp, i.base, reg);
    var x := PrefixOf(true, reg, 0, i.base);
    if i.base == 12 { NoSib(op, m, x); } else { RipRelative(op, m, x); }
    BadOperand(op, m, x);
    RexRead(true, reg, 0, i.base, [op] + m);
    assert Encode(i) == Rex(true, reg, 0, i.base) + ([op] + m);
  }

  /** Index 4 means no index. */
  lemma {:induction false} WrongIndex(i: Ins)
    requires i.LeaIndex? && Shaped(i) && !Faithful(i)
    ensures Decode(Encode(i)) != Got(Meaning(i), |Encode(i)|)
  {
    hide DecodeAfter, DecodeOperand, WithDisp, ModRM, Rex, Decode;
    var m, x := WithDisp(i.dst, 4, [ModRM(i.scale, i.index, i.base)], i.disp), PrefixOf(true, i.dst, i.index, i.base);
    RegRead(i.base); RegRead(i.index);
    SibRead(0x8D, i.dst, ModRM(i.scale, i.index, i.base), i.disp, x, []);
    DispNotEmpty(i.dst, 4, i.disp);
    assert m + [] == m;
    MemoryRead(0x8D, m, [], i.disp, i.base, i.index, i.scale, i.dst, x);
    RexRead(true, i.dst, i.index, i.base, [0x8D] + m);
    assert Encode(i) == Rex(true, i.dst, i.index, i.base) + ([0x8D] + m);
  }

  /** An immediate that does not fit a byte is cut off. */
  lemma {:induction false} WrongImmediate(i: Ins)
    requires i.Small? && Shaped(i) && !Faithful(i)
    ensures Decode(Encode(i)) != Got(Meaning(i), |Encode(i)|)
  {
    hide DecodeOperand, ModRM, Rex, Decode, Disp8;
    var x, t := PrefixOf(true, 0, 0, i.dst), [0x83, ModRM(3, i.ext, i.dst)] + [Disp8(i.v)];
    RegisterRead(0x83, i.ext, i.dst, x, [Disp8(i.v)]);
    RexRead(true, 0, 0, i.dst, t);
    assert Encode(i) == Rex(true, 0, 0, i.dst) + t;
  }

  lemma {:induction false} WrongByteRegister(i: Ins)
    requires i.MovByte? && Shaped(i) && !Faithful(i)
    ensures Decode(Encode(i)) != Got(Meaning(i), |Encode(i)|)
  {
    var s := Encode(i);
    assert s[1] == i.imm;
  }

  /** The encoder is right exactly for the faithful operands: these and no others read
      back whatever follows. */
  lemma {:induction false} ReadsExactly(i: Ins)
    requires Shaped(i)
    ensures Faithful(i) <==> forall rest :: Decode(Encode(i) + rest) == Got(Meaning(i), |Encode(i)|)
  {
    hide Decode, Encode, Meaning;
    if Faithful(i) {
      forall rest ensures Decode(Encode(i) + rest) == Got(Meaning(i), |Encode(i)|) { Reads(i, rest); }
    } else {
      assert Encode(i) + [] == Encode(i);
      if i.LeaIndex? { WrongIndex(i); }
      else if i.Small? { WrongImmediate(i); }
      else if i.MovByte? { WrongByteRegister(i); }
      else { WrongMemory(i); }
    }
  }
}
