/** The x86-64 subset the code generator emits: instructions, their byte
    encodings, an independent decoder, and an operational semantics.

    Registers hold integers.  Stack addresses are idealised as unbounded, so
    running out of stack is not modelled; memory is a map of 4-byte words, and
    an access that is not 4-byte aligned gets stuck.  Flags that the generated
    code never reads are dropped (NoFlags), and reading them gets stuck. */
module X86 {
  import opened Bytes
  import opened Words

  /** Condition codes, as in the low nibble of setcc and jcc. */
  datatype Cc = Eq | Ne | Lt | Ge | Le | Gt

  datatype AluOp = AAdd | ASub | AMul | AAnd | AOr | AXor

  /** w selects the REX.W (64-bit) form of an instruction. */
  datatype Instr =
    | PushRax | PopRax | PopRcx | PushRbp | PopRbp
    | MovEaxImm(imm: int)
    | Movsxd
    | LoadEax(off: int)          // mov eax, [rbp+off]
    | StoreEax(off: int)         // mov [rbp+off], eax
    | LeaRax(off: int)           // lea rax, [rbp+off]
    | LoadEaxRcx                 // mov eax, [rcx]
    | StoreEaxRcx                // mov [rcx], eax
    | Alu(w: bool, op: AluOp)    // rax := rax op rcx
    | Xchg(w: bool)              // xchg rax, rcx
    | Cdq(w: bool)
    | Idiv(w: bool)              // idiv rcx
    | MovRaxRdx(w: bool)
    | Shl(w: bool)               // shl rax, cl
    | Sar(w: bool)               // sar rax, cl
    | CmpRcxRax(w: bool)
    | Setcc(cc: Cc)              // setcc al
    | MovzxAl
    | NegRax
    | NotRax(w: bool)
    | TestRax(w: bool)
    | IncEax | DecEax            // add eax, 1 / sub eax, 1
    | CmpEaxImm(imm: int)
    | Jcc(cc: Cc, disp: int)
    | Jmp(disp: int)
    | CallRel(disp: int)
    | Ret
    | MovArg(r: nat)             // mov <argument register r>, rax
    | StoreArg(r: nat, off: int) // mov [rbp+off], <argument register r>, 8-bit displacement
    | AddRsp(n: int) | SubRsp(n: int)
    | MovRbpRsp | MovRspRbp

  predicate Fits8(off: int) { -128 <= off <= 127 }

  /** Immediates and displacements that the encodings can carry. */
  predicate Encodable(i: Instr)
  {
    match i
    case MovEaxImm(v) => IsInt(v)
    case CmpEaxImm(v) => IsInt(v)
    case LoadEax(off) => IsInt(off)
    case StoreEax(off) => IsInt(off)
    case LeaRax(off) => IsInt(off)
    case Jcc(_, d) => IsInt(d)
    case Jmp(d) => IsInt(d)
    case CallRel(d) => IsInt(d)
    case MovArg(r) => r < 6
    case StoreArg(r, off) => r < 6 && Fits8(off)
    case AddRsp(n) => 0 <= n <= 127
    case SubRsp(n) => 0 <= n <= INT_MAX
    case _ => true
  }

  function CcNibble(cc: Cc): Byte
  {
    match cc case Eq => 4 case Ne => 5 case Lt => 0xC case Ge => 0xD case Le => 0xE case Gt => 0xF
  }

  function Rex(w: bool): seq<Byte> { if w then [0x48] else [] }

  /** ModRM and displacement of an [rbp+off] operand; reg is the /r field. */
  function RbpOperand(reg: Byte, off: int): seq<Byte>
    requires reg < 8
  {
    if Fits8(off) then [0x45 + 8 * reg, off % 256] else [0x85 + 8 * reg] + LE4(off)
  }

  function AluBytes(op: AluOp): seq<Byte>
  {
    match op
    case AAdd => [0x01, 0xC8]
    case ASub => [0x29, 0xC8]
    case AMul => [0x0F, 0xAF, 0xC1]
    case AAnd => [0x21, 0xC8]
    case AOr => [0x09, 0xC8]
    case AXor => [0x31, 0xC8]
  }

  function MovArgBytes(r: nat): seq<Byte>
  {
    if r == 0 then [0x48, 0x89, 0xC7]
    else if r == 1 then [0x48, 0x89, 0xC6]
    else if r == 2 then [0x48, 0x89, 0xC2]
    else if r == 3 then [0x48, 0x89, 0xC1]
    else if r == 4 then [0x49, 0x89, 0xC0]
    else [0x49, 0x89, 0xC1]
  }

  function StoreArgBytes(r: nat, off: int): seq<Byte>
  {
    if r == 0 then [0x89, 0x7D, off % 256]
    else if r == 1 then [0x89, 0x75, off % 256]
    else if r == 2 then [0x89, 0x55, off % 256]
    else if r == 3 then [0x89, 0x4D, off % 256]
    else if r == 4 then [0x44, 0x89, 0x45, off % 256]
    else [0x44, 0x89, 0x4D, off % 256]
  }

  function Encode(i: Instr): (s: seq<Byte>)
  {
    match i
    case PushRax => [0x50]
    case PopRax => [0x58]
    case PopRcx => [0x59]
    case PushRbp => [0x55]
    case PopRbp => [0x5D]
    case MovEaxImm(v) => [0xB8] + LE4(v)
    case Movsxd => [0x48, 0x63, 0xC0]
    case LoadEax(off) => [0x8B] + RbpOperand(0, off)
    case StoreEax(off) => [0x89] + RbpOperand(0, off)
    case LeaRax(off) => [0x48, 0x8D] + RbpOperand(0, off)
    case LoadEaxRcx => [0x8B, 0x01]
    case StoreEaxRcx => [0x89, 0x01]
    case Alu(w, op) => Rex(w) + AluBytes(op)
    case Xchg(w) => Rex(w) + [0x91]
    case Cdq(w) => Rex(w) + [0x99]
    case Idiv(w) => Rex(w) + [0xF7, 0xF9]
    case MovRaxRdx(w) => Rex(w) + [0x89, 0xD0]
    case Shl(w) => Rex(w) + [0xD3, 0xE0]
    case Sar(w) => Rex(w) + [0xD3, 0xF8]
    case CmpRcxRax(w) => Rex(w) + [0x39, 0xC1]
    case Setcc(cc) => [0x0F, 0x90 + CcNibble(cc), 0xC0]
    case MovzxAl => [0x0F, 0xB6, 0xC0]
    case NegRax => [0x48, 0xF7, 0xD8]
    case NotRax(w) => Rex(w) + [0xF7, 0xD0]
    case TestRax(w) => Rex(w) + [0x85, 0xC0]
    case IncEax => [0x83, 0xC0, 0x01]
    case DecEax => [0x83, 0xE8, 0x01]
    case CmpEaxImm(v) => [0x3D] + LE4(v)
    case Jcc(cc, d) => [0x0F, 0x80 + CcNibble(cc)] + LE4(d)
    case Jmp(d) => [0xE9] + LE4(d)
    case CallRel(d) => [0xE8] + LE4(d)
    case Ret => [0xC3]
    case MovArg(r) => MovArgBytes(r)
    case StoreArg(r, off) => StoreArgBytes(r, off)
    case AddRsp(n) => [0x48, 0x83, 0xC4, n % 256]
    case SubRsp(n) => if n <= 127 then [0x48, 0x83, 0xEC, n % 256] else [0x48, 0x81, 0xEC] + LE4(n)
    case MovRbpRsp => [0x48, 0x89, 0xE5]
    case MovRspRbp => [0x48, 0x89, 0xEC]
  }

  /** The length of an instruction in bytes, without building it. */
  function Len(i: Instr): (n: nat)
    ensures 1 <= n <= 8
  {
    match i
    case PushRax => 1 case PopRax => 1 case PopRcx => 1 case PushRbp => 1 case PopRbp => 1
    case MovEaxImm(v) => 5
    case Movsxd => 3
    case LoadEax(off) => if Fits8(off) then 3 else 6
    case StoreEax(off) => if Fits8(off) then 3 else 6
    case LeaRax(off) => if Fits8(off) then 4 else 7
    case LoadEaxRcx => 2
    case StoreEaxRcx => 2
    case Alu(w, op) => (if w then 1 else 0) + (if op == AMul then 3 else 2)
    case Xchg(w) => if w then 2 else 1
    case Cdq(w) => if w then 2 else 1
    case Idiv(w) => if w then 3 else 2
    case MovRaxRdx(w) => if w then 3 else 2
    case Shl(w) => if w then 3 else 2
    case Sar(w) => if w then 3 else 2
    case CmpRcxRax(w) => if w then 3 else 2
    case Setcc(cc) => 3
    case MovzxAl => 3
    case NegRax => 3
    case NotRax(w) => if w then 3 else 2
    case TestRax(w) => if w then 3 else 2
    case IncEax => 3
    case DecEax => 3
    case CmpEaxImm(v) => 5
    case Jcc(cc, d) => 6
    case Jmp(d) => 5
    case CallRel(d) => 5
    case Ret => 1
    case MovArg(r) => 3
    case StoreArg(r, off) => if r < 4 then 3 else 4
    case AddRsp(n) => 4
    case SubRsp(n) => if n <= 127 then 4 else 7
    case MovRbpRsp => 3
    case MovRspRbp => 3
  }

  lemma {:induction false} LenIsLength(i: Instr)
    ensures Len(i) == |Encode(i)|
  {
  }

  // ----- Decoding -----

  datatype Decoded = Bad | Ok(i: Instr)

  /** The byte at p, or -1 past the end. */
  function At(code: seq<Byte>, p: int): int
  {
    if 0 <= p < |code| then code[p] else -1
  }

  predicate Has4(code: seq<Byte>, p: int) { 0 <= p && p + 4 <= |code| }

  function Rel32(code: seq<Byte>, p: int): int
    requires Has4(code, p)
  {
    FromLE4(code[p..p + 4])
  }

  function DecodeCc(n: int): (r: (bool, Cc))
  {
    if n == 4 then (true, Eq) else if n == 5 then (true, Ne) else if n == 0xC then (true, Lt)
    else if n == 0xD then (true, Ge) else if n == 0xE then (true, Le) else if n == 0xF then (true, Gt)
    else (false, Eq)
  }

  /** Instructions after an optional REX.W prefix (w), starting at p. */
  function DecodeBody(code: seq<Byte>, p: int, w: bool): Decoded
  {
    var b0, b1 := At(code, p), At(code, p + 1);
    if b0 == 0x01 && b1 == 0xC8 then Ok(Alu(w, AAdd))
    else if b0 == 0x29 && b1 == 0xC8 then Ok(Alu(w, ASub))
    else if b0 == 0x0F && b1 == 0xAF then (if At(code, p + 2) == 0xC1 then Ok(Alu(w, AMul)) else Bad)
    else if b0 == 0x21 && b1 == 0xC8 then Ok(Alu(w, AAnd))
    else if b0 == 0x09 && b1 == 0xC8 then Ok(Alu(w, AOr))
    else if b0 == 0x31 && b1 == 0xC8 then Ok(Alu(w, AXor))
    else if b0 == 0x91 then Ok(Xchg(w))
    else if b0 == 0x99 then Ok(Cdq(w))
    else if b0 == 0xF7 then
      (if b1 == 0xF9 then Ok(Idiv(w)) else if b1 == 0xD0 then Ok(NotRax(w))
       else if b1 == 0xD8 && w then Ok(NegRax) else Bad)
    else if b0 == 0xD3 then
      (if b1 == 0xE0 then Ok(Shl(w)) else if b1 == 0xF8 then Ok(Sar(w)) else Bad)
    else if b0 == 0x39 && b1 == 0xC1 then Ok(CmpRcxRax(w))
    else if b0 == 0x85 && b1 == 0xC0 then Ok(TestRax(w))
    else if b0 == 0x89 && b1 == 0xD0 then Ok(MovRaxRdx(w))
    else Bad
  }

  /** Instructions whose first byte is REX.W and that have no 32-bit form here. */
  function DecodeRexOnly(code: seq<Byte>, p: int): Decoded
  {
    var b1, b2, b3 := At(code, p + 1), At(code, p + 2), At(code, p + 3);
    if b1 == 0x63 && b2 == 0xC0 then Ok(Movsxd)
    else if b1 == 0x8D && b2 == 0x45 && b3 >= 0 then Ok(LeaRax(S8(b3)))
    else if b1 == 0x8D && b2 == 0x85 && Has4(code, p + 3) then Ok(LeaRax(Rel32(code, p + 3)))
    else if b1 == 0x89 then
      (if b2 == 0xC7 then Ok(MovArg(0)) else if b2 == 0xC6 then Ok(MovArg(1))
       else if b2 == 0xC2 then Ok(MovArg(2)) else if b2 == 0xC1 then Ok(MovArg(3))
       else if b2 == 0xE5 then Ok(MovRbpRsp) else if b2 == 0xEC then Ok(MovRspRbp)
       else DecodeBody(code, p + 1, true))
    else if b1 == 0x83 && b2 == 0xC4 && b3 >= 0 then Ok(AddRsp(S8(b3)))
    else if b1 == 0x83 && b2 == 0xEC && b3 >= 0 then Ok(SubRsp(S8(b3)))
    else if b1 == 0x81 && b2 == 0xEC && Has4(code, p + 3) then Ok(SubRsp(Rel32(code, p + 3)))
    else DecodeBody(code, p + 1, true)
  }

  function DecodeMov89(code: seq<Byte>, p: int): Decoded
  {
    var b1, b2 := At(code, p + 1), At(code, p + 2);
    if b1 == 0x45 && b2 >= 0 then Ok(StoreEax(S8(b2)))
    else if b1 == 0x85 && Has4(code, p + 2) then Ok(StoreEax(Rel32(code, p + 2)))
    else if b1 == 0x01 then Ok(StoreEaxRcx)
    else if b1 == 0x7D && b2 >= 0 then Ok(StoreArg(0, S8(b2)))
    else if b1 == 0x75 && b2 >= 0 then Ok(StoreArg(1, S8(b2)))
    else if b1 == 0x55 && b2 >= 0 then Ok(StoreArg(2, S8(b2)))
    else if b1 == 0x4D && b2 >= 0 then Ok(StoreArg(3, S8(b2)))
    else DecodeBody(code, p, false)
  }

  function DecodeTwoByte(code: seq<Byte>, p: int): Decoded
  {
    var b1, b2 := At(code, p + 1), At(code, p + 2);
    if b1 == 0xB6 && b2 == 0xC0 then Ok(MovzxAl)
    else if 0x90 <= b1 <= 0x9F && b2 == 0xC0 then
      var (known, cc) := DecodeCc(b1 - 0x90);
      if known then Ok(Setcc(cc)) else Bad
    else if 0x80 <= b1 <= 0x8F && Has4(code, p + 2) then
      var (known, cc) := DecodeCc(b1 - 0x80);
      if known then Ok(Jcc(cc, Rel32(code, p + 2))) else Bad
    else DecodeBody(code, p, false)
  }

  /** Reads one instruction from the bytes at p. */
  function Decode(code: seq<Byte>, p: int): Decoded
  {
    var b0, b1, b2 := At(code, p), At(code, p + 1), At(code, p + 2);
    if b0 == 0x50 then Ok(PushRax)
    else if b0 == 0x58 then Ok(PopRax)
    else if b0 == 0x59 then Ok(PopRcx)
    else if b0 == 0x55 then Ok(PushRbp)
    else if b0 == 0x5D then Ok(PopRbp)
    else if b0 == 0xC3 then Ok(Ret)
    else if b0 == 0xB8 && Has4(code, p + 1) then Ok(MovEaxImm(Rel32(code, p + 1)))
    else if b0 == 0x3D && Has4(code, p + 1) then Ok(CmpEaxImm(Rel32(code, p + 1)))
    else if b0 == 0xE9 && Has4(code, p + 1) then Ok(Jmp(Rel32(code, p + 1)))
    else if b0 == 0xE8 && Has4(code, p + 1) then Ok(CallRel(Rel32(code, p + 1)))
    else if b0 == 0x8B && b1 == 0x01 then Ok(LoadEaxRcx)
    else if b0 == 0x8B && b1 == 0x45 && b2 >= 0 then Ok(LoadEax(S8(b2)))
    else if b0 == 0x8B && b1 == 0x85 && Has4(code, p + 2) then Ok(LoadEax(Rel32(code, p + 2)))
    else if b0 == 0x83 && b1 == 0xC0 && b2 == 0x01 then Ok(IncEax)
    else if b0 == 0x83 && b1 == 0xE8 && b2 == 0x01 then Ok(DecEax)
    else if b0 == 0x48 then DecodeRexOnly(code, p)
    else if b0 == 0x49 && b1 == 0x89 && b2 == 0xC0 then Ok(MovArg(4))
    else if b0 == 0x49 && b1 == 0x89 && b2 == 0xC1 then Ok(MovArg(5))
    else if b0 == 0x44 && b1 == 0x89 && b2 == 0x45 && At(code, p + 3) >= 0 then Ok(StoreArg(4, S8(At(code, p + 3))))
    else if b0 == 0x44 && b1 == 0x89 && b2 == 0x4D && At(code, p + 3) >= 0 then Ok(StoreArg(5, S8(At(code, p + 3))))
    else if b0 == 0x89 then DecodeMov89(code, p)
    else if b0 == 0x0F then DecodeTwoByte(code, p)
    else DecodeBody(code, p, false)
  }

  // ----- Execution -----

  datatype Flags = NoFlags | Flags(zf: bool, sf: bool, of: bool)

  datatype M = M(pc: int, rax: int, rcx: int, rdx: int, rsi: int, rdi: int, r8: int, r9: int,
                 rsp: int, rbp: int, fl: Flags, mem: map<int, int>)

  datatype Step = Next(m: M) | DivideError | Stuck

  /** The word at a; words never written read as 0. */
  function Rd(mem: map<int, int>, a: int): int { if a in mem then mem[a] else 0 }

  function Rd64(mem: map<int, int>, a: int): int { Rd(mem, a) + 0x1_0000_0000 * Rd(mem, a + 4) }

  /** The value stored in the words at a and a + 4. */
  function Wr64(mem: map<int, int>, a: int, v: int): map<int, int>
  {
    mem[a := U32(v)][a + 4 := (v - U32(v)) / 0x1_0000_0000]
  }

  function Trunc(w: bool, x: int): int { if w then U64(x) else U32(x) }

  function Signed(w: bool, x: int): int { if w then S64(x) else S32(x) }

  function Width(w: bool): int { if w then 0x1_0000_0000_0000_0000 else 0x1_0000_0000 }

  /** A bitwise operation acts on the two halves of a 64-bit word separately. */
  function Bits(w: bool, op: AluOp, x: int, y: int): int
  {
    if w then Bits32(op, x / 0x1_0000_0000, y / 0x1_0000_0000) * 0x1_0000_0000 + Bits32(op, x, y)
    else Bits32(op, x, y)
  }

  function Bits32(op: AluOp, x: int, y: int): (r: int)
    ensures 0 <= r < 0x1_0000_0000
  {
    match op case AAnd => And32(x, y) case AOr => Or32(x, y) case _ => Xor32(x, y)
  }

  function AluValue(w: bool, op: AluOp, x: int, y: int): int
  {
    match op
    case AAdd => Trunc(w, x + y)
    case ASub => Trunc(w, x - y)
    case AMul => Trunc(w, x * y)
    case _ => Bits(w, op, x, y)
  }

  /** Flags after comparing a with b (a - b). */
  function CmpFlags(w: bool, a: int, b: int): Flags
  {
    var d := Trunc(w, a - b);
    var sd := Signed(w, a) - Signed(w, b);
    Flags(d == 0, Signed(w, d) < 0, sd != Signed(w, d))
  }

  function TestFlags(w: bool, a: int): Flags
  {
    Flags(Trunc(w, a) == 0, Signed(w, a) < 0, false)
  }

  function Holds(cc: Cc, f: Flags): bool
    requires f.Flags?
  {
    match cc
    case Eq => f.zf
    case Ne => !f.zf
    case Lt => f.sf != f.of
    case Ge => f.sf == f.of
    case Le => f.zf || f.sf != f.of
    case Gt => !f.zf && f.sf == f.of
  }

  function ShiftCount(w: bool, rcx: int): nat
  {
    if w then rcx % 64 else rcx % 32
  }

  /** cdq/cqo: the sign of rax, spread over rdx. */
  function SignFill(w: bool, rax: int): int
  {
    if Signed(w, rax) < 0 then Width(w) - 1 else 0
  }

  /** idiv: divides rdx:rax by rcx; the quotient must fit. */
  function DivStep(w: bool, m: M): Step
  {
    var dividend := S128(w, m.rdx, m.rax);
    var d := Signed(w, m.rcx);
    if d == 0 then DivideError
    else
      var q := TruncDiv(dividend, d);
      if -(Width(w) / 2) <= q < Width(w) / 2 then
        Next(m.(rax := Trunc(w, q), rdx := Trunc(w, TruncMod(dividend, d)), fl := NoFlags))
      else DivideError
  }

  /** The signed value of the double-width register pair. */
  function S128(w: bool, hi: int, lo: int): int
  {
    var h, l := Trunc(w, hi), Trunc(w, lo);
    if h < Width(w) / 2 then h * Width(w) + l else (h - Width(w)) * Width(w) + l
  }

  function ArgReg(m: M, r: nat): int
  {
    if r == 0 then m.rdi else if r == 1 then m.rsi else if r == 2 then m.rdx
    else if r == 3 then m.rcx else if r == 4 then m.r8 else m.r9
  }

  function SetArgReg(m: M, r: nat, v: int): M
  {
    if r == 0 then m.(rdi := v) else if r == 1 then m.(rsi := v) else if r == 2 then m.(rdx := v)
    else if r == 3 then m.(rcx := v) else if r == 4 then m.(r8 := v) else m.(r9 := v)
  }

  function Push(m: M, v: int): Step
  {
    if !Aligned(m.rsp) then Stuck
    else Next(m.(rsp := m.rsp - 8, mem := Wr64(m.mem, m.rsp - 8, v)))
  }

  function Store4(m: M, a: int, v: int): Step
  {
    if !Aligned(a) then Stuck else Next(m.(mem := m.mem[a := U32(v)]))
  }

  function Load4(m: M, a: int): Step
  {
    if !Aligned(a) then Stuck else Next(m.(rax := U32(Rd(m.mem, a))))
  }

  /** One instruction; m.pc already points past it. */
  function Effect(i: Instr, m: M): Step
  {
    match i
    case PushRax => Push(m, m.rax)
    case PushRbp => Push(m, m.rbp)
    case PopRax => if !Aligned(m.rsp) then Stuck else Next(m.(rax := Rd64(m.mem, m.rsp), rsp := m.rsp + 8))
    case PopRcx => if !Aligned(m.rsp) then Stuck else Next(m.(rcx := Rd64(m.mem, m.rsp), rsp := m.rsp + 8))
    case PopRbp => if !Aligned(m.rsp) then Stuck else Next(m.(rbp := Rd64(m.mem, m.rsp), rsp := m.rsp + 8))
    case MovEaxImm(v) => Next(m.(rax := U32(v)))
    case Movsxd => Next(m.(rax := U64(S32(m.rax))))
    case LoadEax(off) => Load4(m, m.rbp + off)
    case StoreEax(off) => Store4(m, m.rbp + off, m.rax)
    case LeaRax(off) => Next(m.(rax := m.rbp + off))
    case LoadEaxRcx => Load4(m, m.rcx)
    case StoreEaxRcx => Store4(m, m.rcx, m.rax)
    case Alu(w, op) => Next(m.(rax := AluValue(w, op, m.rax, m.rcx), fl := NoFlags))
    case Xchg(w) => Next(m.(rax := Trunc(w, m.rcx), rcx := Trunc(w, m.rax)))
    case Cdq(w) => Next(m.(rdx := SignFill(w, m.rax)))
    case Idiv(w) => DivStep(w, m)
    case MovRaxRdx(w) => Next(m.(rax := Trunc(w, m.rdx)))
    case Shl(w) => Next(m.(rax := Trunc(w, m.rax * Pow2(ShiftCount(w, m.rcx))), fl := NoFlags))
    case Sar(w) => Next(m.(rax := Trunc(w, Signed(w, m.rax) / Pow2(ShiftCount(w, m.rcx))), fl := NoFlags))
    case CmpRcxRax(w) => Next(m.(fl := CmpFlags(w, m.rcx, m.rax)))
    case Setcc(cc) =>
      if m.fl.NoFlags? then Stuck
      else Next(m.(rax := m.rax - m.rax % 256 + (if Holds(cc, m.fl) then 1 else 0)))
    case MovzxAl => Next(m.(rax := m.rax % 256))
    case NegRax => Next(m.(rax := U64(-m.rax), fl := NoFlags))
    case NotRax(w) => Next(m.(rax := Trunc(w, -1 - m.rax)))
    case TestRax(w) => Next(m.(fl := TestFlags(w, m.rax)))
    case IncEax => Next(m.(rax := U32(m.rax + 1), fl := NoFlags))
    case DecEax => Next(m.(rax := U32(m.rax - 1), fl := NoFlags))
    case CmpEaxImm(v) => Next(m.(fl := CmpFlags(false, m.rax, v)))
    case Jcc(cc, d) =>
      if m.fl.NoFlags? then Stuck else Next(if Holds(cc, m.fl) then m.(pc := m.pc + d) else m)
    case Jmp(d) => Next(m.(pc := m.pc + d))
    case CallRel(d) =>
      if !Aligned(m.rsp) then Stuck
      else Next(m.(rsp := m.rsp - 8, mem := Wr64(m.mem, m.rsp - 8, m.pc), pc := m.pc + d))
    case Ret =>
      if !Aligned(m.rsp) then Stuck else Next(m.(pc := Rd64(m.mem, m.rsp), rsp := m.rsp + 8))
    case MovArg(r) => Next(SetArgReg(m, r, m.rax))
    case StoreArg(r, off) => Store4(m, m.rbp + off, ArgReg(m, r))
    case AddRsp(n) => Next(m.(rsp := m.rsp + n, fl := NoFlags))
    case SubRsp(n) => Next(m.(rsp := m.rsp - n, fl := NoFlags))
    case MovRbpRsp => Next(m.(rbp := m.rsp))
    case MovRspRbp => Next(m.(rsp := m.rbp))
  }

  /** Fetches past i and executes it. */
  function Do(i: Instr, m: M): Step { Effect(i, m.(pc := m.pc + Len(i))) }

  /** Code as the processor sees it: the instruction that starts at each address. */
  type Prog = map<int, Instr>

  function StepFn(prog: Prog, m: M): Step
  {
    if m.pc in prog then Do(prog[m.pc], m) else Stuck
  }

  /** n steps. */
  function Run(prog: Prog, m: M, n: nat): Step
    decreases n
  {
    if n == 0 then Next(m)
    else match StepFn(prog, m)
      case Next(m1) => Run(prog, m1, n - 1)
      case DivideError => DivideError
      case Stuck => Stuck
  }

  // Reaches is Run seen from outside: a trace of states, kept existential so that
  // proofs about whole pieces of code never unfold single instructions.

  ghost predicate StepLinked(prog: Prog, tr: seq<M>, i: int)
    requires 0 <= i < |tr| - 1
  {
    StepFn(prog, tr[i]) == Next(tr[i + 1])
  }

  ghost predicate Trace(prog: Prog, m: M, tr: seq<M>, m': M)
  {
    |tr| >= 1 && tr[0] == m && tr[|tr| - 1] == m' && forall i :: 0 <= i < |tr| - 1 ==> StepLinked(prog, tr, i)
  }

  ghost predicate Reaches(prog: Prog, m: M, n: nat, m': M)
  {
    exists tr :: |tr| == n + 1 && Trace(prog, m, tr, m')
  }

  lemma {:induction false} ReachSelf(prog: Prog, m: M)
    ensures Reaches(prog, m, 0, m)
  {
    assert Trace(prog, m, [m], m);
  }

  lemma {:induction false} ReachOne(prog: Prog, m: M, m': M)
    requires StepFn(prog, m) == Next(m')
    ensures Reaches(prog, m, 1, m')
  {
    assert StepLinked(prog, [m, m'], 0);
    assert Trace(prog, m, [m, m'], m');
  }

  lemma {:induction false} ReachAdd(prog: Prog, m: M, a: nat, m1: M, b: nat, m2: M)
    requires Reaches(prog, m, a, m1) && Reaches(prog, m1, b, m2)
    ensures Reaches(prog, m, a + b, m2)
  {
    var t :| |t| == a + 1 && Trace(prog, m, t, m1);
    var u :| |u| == b + 1 && Trace(prog, m1, u, m2);
    var w := t + u[1..];
    forall i | 0 <= i < |w| - 1 ensures StepLinked(prog, w, i) {
      if i < a { assert StepLinked(prog, t, i); } else { assert StepLinked(prog, u, i - a); }
    }
    assert Trace(prog, m, w, m2);
  }

  /** The two views agree. */
  lemma {:induction false} ReachesIsRun(prog: Prog, m: M, n: nat, m': M)
    ensures Reaches(prog, m, n, m') <==> Run(prog, m, n) == Next(m')
    decreases n
  {
    if n == 0 {
      ReachSelf(prog, m);
    } else {
      if Reaches(prog, m, n, m') {
        var t :| |t| == n + 1 && Trace(prog, m, t, m');
        assert StepLinked(prog, t, 0);
        forall i | 0 <= i < |t[1..]| - 1 ensures StepLinked(prog, t[1..], i) { assert StepLinked(prog, t, i + 1); }
        assert Trace(prog, t[1], t[1..], m');
        ReachesIsRun(prog, t[1], n - 1, m');
      }
      if Run(prog, m, n) == Next(m') {
        var m1 := StepFn(prog, m).m;
        ReachesIsRun(prog, m1, n - 1, m');
        ReachOne(prog, m, m1);
        ReachAdd(prog, m, 1, m1, n - 1, m');
      }
    }
  }

  lemma {:induction false} RunMore(prog: Prog, m: M, a: nat, m1: M, b: nat)
    requires Run(prog, m, a) == Next(m1)
    ensures Run(prog, m, a + b) == Run(prog, m1, b)
    decreases a
  {
    hide StepFn;
    if a > 0 { RunMore(prog, StepFn(prog, m).m, a - 1, m1, b); }
  }

  /** A run that goes on for n steps has not stopped before. */
  lemma {:induction false} RunPrefix(prog: Prog, m: M, a: nat, n: nat)
    requires a <= n && Run(prog, m, n).Next?
    ensures Run(prog, m, a).Next?
    decreases a
  {
    hide StepFn;
    if a > 0 { RunPrefix(prog, StepFn(prog, m).m, a - 1, n - 1); }
  }

  /** The next instruction divides by zero. */
  ghost predicate DividesByZero(prog: Prog, m: M)
  {
    m.pc in prog && prog[m.pc].Idiv? && Signed(prog[m.pc].w, m.rcx) == 0
  }

  lemma {:induction false} DividesByZeroFaults(prog: Prog, m: M)
    requires DividesByZero(prog, m)
    ensures StepFn(prog, m) == DivideError
  {
  }

  // ----- The decoder inverts the encoder -----

  lemma {:induction false} S8RoundTrip(v: int)
    requires Fits8(v)
    ensures S8(v % 256) == v
  {
  }

  lemma {:induction false} SitsAt(code: seq<Byte>, p: int, s: seq<Byte>)
    requires Sits(code, p, s)
    ensures forall k :: 0 <= k < |s| ==> At(code, p + k) == s[k]
  {
    forall k | 0 <= k < |s| ensures At(code, p + k) == s[k] {
      assert code[p..p + |s|][k] == code[p + k];
    }
  }

  /** A 32-bit field after a prefix reads back. */
  lemma {:induction false} SitsField(code: seq<Byte>, p: int, pre: seq<Byte>, v: int)
    requires Sits(code, p, pre + LE4(v)) && IsInt(v)
    ensures Has4(code, p + |pre|) && Rel32(code, p + |pre|) == v
  {
    var f := p + |pre|;
    assert code[f..f + 4] == code[p..p + |pre| + 4][|pre|..];
    assert (pre + LE4(v))[|pre|..] == LE4(v);
    LE4RoundTrip(v);
  }

  lemma {:induction false} DecodeImmediate(code: seq<Byte>, p: int, i: Instr)
    requires i.MovEaxImm? || i.CmpEaxImm? || i.Jmp? || i.CallRel? || i.Jcc?
    requires Encodable(i) && Sits(code, p, Encode(i))
    ensures Decode(code, p) == Ok(i)
  {
    SitsAt(code, p, Encode(i));
    assert At(code, p + 0) == Encode(i)[0] && At(code, p + 1) == Encode(i)[1];
    match i {
      case MovEaxImm(v) => SitsField(code, p, [0xB8], v);
      case CmpEaxImm(v) => SitsField(code, p, [0x3D], v);
      case Jmp(d) => SitsField(code, p, [0xE9], d);
      case CallRel(d) => SitsField(code, p, [0xE8], d);
      case Jcc(cc, d) => SitsField(code, p, [0x0F, 0x80 + CcNibble(cc)], d);
    }
  }

  lemma {:induction false} DecodeMemory(code: seq<Byte>, p: int, i: Instr)
    requires i.LoadEax? || i.StoreEax? || i.LeaRax?
    requires Encodable(i) && Sits(code, p, Encode(i))
    ensures Decode(code, p) == Ok(i)
  {
    SitsAt(code, p, Encode(i));
    assert At(code, p + 0) == Encode(i)[0] && At(code, p + 1) == Encode(i)[1] && At(code, p + 2) == Encode(i)[2];
    if Fits8(i.off) {
      S8RoundTrip(i.off);
      assert i.LeaRax? ==> At(code, p + 3) == Encode(i)[3];
    } else {
      var pre := if i.LoadEax? then [0x8B, 0x85] else if i.StoreEax? then [0x89, 0x85] else [0x48, 0x8D, 0x85];
      assert Encode(i) == pre + LE4(i.off);
      SitsField(code, p, pre, i.off);
    }
  }

  lemma {:induction false} DecodeStack(code: seq<Byte>, p: int, i: Instr)
    requires i.AddRsp? || i.SubRsp? || i.StoreArg? || i.MovArg?
    requires Encodable(i) && Sits(code, p, Encode(i))
    ensures Decode(code, p) == Ok(i)
  {
    SitsAt(code, p, Encode(i));
    assert At(code, p + 0) == Encode(i)[0] && At(code, p + 1) == Encode(i)[1] && At(code, p + 2) == Encode(i)[2];
    match i {
      case SubRsp(n) =>
        assert At(code, p + 3) == Encode(i)[3];
        if n <= 127 { S8RoundTrip(n); } else { SitsField(code, p, [0x48, 0x81, 0xEC], n); }
      case AddRsp(n) =>
        assert At(code, p + 3) == Encode(i)[3];
        S8RoundTrip(n);
      case StoreArg(r, off) =>
        S8RoundTrip(off);
        assert r >= 4 ==> At(code, p + 3) == Encode(i)[3];
      case MovArg(_) =>
    }
  }

  lemma {:induction false} DecodeAlu(code: seq<Byte>, p: int, i: Instr)
    requires i.Alu?
    requires Sits(code, p, Encode(i))
    ensures Decode(code, p) == Ok(i)
  {
    SitsAt(code, p, Encode(i));
    var s := Encode(i);
    assert At(code, p + 0) == s[0];
    assert |s| > 1 ==> At(code, p + 1) == s[1];
    assert |s| > 2 ==> At(code, p + 2) == s[2];
    assert |s| > 3 ==> At(code, p + 3) == s[3];
  }

  lemma {:induction false} DecodeShort(code: seq<Byte>, p: int, i: Instr)
    requires i.Xchg? || i.Cdq? || i.Idiv? || i.Shl? || i.Sar?
    requires Sits(code, p, Encode(i))
    ensures Decode(code, p) == Ok(i)
  {
    SitsAt(code, p, Encode(i));
    var s := Encode(i);
    assert At(code, p + 0) == s[0];
    assert |s| > 1 ==> At(code, p + 1) == s[1];
    assert |s| > 2 ==> At(code, p + 2) == s[2];
  }

  lemma {:induction false} DecodeTwo(code: seq<Byte>, p: int, i: Instr)
    requires i.MovRaxRdx? || i.CmpRcxRax? || i.NotRax? || i.TestRax?
    requires Sits(code, p, Encode(i))
    ensures Decode(code, p) == Ok(i)
  {
    SitsAt(code, p, Encode(i));
    var s := Encode(i);
    assert At(code, p + 0) == s[0];
    assert |s| > 1 ==> At(code, p + 1) == s[1];
    assert |s| > 2 ==> At(code, p + 2) == s[2];
  }

  lemma {:induction false} DecodePlain(code: seq<Byte>, p: int, i: Instr)
    requires i.PushRax? || i.PopRax? || i.PopRcx? || i.PushRbp? || i.PopRbp? || i.Movsxd? || i.LoadEaxRcx?
          || i.StoreEaxRcx? || i.Setcc? || i.MovzxAl? || i.NegRax? || i.IncEax? || i.DecEax? || i.Ret?
          || i.MovRbpRsp? || i.MovRspRbp?
    requires Sits(code, p, Encode(i))
    ensures Decode(code, p) == Ok(i)
  {
    SitsAt(code, p, Encode(i));
    assert At(code, p + 0) == Encode(i)[0];
    assert |Encode(i)| > 1 ==> At(code, p + 1) == Encode(i)[1];
    assert |Encode(i)| > 2 ==> At(code, p + 2) == Encode(i)[2];
  }

  /** Every instruction decodes to itself, wherever its bytes are. */
  lemma {:induction false} DecodeEncode(code: seq<Byte>, p: int, i: Instr)
    requires Encodable(i) && Sits(code, p, Encode(i))
    ensures Decode(code, p) == Ok(i)
  {
    match i {
      case MovEaxImm(_) => DecodeImmediate(code, p, i);
      case CmpEaxImm(_) => DecodeImmediate(code, p, i);
      case Jmp(_) => DecodeImmediate(code, p, i);
      case CallRel(_) => DecodeImmediate(code, p, i);
      case Jcc(_, _) => DecodeImmediate(code, p, i);
      case LoadEax(_) => DecodeMemory(code, p, i);
      case StoreEax(_) => DecodeMemory(code, p, i);
      case LeaRax(_) => DecodeMemory(code, p, i);
      case SubRsp(_) => DecodeStack(code, p, i);
      case AddRsp(_) => DecodeStack(code, p, i);
      case StoreArg(_, _) => DecodeStack(code, p, i);
      case MovArg(_) => DecodeStack(code, p, i);
      case Alu(_, _) => DecodeAlu(code, p, i);
      case MovRaxRdx(_) => DecodeTwo(code, p, i);
      case CmpRcxRax(_) => DecodeTwo(code, p, i);
      case NotRax(_) => DecodeTwo(code, p, i);
      case TestRax(_) => DecodeTwo(code, p, i);
      case Xchg(_) => DecodeShort(code, p, i);
      case Cdq(_) => DecodeShort(code, p, i);
      case Idiv(_) => DecodeShort(code, p, i);
      case Shl(_) => DecodeShort(code, p, i);
      case Sar(_) => DecodeShort(code, p, i);
      case _ => DecodePlain(code, p, i);
    }
  }
}
