/** The imperative code generator: one pass over the syntax tree that appends
    bytes to a fixed buffer, patches the jumps of expressions in place, and keeps
    tables of labels, fixups and calls for the jumps of statements. */
module Generator {
  import opened Bytes
  import opened Words
  import opened X86
  import opened CSource
  import opened CodeGen
  import opened Blocks
  import opened Snippets
  import opened Statements
  import opened Emission
  import opened Labels
  import opened Uniqueness
  import opened WholeProgram

  datatype CaseEntry = CaseEntry(lo: int, hi: int, target: int)

  /** The cases of a switch body with their labels, numbered from l. */
  function CaseList(items: Items, l: int): seq<CaseEntry>
  {
    match items
    case INil => []
    case ICase(lo, hi, rest) => [CaseEntry(lo, hi, l)] + CaseList(rest, l + 1)
    case IDefault(rest) => CaseList(rest, l + 1)
    case IStmt(_, rest) => CaseList(rest, l)
  }

  function CaseCode(c: CaseEntry, k: int): Code
  {
    if c.hi != c.lo then RangeTest(c.lo, c.hi, c.target, k) else CaseTest(c.lo, c.target)
  }

  function CasesCode(cases: seq<CaseEntry>, k: int): Code
  {
    if cases == [] then Nil
    else Cat(CaseCode(cases[0], k), CasesCode(cases[1..], if cases[0].hi != cases[0].lo then k + 1 else k))
  }

  lemma {:induction false} CasesDispatch(items: Items, l: int, k: int)
    ensures CasesCode(CaseList(items, l), k) == Dispatch(items, l, k)
    decreases items
  {
    match items {
      case INil =>
      case ICase(lo, hi, rest) =>
        var cs := CaseList(items, l);
        assert cs[1..] == CaseList(rest, l + 1);
        CasesDispatch(rest, l + 1, if lo != hi then k + 1 else k);
      case IDefault(rest) => CasesDispatch(rest, l + 1, k);
      case IStmt(_, rest) => CasesDispatch(rest, l, k);
    }
  }

  function Ranges(cases: seq<CaseEntry>): nat
  {
    if cases == [] then 0 else (if cases[0].hi != cases[0].lo then 1 else 0) + Ranges(cases[1..])
  }

  lemma {:induction false} RangesIs(items: Items, l: int)
    ensures Ranges(CaseList(items, l)) == RangeCount(items)
    decreases items
  {
    match items {
      case INil =>
      case ICase(lo, hi, rest) =>
        assert CaseList(items, l)[1..] == CaseList(rest, l + 1);
        RangesIs(rest, l + 1);
      case IDefault(rest) => RangesIs(rest, l + 1);
      case IStmt(_, rest) => RangesIs(rest, l);
    }
  }

  /** The code behind the body of a switch. */
  function EndPlan(items: Items, n: int, k: int, d: int): Code
  {
    SwitchEnd(Cat(Dispatch(items, n, k), DefaultJump(items, n)), d)
  }

  // ----- Facts about emission used by the methods -----

  lemma {:induction false} EmitNil(s: Emitted)
    ensures Emit(Nil, s) == s
  {
    assert s.bytes + [] == s.bytes && s.labels + [] == s.labels && s.fixups + [] == s.fixups && s.calls + [] == s.calls;
  }

  lemma {:induction false} EmitI(i: Instr, s: Emitted)
    ensures Emit(I(i), s) == s.(bytes := s.bytes + Encode(i))
  {
    assert s.labels + [] == s.labels && s.fixups + [] == s.fixups && s.calls + [] == s.calls;
  }

  lemma {:induction false} EmitSize(c: Code, s: Emitted)
    ensures |Emit(c, s).bytes| == |s.bytes| + Size(c)
  {
  }

  lemma {:induction false} Emit3(a: Code, b: Code, c: Code, s: Emitted)
    ensures Emit(Cat(a, Cat(b, c)), s) == Emit(c, Emit(b, Emit(a, s)))
  {
    hide Emit;
    EmitCat(a, Cat(b, c), s);
    EmitCat(b, c, Emit(a, s));
  }

  lemma {:induction false} Emit4(a: Code, b: Code, c: Code, d: Code, s: Emitted)
    ensures Emit(Cat(a, Cat(b, Cat(c, d))), s) == Emit(d, Emit(c, Emit(b, Emit(a, s))))
  {
    hide Emit;
    EmitCat(a, Cat(b, Cat(c, d)), s);
    Emit3(b, c, d, Emit(a, s));
  }

  lemma {:induction false} Emit5(a: Code, b: Code, c: Code, d: Code, e: Code, s: Emitted)
    ensures Emit(Cat(a, Cat(b, Cat(c, Cat(d, e)))), s) == Emit(e, Emit(d, Emit(c, Emit(b, Emit(a, s)))))
  {
    hide Emit;
    EmitCat(a, Cat(b, Cat(c, Cat(d, e))), s);
    Emit4(b, c, d, e, Emit(a, s));
  }

  lemma {:induction false} Sizes5(a: Code, b: Code, c: Code, d: Code, e: Code)
    ensures Size(Cat(a, Cat(b, Cat(c, Cat(d, e))))) == Size(a) + Size(b) + Size(c) + Size(d) + Size(e)
  {
    hide Size;
    PlainCat(d, e, 0); PlainCat(c, Cat(d, e), 0); PlainCat(b, Cat(c, Cat(d, e)), 0); PlainCat(a, Cat(b, Cat(c, Cat(d, e))), 0);
  }

  /** Writing displacement v at p makes e into e'. */
  ghost predicate Mended(e: Emitted, p: int, v: int, e': Emitted)
  {
    0 <= p && p + 4 <= |e.bytes| && e.(bytes := Patch(e.bytes, p, v)) == e'
  }

  /** Patching the displacement of an instruction that was emitted with d0 and
      followed by b gives what emitting it with d would have given. */
  lemma {:induction false} PatchJump(i0: Instr, i: Instr, b: Code, t: Emitted)
    requires (i0.Jcc? && i.Jcc? && i0.cc == i.cc) || (i0.Jmp? && i.Jmp?)
    ensures var s0 := Emit(b, Emit(I(i0), t));
      var p := |t.bytes| + (if i.Jcc? then 2 else 1);
      p + 4 <= |s0.bytes| && s0.(bytes := Patch(s0.bytes, p, i.disp)) == Emit(b, Emit(I(i), t))
  {
    hide LE4;
    EmitI(i0, t); EmitI(i, t);
    LenIsLength(i0); LenIsLength(i);
    var head: seq<Byte> := if i.Jcc? then [0x0F, 0x80 + CcNibble(i.cc)] else [0xE9];
    assert Encode(i0) == head + LE4(i0.disp) && Encode(i) == head + LE4(i.disp);
    PatchMiddle(t.bytes, head, i0.disp, Raw(b, |t.bytes| + Len(i0), t.labels), i.disp);
  }

  /** && and || after the first test, with no jump patched. */
  function LogicOpen(r: Code, cc: Cc, v: int, s: Emitted): Emitted
  {
    var j0 := I(Jcc(cc, PLACE_JMP));
    Emit(I(Jmp(PLACE_JCC)), Emit(I(MovEaxImm(v)), Emit(j0, Emit(I(TestRax(false)), Emit(r, Emit(j0, s))))))
  }

  /** The joining of && and ||: three forward jumps patched once their targets are known. */
  lemma {:induction false} LogicPatched(r: Code, cc: Cc, v: int, s2: Emitted)
    ensures var j0, k0, t := I(Jcc(cc, PLACE_JMP)), I(Jmp(PLACE_JCC)), I(TestRax(false));
      var d := Size(r) + 18;
      var a := LogicOpen(r, cc, v, s2);
      var s5 := Emit(t, Emit(r, Emit(I(Jcc(cc, d)), s2)));
      var b := Emit(k0, Emit(I(MovEaxImm(v)), Emit(j0, s5)));
      var s7 := Emit(I(MovEaxImm(v)), Emit(I(Jcc(cc, 10)), s5));
      var c := Emit(k0, s7);
      var e := Emit(I(MovEaxImm(1 - v)), c);
      && Mended(a, |s2.bytes| + 2, d, b)
      && |s5.bytes| == |s2.bytes| + 6 + Size(r) + 2 && Mended(b, |s5.bytes| + 2, 10, c)
      && |s7.bytes| == |s5.bytes| + 11 && Mended(e, |s7.bytes| + 1, 5, Emit(LogicMidTail(r, cc, v), s2))
  {
    hide Emit, Size, Patch;
    var j0, k0, t := I(Jcc(cc, PLACE_JMP)), I(Jmp(PLACE_JCC)), I(TestRax(false));
    var d := Size(r) + 18;
    var mov, mov' := I(MovEaxImm(v)), I(MovEaxImm(1 - v));
    var jd := I(Jcc(cc, d));
    var s3 := Emit(jd, s2);
    var s5 := Emit(t, Emit(r, s3));
    var j10 := I(Jcc(cc, 10));
    var s7 := Emit(mov, Emit(j10, s5));
    SizeI(Jcc(cc, d)); SizeI(TestRax(false)); SizeI(Jcc(cc, 10)); SizeI(MovEaxImm(v)); SizeI(Jcc(cc, PLACE_JMP));
    EmitSize(jd, s2); EmitSize(r, s3); EmitSize(t, Emit(r, s3)); EmitSize(j10, s5); EmitSize(mov, Emit(j10, s5));
    Emit5(r, t, j0, mov, k0, Emit(j0, s2));
    Emit5(r, t, j0, mov, k0, s3);
    PatchJump(Jcc(cc, PLACE_JMP), Jcc(cc, d), Cat(r, Cat(t, Cat(j0, Cat(mov, k0)))), s2);
    EmitCat(mov, k0, Emit(j0, s5)); EmitCat(mov, k0, Emit(j10, s5));
    PatchJump(Jcc(cc, PLACE_JMP), Jcc(cc, 10), Cat(mov, k0), s5);
    PatchJump(Jmp(PLACE_JCC), Jmp(5), mov', s7);
    Emit3(mov, I(Jmp(5)), mov', Emit(j10, s5));
    EmitCat(j10, LogicTail(v), s5);
    EmitCat(t, Cat(j10, LogicTail(v)), Emit(r, s3));
    EmitCat(r, LogicEnd(cc, v), s3);
    EmitCat(jd, Cat(r, LogicEnd(cc, v)), s2);
  }

  /** LogicMid after its first test. */
  function LogicMidTail(r: Code, cc: Cc, v: int): Code
  {
    Cat(I(Jcc(cc, Size(r) + 18)), Cat(r, LogicEnd(cc, v)))
  }

  lemma {:induction false} LogicRoom(r: Code, cc: Cc, v: int)
    ensures Size(LogicMidTail(r, cc, v)) == 6 + Size(r) + 23
  {
    hide Size;
    LogicEndSize(Env(map[], map[], []), 0, cc, v);
    SizeI(Jcc(cc, Size(r) + 18));
    PlainCat(r, LogicEnd(cc, v), 0);
    PlainCat(I(Jcc(cc, Size(r) + 18)), Cat(r, LogicEnd(cc, v)), 0);
  }

  /** The arms of a conditional after its test. */
  function CondRest(t: Code, f: Code): Code { Cat(I(Jcc(Eq, Size(t) + 6)), Cat(t, CondElse(f))) }

  lemma {:induction false} CondRoom(t: Code, f: Code)
    ensures Size(CondRest(t, f)) == 6 + Size(t) + 6 + Size(f) + 2
    ensures Size(I(PopRax)) == 1
  {
    hide Size;
    SizeI(PopRax);
    CondElseShape(Env(map[], map[], []), 0, f);
    SizeI(Jcc(Eq, Size(t) + 6));
    PlainCat(t, CondElse(f), 0);
    PlainCat(I(Jcc(Eq, Size(t) + 6)), Cat(t, CondElse(f)), 0);
  }

  /** After the first arm has been pushed. */
  function FirstArmState(t: Code, s: Emitted): Emitted
  {
    Emit(I(PushRax), Emit(t, Emit(I(Jcc(Eq, Size(t) + 6)), s)))
  }

  /** The two jumps of a conditional, patched once their targets are known. */
  lemma {:induction false} CondPatched(t: Code, f: Code, s2: Emitted)
    ensures var j0, k0, push := I(Jcc(Eq, PLACE_JMP)), I(Jmp(PLACE_JCC)), I(PushRax);
      var a := Emit(k0, Emit(push, Emit(t, Emit(j0, s2))));
      var s5 := Emit(push, Emit(t, Emit(I(Jcc(Eq, Size(t) + 6)), s2)));
      var b := Emit(k0, s5);
      var c := Emit(push, Emit(f, b));
      var d := Emit(push, Emit(f, Emit(I(Jmp(Size(f) + 1)), s5)));
      && |s2.bytes| + 6 <= |a.bytes| && a.(bytes := Patch(a.bytes, |s2.bytes| + 2, Size(t) + 6)) == b
      && |s5.bytes| == |s2.bytes| + 6 + Size(t) + 1 && |s5.bytes| + 5 <= |c.bytes|
      && c.(bytes := Patch(c.bytes, |s5.bytes| + 1, Size(f) + 1)) == d
      && Emit(I(PopRax), d) == Emit(CondRest(t, f), s2)
  {
    hide Emit, Size, Patch;
    var j0, k0, push := I(Jcc(Eq, PLACE_JMP)), I(Jmp(PLACE_JCC)), I(PushRax);
    var je, jf := I(Jcc(Eq, Size(t) + 6)), I(Jmp(Size(f) + 1));
    var s3 := Emit(je, s2);
    var s5 := Emit(push, Emit(t, s3));
    SizeI(Jcc(Eq, Size(t) + 6)); SizeI(PushRax);
    EmitSize(je, s2); EmitSize(t, s3); EmitSize(push, Emit(t, s3));
    Emit3(t, push, k0, Emit(j0, s2)); Emit3(t, push, k0, s3);
    PatchJump(Jcc(Eq, PLACE_JMP), Jcc(Eq, Size(t) + 6), Cat(t, Cat(push, k0)), s2);
    EmitCat(f, push, Emit(k0, s5)); EmitCat(f, push, Emit(jf, s5));
    PatchJump(Jmp(PLACE_JCC), Jmp(Size(f) + 1), Cat(f, push), s5);
    Emit5(push, jf, f, push, I(PopRax), Emit(t, s3));
    Emit3(je, t, CondElse(f), s2);
  }

  lemma {:induction false} TestParts(c: Expr, cc: Cc, l: int, s: Emitted)
    ensures Size(TestCode(c, cc, l)) == Size(Cat(ECode(c), I(TestRax(Wide(c))))) + 6
    ensures Emit(TestCode(c, cc, l), s) == Emit(JccL(cc, l), Emit(Cat(ECode(c), I(TestRax(Wide(c)))), s))
  {
    hide Emit, Size, ECode;
    var t := I(TestRax(Wide(c)));
    PlainCat(ECode(c), Cat(t, JccL(cc, l)), 0); PlainCat(t, JccL(cc, l), 0); PlainCat(ECode(c), t, 0); Sizes(l, cc);
    Emit3(ECode(c), t, JccL(cc, l), s);
    EmitCat(ECode(c), t, s);
  }

  lemma {:induction false} ForParts(ic: Code, n: int, test: Code, bc: Code, end: Code, s: Emitted)
    ensures Size(Cat(ic, Cat(Lab(n), Cat(test, Cat(bc, end))))) == Size(ic) + Size(Cat(Lab(n), test)) + Size(bc) + Size(end)
    ensures Emit(Cat(ic, Cat(Lab(n), Cat(test, Cat(bc, end)))), s) == Emit(end, Emit(bc, Emit(Cat(Lab(n), test), Emit(ic, s))))
  {
    hide Emit, Size;
    Sizes5(ic, Lab(n), test, bc, end); PlainCat(Lab(n), test, 0); Sizes(n, Eq);
    Emit5(ic, Lab(n), test, bc, end, s);
    EmitCat(Lab(n), test, Emit(ic, s));
  }

  /** A jump to a known label, and one that waits for its label. */
  lemma {:induction false} JmpEmitted(l: int, s: Emitted)
    ensures var off, e := Lookup(s.labels, l), Emit(I(Jmp(PLACE_JMP)), s);
      Emit(JmpL(l), s) == if off >= 0 then Emit(I(Jmp(off - (|s.bytes| + 5))), s)
        else e.(fixups := e.fixups + [Fixup(l, |s.bytes|, true)])
  {
    hide Encode, LE4, Lookup;
    EmitI(Jmp(PLACE_JMP), s); EmitI(Jmp(Lookup(s.labels, l) - (|s.bytes| + 5)), s);
    assert s.labels + [] == s.labels && s.calls + [] == s.calls && s.fixups + [] == s.fixups;
  }

  lemma {:induction false} JccEmitted(cc: Cc, l: int, s: Emitted)
    ensures var off, e := Lookup(s.labels, l), Emit(I(Jcc(cc, PLACE_JCC)), s);
      Emit(JccL(cc, l), s) == if off >= 0 then Emit(I(Jcc(cc, off - (|s.bytes| + 6))), s)
        else e.(fixups := e.fixups + [Fixup(l, |s.bytes|, false)])
  {
    hide Encode, LE4, Lookup;
    EmitI(Jcc(cc, PLACE_JCC), s); EmitI(Jcc(cc, Lookup(s.labels, l) - (|s.bytes| + 6)), s);
    assert s.labels + [] == s.labels && s.calls + [] == s.calls && s.fixups + [] == s.fixups;
  }

  /** The code of an if, piece by piece. */
  lemma {:induction false} IfElseParts(c: Expr, t: Stmt, e: Stmt, brk: int, cont: int, g: G, s: Emitted)
    ensures var n, test := g.next, Cat(ECode(c), I(TestRax(Wide(c))));
      var t', r := SCode(t, brk, cont, g.(next := g.next + 2)), SCode(IfElse(c, t, e), brk, cont, g);
      var e' := SCode(e, brk, cont, t'.g);
      && r.g == e'.g && Size(r.code) == Size(test) + 6 + Size(t'.code) + 5 + Size(e'.code)
      && Emit(r.code, s) == Emit(Lab(n + 1), Emit(e'.code, Emit(Lab(n), Emit(JmpL(n + 1), Emit(t'.code, Emit(JccL(Eq, n), Emit(test, s)))))))
  {
    hide Emit, Size, ECode, TestCode;
    var n := g.next;
    var t' := SCode(t, brk, cont, g.(next := n + 2));
    var tc, ec := t'.code, SCode(e, brk, cont, t'.g).code;
    Sizes5(tc, JmpL(n + 1), Lab(n), ec, Lab(n + 1)); Sizes(n, Eq); Sizes(n + 1, Eq);
    TestParts(c, Eq, n, s);
    var test := TestCode(c, Eq, n);
    PlainCat(test, Cat(tc, Cat(JmpL(n + 1), Cat(Lab(n), Cat(ec, Lab(n + 1))))), 0);
    EmitCat(test, Cat(tc, Cat(JmpL(n + 1), Cat(Lab(n), Cat(ec, Lab(n + 1))))), s);
    Emit5(tc, JmpL(n + 1), Lab(n), ec, Lab(n + 1), Emit(test, s));
  }

  /** The code of a loop, piece by piece. */
  lemma {:induction false} DoParts(b: Stmt, c: Expr, brk: int, cont: int, g: G, s: Emitted)
    ensures var n, b', t := g.next, SCode(b, g.next + 1, g.next, g.(next := g.next + 2)), TestCode(c, Ne, g.next);
      var r := SCode(DoWhile(b, c), brk, cont, g);
      && r.g == b'.g && Size(r.code) == Size(b'.code) + Size(t)
      && Emit(r.code, s) == Emit(Lab(n + 1), Emit(t, Emit(b'.code, Emit(Lab(n), s))))
  {
    hide Emit, Size, TestCode;
    var n, b', t := g.next, SCode(b, g.next + 1, g.next, g.(next := g.next + 2)).code, TestCode(c, Ne, g.next);
    PlainCat(Lab(n), Cat(b', Cat(t, Lab(n + 1))), 0); PlainCat(b', Cat(t, Lab(n + 1)), 0);
    PlainCat(t, Lab(n + 1), 0); Sizes(n, Eq); Sizes(n + 1, Eq);
    Emit4(Lab(n), b', t, Lab(n + 1), s);
  }

  lemma {:induction false} WhileParts(c: Expr, b: Stmt, brk: int, cont: int, g: G, s: Emitted)
    ensures var n, b', t := g.next, SCode(b, g.next + 1, g.next, g.(next := g.next + 2)), TestCode(c, Eq, g.next + 1);
      var r := SCode(While(c, b), brk, cont, g);
      && r.g == b'.g && Size(r.code) == Size(t) + Size(b'.code) + 5
      && Emit(r.code, s) == Emit(Lab(n + 1), Emit(JmpL(n), Emit(b'.code, Emit(t, Emit(Lab(n), s)))))
  {
    hide Emit, Size, TestCode;
    var n, b', t := g.next, SCode(b, g.next + 1, g.next, g.(next := g.next + 2)).code, TestCode(c, Eq, g.next + 1);
    Sizes5(Lab(n), t, b', JmpL(n), Lab(n + 1)); Sizes(n, Eq); Sizes(n + 1, Eq);
    Emit5(Lab(n), t, b', JmpL(n), Lab(n + 1), s);
  }

  lemma {:induction false} ForWhole(init: OptExpr, cond: OptExpr, step: OptExpr, b: Stmt, brk: int, cont: int, g: G, s: Emitted)
    ensures var n, b' := g.next, SCode(b, g.next + 1, g.next + 2, g.(next := g.next + 3));
      var top, end, r := Cat(Lab(n), OptTest(cond, n + 1)), ForEnd(OptCode(step), n), SCode(For(init, cond, step, b), brk, cont, g);
      && r.g == b'.g && Size(r.code) == Size(OptCode(init)) + Size(top) + Size(b'.code) + Size(end)
      && Emit(r.code, s) == Emit(end, Emit(b'.code, Emit(top, Emit(OptCode(init), s))))
  {
    hide Emit, Size, OptCode, OptTest, ForEnd;
    var n := g.next;
    var b' := SCode(b, n + 1, n + 2, g.(next := n + 3)).code;
    ForParts(OptCode(init), n, OptTest(cond, n + 1), b', ForEnd(OptCode(step), n), s);
  }

  /** The code of a switch, piece by piece. */
  lemma {:induction false} SwitchParts(c: Expr, items: Items, brk: int, cont: int, g: G, s: Emitted)
    ensures var n, k := g.next, LabelCount(items);
      var body := ItemCode(items, n, n + k + 1, cont, g.(next := n + k + 2));
      var sel, r := EndPlan(items, n, body.g.next, n + k), SCode(Switch(c, items), brk, cont, g);
      && r.g == body.g.(next := body.g.next + RangeCount(items))
      && Size(r.code) == Size(ECode(c)) + Size(I(PushRax)) + 5 + Size(body.code) + Size(sel)
      && Emit(r.code, s) == Emit(sel, Emit(body.code, Emit(JmpL(n + k), Emit(I(PushRax), Emit(ECode(c), s)))))
  {
    hide Emit, Size, ECode, ItemCode, Dispatch, DefaultJump, LabelCount, RangeCount;
    var n, k := g.next, LabelCount(items);
    var body := ItemCode(items, n, n + k + 1, cont, g.(next := n + k + 2));
    var sel := EndPlan(items, n, body.g.next, n + k);
    Sizes5(ECode(c), I(PushRax), JmpL(n + k), body.code, sel); Sizes(n + k, Eq);
    Emit5(ECode(c), I(PushRax), JmpL(n + k), body.code, sel, s);
  }

  lemma {:induction false} CondJoined(t: Code, f: Code, s: Emitted)
    ensures Emit(I(PopRax), Emit(I(PushRax), Emit(f, Emit(I(Jmp(Size(f) + 1)), FirstArmState(t, s))))) == Emit(CondRest(t, f), s)
  {
    hide Emit, Size, Patch;
    CondPatched(t, f, s);
  }

  lemma {:induction false} CondWhole(c: Code, t: Code, f: Code, s: Emitted)
    ensures Size(Cat(c, Cat(I(TestRax(false)), CondRest(t, f)))) == Size(c) + Size(I(TestRax(false))) + 14 + Size(t) + Size(f)
    ensures Emit(I(PopRax), Emit(I(PushRax), Emit(f, Emit(I(Jmp(Size(f) + 1)), FirstArmState(t, Emit(I(TestRax(false)), Emit(c, s)))))))
      == Emit(Cat(c, Cat(I(TestRax(false)), CondRest(t, f))), s)
  {
    hide Emit, Size, Patch, CondRest, FirstArmState;
    PlainCat(c, Cat(I(TestRax(false)), CondRest(t, f)), 0); PlainCat(I(TestRax(false)), CondRest(t, f), 0);
    CondRoom(t, f);
    Emit3(c, I(TestRax(false)), CondRest(t, f), s);
    CondJoined(t, f, Emit(I(TestRax(false)), Emit(c, s)));
  }

  /** The fields of the fixups of c lie inside its bytes. */
  lemma {:induction false} FixesInside(c: Code, pos: nat, known: seq<Def>, f: Fixup)
    requires f in Fixes(c, pos, known)
    ensures FieldAt(f) + 4 <= pos + Size(c)
    decreases c
  {
    if c.Cat? {
      if f in Fixes(c.a, pos, known) {
        FixesInside(c.a, pos, known, f);
      } else {
        FixesInside(c.b, pos + Size(c.a), known + Labs(c.a, pos), f);
      }
    }
  }

  /** Offsets below 2^23 and above -2^23 have the top byte 0 or 255. */
  lemma {:induction false} TopByte(d: int)
    requires -0x80_0000 <= d < 0x80_0000
    ensures LE4(d)[3] == 0 || LE4(d)[3] == 255
  {
    assert d / 0x100_0000 == 0 || d / 0x100_0000 == -1;
  }

  const BUFFER_LIMIT: nat := 0x80_0000

  lemma {:induction false} KnownOffset(labels: seq<Def>, l: int, pos: nat)
    requires forall d :: d in labels ==> d.at <= pos
    ensures Lookup(labels, l) <= pos
    decreases |labels|
  {
    if labels != [] && labels[0].id != l {
      KnownOffset(labels[1..], l, pos);
    }
  }

  lemma {:induction false} LabsBelow(c: Code, pos: nat, d: Def)
    requires d in Labs(c, pos)
    ensures d.at <= pos + Size(c)
    decreases c
  {
    if c.Cat? {
      if d in Labs(c.a, pos) { LabsBelow(c.a, pos, d); } else { LabsBelow(c.b, pos + Size(c.a), d); }
    }
  }

  /** The byte the generator looks at to see whether the body ended in a return. */
  lemma {:induction false} LastByte(c: Code, pos: nat, labels: seq<Def>)
    requires Size(c) > 0 && pos + Size(c) <= BUFFER_LIMIT && forall d :: d in labels ==> d.at <= pos
    ensures Raw(c, pos, labels)[Size(c) - 1] == 0xC3 <==> EndsInC3(c)
    decreases c
  {
    hide LE4, Encode, Lookup, Len;
    match c {
      case Cat(a, b) =>
        var known := labels + Labs(a, pos);
        if Size(b) == 0 {
          LastByte(a, pos, labels);
        } else {
          forall d | d in known ensures d.at <= pos + Size(a) {
            if d in Labs(a, pos) { LabsBelow(a, pos, d); }
          }
          LastByte(b, pos + Size(a), known);
        }
      case JmpL(l) =>
        KnownOffset(labels, l, pos);
        LastOfJump(Jmp(if Lookup(labels, l) >= 0 then Lookup(labels, l) - (pos + 5) else PLACE_JMP));
      case JccL(cc, l) =>
        KnownOffset(labels, l, pos);
        LastOfJump(Jcc(cc, if Lookup(labels, l) >= 0 then Lookup(labels, l) - (pos + 6) else PLACE_JCC));
      case CallF(_) => LastOfJump(CallRel(PLACE_JMP));
      case I(i) => LenIsLength(i);
      case Nil =>
      case Lab(_) =>
    }
  }

  lemma {:induction false} MainEnd(c: Code, s: Emitted)
    requires Size(c) > 0 && |s.bytes| + Size(c) <= BUFFER_LIMIT && s.labels == []
    ensures var e := Emit(c, s); |e.bytes| > 0 && (e.bytes[|e.bytes| - 1] == 0xC3 <==> EndsInC3(c))
  {
    hide Emit, Raw, EndsInC3, Size;
    LastEmitted(c, s);
    LastByte(c, |s.bytes|, []);
  }

  lemma {:induction false} LastOfJump(i: Instr)
    requires i.Jmp? || i.Jcc? || i.CallRel?
    requires -0x80_0000 <= i.disp < 0x80_0000 || i.disp == PLACE_JMP || i.disp == PLACE_JCC
    ensures Encode(i)[|Encode(i)| - 1] != 0xC3 && |Encode(i)| == Len(i)
  {
    LenIsLength(i);
    if -0x80_0000 <= i.disp < 0x80_0000 { TopByte(i.disp); }
    assert Encode(i)[|Encode(i)| - 1] == LE4(i.disp)[3];
  }

  /** A statement in a switch body, and what follows it. */
  lemma {:induction false} StmtItem(items: Items, l: int, brk: int, cont: int, g: G, st: Emitted)
    requires items.IStmt?
    ensures var s' := SCode(items.s, brk, cont, g);
      var r' := ItemCode(items.rest, l, brk, cont, s'.g);
      var all := ItemCode(items, l, brk, cont, g);
      && all.g == r'.g && Size(all.code) == Size(s'.code) + Size(r'.code) && Emit(all.code, st) == Emit(r'.code, Emit(s'.code, st))
  {
    hide SCode, Emit;
    EmitCat(SCode(items.s, brk, cont, g).code, ItemCode(items.rest, l, brk, cont, SCode(items.s, brk, cont, g).g).code, st);
  }

  /** A case or default label, and what follows it. */
  lemma {:induction false} LabelItem(items: Items, l: int, brk: int, cont: int, g: G, st: Emitted)
    requires items.ICase? || items.IDefault?
    ensures var r' := ItemCode(items.rest, l + 1, brk, cont, g);
      var all := ItemCode(items, l, brk, cont, g);
      && all.g == r'.g && Size(all.code) == Size(r'.code) && Emit(all.code, st) == Emit(r'.code, Emit(Lab(l), st))
  {
    hide SCode, Emit;
    EmitCat(Lab(l), ItemCode(items.rest, l + 1, brk, cont, g).code, st);
    Sizes(l, Eq);
  }

  lemma {:induction false} NoItems(l: int, brk: int, cont: int, g: G)
    ensures ItemCode(INil, l, brk, cont, g) == Gen(Nil, g)
  {
  }

  class CodeGenerator {
    const codeBuf: array<Byte>
    var codeSize: nat
    var labels: seq<Def>
    var fixups: seq<Fixup>
    var calls: seq<CallReloc>
    var counter: int
    var gotoLabels: map<string, int>
    var breakTarget: int
    var continueTarget: int

    constructor (capacity: nat)
      ensures Valid() && fresh(codeBuf) && codeBuf.Length == capacity
      ensures State() == Emitted([], [], [], []) && counter == 0 && gotoLabels == map[]
      ensures breakTarget == -1 && continueTarget == -1
    {
      codeBuf := new Byte[capacity];
      codeSize, labels, fixups, calls, counter, gotoLabels := 0, [], [], [], 0, map[];
      breakTarget, continueTarget := -1, -1;
    }

    ghost predicate Valid()
      reads this
    {
      codeSize <= codeBuf.Length && counter >= 0
    }

    ghost predicate Room(n: nat)
      reads this
    {
      codeSize + n <= codeBuf.Length
    }

    /** What has been emitted. */
    ghost function State(): Emitted
      requires Valid()
      reads this, codeBuf
    {
      Emitted(codeBuf[..codeSize], labels, fixups, calls)
    }

    /** The label counter and the goto names. */
    ghost function Numbers(): G
      reads this
    {
      G.G(counter, gotoLabels)
    }

    lemma {:induction false} SizeHere()
      requires Valid()
      ensures |State().bytes| == codeSize
    {
    }

    // ----- Bytes -----

    method E1(b: int)
      requires Valid() && Room(1)
      modifies `codeSize, codeBuf
      ensures Valid() && codeSize == old(codeSize) + 1
      ensures State() == old(State()).(bytes := old(State()).bytes + [b % 256])
    {
      codeBuf[codeSize] := b % 256;
      codeSize := codeSize + 1;
      assert codeBuf[..codeSize] == old(codeBuf[..codeSize]) + [b % 256];
    }

    method Instr(i: Instr)
      requires Valid() && Room(Size(I(i)))
      modifies `codeSize, codeBuf
      ensures Valid() && codeSize == old(codeSize) + Size(I(i)) && State() == Emit(I(i), old(State()))
    {
      hide Encode, Emit;
      var s := Encode(i);
      LenIsLength(i); SizeI(i); EmitI(i, State());
      ghost var before := State();
      var k := 0;
      while k < |s|
        invariant 0 <= k <= |s| && Valid() && codeSize == |before.bytes| + k
        invariant State() == before.(bytes := before.bytes + s[..k])
      {
        E1(s[k]);
        assert s[..k + 1] == s[..k] + [s[k]];
        assert before.bytes + s[..k] + [s[k]] == before.bytes + s[..k + 1];
        k := k + 1;
      }
      assert s[..k] == s;
    }

    /** Overwrites four bytes in place. */
    method PatchAt(p: nat, v: int)
      requires Valid() && p + 4 <= codeSize
      modifies codeBuf
      ensures State() == old(State()).(bytes := Patch(old(State()).bytes, p, v))
    {
      hide LE4;
      ghost var before := codeBuf[..codeSize];
      var f := LE4(v);
      codeBuf[p] := f[0];
      codeBuf[p + 1] := f[1];
      codeBuf[p + 2] := f[2];
      codeBuf[p + 3] := f[3];
      assert codeBuf[..codeSize] == Patch(before, p, v);
    }

    // ----- Labels and jumps -----

    method NewLabel() returns (id: int)
      requires Valid()
      modifies `counter
      ensures id == old(counter) && counter == old(counter) + 1 && Valid() && State() == old(State())
    {
      id := counter;
      counter := counter + 1;
    }

    /** Where break and continue lead from now on. */
    method SetTargets(onBreak: int, onContinue: int)
      requires Valid()
      modifies `breakTarget, `continueTarget
      ensures breakTarget == onBreak && continueTarget == onContinue && Valid() && State() == old(State())
    {
      breakTarget, continueTarget := onBreak, onContinue;
    }

    method SetLabel(id: int)
      requires Valid()
      modifies `labels
      ensures State() == Emit(Lab(id), old(State()))
    {
      labels := labels + [Def(id, codeSize)];
      ghost var s := old(State());
      assert s.bytes + [] == s.bytes && s.fixups + [] == s.fixups && s.calls + [] == s.calls;
    }

    method FindLabelOffset(id: int) returns (off: int)
      ensures off == Lookup(labels, id)
    {
      var i := 0;
      while i < |labels|
        invariant 0 <= i <= |labels| && Lookup(labels, id) == Lookup(labels[i..], id)
      {
        if labels[i].id == id { return labels[i].at; }
        assert labels[i..][1..] == labels[i + 1..];
        i := i + 1;
      }
      off := -1;
    }

    method EmitJmp(l: int)
      requires Valid() && Room(5)
      modifies `codeSize, `fixups, codeBuf
      ensures Valid() && codeSize == old(codeSize) + 5 && State() == Emit(JmpL(l), old(State()))
    {
      hide Emit, Lookup;
      JmpEmitted(l, State());
      var off := FindLabelOffset(l);
      if off >= 0 {
        SizeI(Jmp(off - (codeSize + 5)));
        Instr(Jmp(off - (codeSize + 5)));
      } else {
        SizeI(Jmp(PLACE_JMP));
        Instr(Jmp(PLACE_JMP));
        fixups := fixups + [Fixup(l, codeSize - 5, true)];
      }
    }

    method EmitJcc(cc: Cc, l: int)
      requires Valid() && Room(6)
      modifies `codeSize, `fixups, codeBuf
      ensures Valid() && codeSize == old(codeSize) + 6 && State() == Emit(JccL(cc, l), old(State()))
    {
      hide Emit, Lookup;
      JccEmitted(cc, l, State());
      var off := FindLabelOffset(l);
      if off >= 0 {
        SizeI(Jcc(cc, off - (codeSize + 6)));
        Instr(Jcc(cc, off - (codeSize + 6)));
      } else {
        SizeI(Jcc(cc, PLACE_JCC));
        Instr(Jcc(cc, PLACE_JCC));
        fixups := fixups + [Fixup(l, codeSize - 6, false)];
      }
    }

    method EmitCall(fn: nat)
      requires Valid() && Room(5)
      modifies `codeSize, `calls, codeBuf
      ensures Valid() && codeSize == old(codeSize) + 5 && State() == Emit(CallF(fn), old(State()))
    {
      hide Encode, LE4;
      ghost var s := State();
      calls := calls + [CallReloc(codeSize + 1, fn)];
      EmitI(CallRel(PLACE_JMP), State());
      SizeI(CallRel(PLACE_JMP));
      Instr(CallRel(PLACE_JMP));
      assert s.labels + [] == s.labels && s.fixups + [] == s.fixups;
    }

    method GotoLabel(name: string) returns (id: int)
      requires Valid()
      modifies `counter, `gotoLabels
      ensures Valid() && State() == old(State())
      ensures (id, Numbers()) == GotoId(old(Numbers()), name) && counter >= old(counter)
    {
      if name in gotoLabels {
        id := gotoLabels[name];
      } else {
        id := NewLabel();
        gotoLabels := gotoLabels[name := id];
      }
    }

    /** Resolves the recorded jumps, in place. */
    method ResolveFixups()
      requires Valid() && forall f :: f in fixups ==> FieldAt(f) + 4 <= codeSize
      modifies codeBuf
      ensures State() == old(State()).(bytes := ApplyFixups(old(State()).bytes, fixups, labels))
    {
      hide LE4;
      ghost var before := State();
      var i := 0;
      while i < |fixups|
        invariant 0 <= i <= |fixups|
        invariant ApplyFixups(State().bytes, fixups[i..], labels) == ApplyFixups(before.bytes, fixups, labels)
      {
        var f := fixups[i];
        assert f in fixups;
        assert fixups[i..][0] == f && fixups[i..][1..] == fixups[i + 1..];
        var off := FindLabelOffset(f.target);
        if off >= 0 {
          PatchAt(FieldAt(f), off - (FieldAt(f) + 4));
        }
        i := i + 1;
      }
      NoFixups(State().bytes, labels);
    }

    // ----- Expressions -----

    method Op(op: BinOp, w: bool)
      requires Valid() && Room(Size(OpCode(op, w)))
      modifies `codeSize, codeBuf
      ensures Valid() && codeSize == old(codeSize) + Size(OpCode(op, w)) && State() == Emit(OpCode(op, w), old(State()))
    {
      hide Emit, Size;
      ghost var s := State();
      match op {
        case Add => Instr(Alu(w, AAdd));
        case Mul => Instr(Alu(w, AMul));
        case And => Instr(Alu(w, AAnd));
        case Or => Instr(Alu(w, AOr));
        case Xor => Instr(Alu(w, AXor));
        case Sub => Two(Xchg(w), Alu(w, ASub));
        case ShiftL => Two(Xchg(w), Shl(w));
        case ShiftR => Two(Xchg(w), Sar(w));
        case Div => Divide(w);
        case Mod =>
          PlainCat(DivCode(w), I(MovRaxRdx(w)), 0); EmitCat(DivCode(w), I(MovRaxRdx(w)), s);
          Divide(w);
          Instr(MovRaxRdx(w));
        case Cmp(cc) =>
          PlainCat(I(CmpRcxRax(w)), SetCode(cc), 0); EmitCat(I(CmpRcxRax(w)), SetCode(cc), s);
          Instr(CmpRcxRax(w));
          Two(Setcc(cc), MovzxAl);
      }
    }

    method Two(i: Instr, j: Instr)
      requires Valid() && Room(Size(Cat(I(i), I(j))))
      modifies `codeSize, codeBuf
      ensures Valid() && codeSize == old(codeSize) + Size(Cat(I(i), I(j))) && State() == Emit(Cat(I(i), I(j)), old(State()))
    {
      hide Emit, Size;
      PlainCat(I(i), I(j), 0); EmitCat(I(i), I(j), State());
      Instr(i);
      Instr(j);
    }

    method Divide(w: bool)
      requires Valid() && Room(Size(DivCode(w)))
      modifies `codeSize, codeBuf
      ensures Valid() && codeSize == old(codeSize) + Size(DivCode(w)) && State() == Emit(DivCode(w), old(State()))
    {
      hide Emit, Size;
      PlainCat(I(Xchg(w)), Cat(I(Cdq(w)), I(Idiv(w))), 0); EmitCat(I(Xchg(w)), Cat(I(Cdq(w)), I(Idiv(w))), State());
      Instr(Xchg(w));
      Two(Cdq(w), Idiv(w));
    }

    /** Generates code for e and reports whether its type size is now 8. */
    method Expr(e: Expr) returns (wide: bool)
      requires Valid() && Room(Size(ECode(e)))
      modifies `codeSize, `calls, codeBuf
      ensures Valid() && codeSize == old(codeSize) + Size(ECode(e)) && State() == Emit(ECode(e), old(State()))
      ensures wide == Wide(e)
      decreases e, 2
    {
      hide State, Emit, Size, OpCode;
      ghost var s := State();
      wide := false;
      match e {
        case Const(c) =>
          if c < 0 { Two(MovEaxImm(c), Movsxd); } else { Instr(MovEaxImm(c)); }
        case Var(x) => Instr(LoadEax(Off(x)));
        case Bin(op, l, r) => wide := Binary(op, l, r);
        case LAnd(l, r) => Logic(l, r, true);
        case LOr(l, r) => Logic(l, r, false);
        case Comma(l, r) =>
          PlainCat(ECode(l), ECode(r), 0); EmitCat(ECode(l), ECode(r), s);
          var _ := Expr(l);
          var _ := Expr(r);
        case Cond(c, t, f) => wide := Conditional(c, t, f);
        case Neg(e1) =>
          PlainCat(ECode(e1), I(NegRax), 0); EmitCat(ECode(e1), I(NegRax), s);
          var _ := Expr(e1);
          Instr(NegRax);
        case BitNot(e1) =>
          PlainCat(ECode(e1), I(NotRax(Wide(e1))), 0); EmitCat(ECode(e1), I(NotRax(Wide(e1))), s);
          var w := Expr(e1);
          Instr(NotRax(w));
        case Not(e1) =>
          PlainCat(ECode(e1), Cat(I(TestRax(Wide(e1))), SetCode(Eq)), 0);
          PlainCat(I(TestRax(Wide(e1))), SetCode(Eq), 0);
          Emit3(ECode(e1), I(TestRax(Wide(e1))), SetCode(Eq), s);
          var w := Expr(e1);
          Instr(TestRax(w));
          Two(Setcc(Eq), MovzxAl);
        case Assign(x, e1) =>
          PlainCat(ECode(e1), I(StoreEax(Off(x))), 0); EmitCat(ECode(e1), I(StoreEax(Off(x))), s);
          var _ := Expr(e1);
          Instr(StoreEax(Off(x)));
        case IncDec(x, up, postfix) => StepVar(x, up, postfix);
        case Call(fn, args) =>
          CallFunction(fn, args);
          wide := true;
      }
    }

    method Binary(op: BinOp, l: Expr, r: Expr) returns (wide: bool)
      requires Valid() && Room(Size(ECode(Bin(op, l, r))))
      modifies `codeSize, `calls, codeBuf
      ensures Valid() && codeSize == old(codeSize) + Size(ECode(Bin(op, l, r)))
      ensures State() == Emit(ECode(Bin(op, l, r)), old(State())) && wide == Wide(Bin(op, l, r))
      decreases Bin(op, l, r), 0
    {
      hide State, Emit, Size, OpCode;
      ghost var oc := OpCode(op, Wide(l) || Wide(r));
      Sizes5(ECode(l), I(PushRax), ECode(r), I(PopRcx), oc);
      Emit5(ECode(l), I(PushRax), ECode(r), I(PopRcx), oc, State());
      var wl := Expr(l);
      Instr(PushRax);
      var wr := Expr(r);
      Instr(PopRcx);
      Op(op, wl || wr);
      wide := !op.Cmp? && (wl || wr);
    }

    method Logic(l: Expr, r: Expr, conj: bool)
      requires Valid() && Room(Size(ECode(if conj then LAnd(l, r) else LOr(l, r))))
      modifies `codeSize, `calls, codeBuf
      ensures var e := if conj then LAnd(l, r) else LOr(l, r);
        Valid() && codeSize == old(codeSize) + Size(ECode(e)) && State() == Emit(ECode(e), old(State()))
      decreases if conj then LAnd(l, r) else LOr(l, r), 0
    {
      hide Emit, Size;
      var cc, v := if conj then Eq else Ne, if conj then 1 else 0;
      ghost var lc, rest := ECode(l), LogicMidTail(ECode(r), cc, v);
      PlainCat(lc, Cat(I(TestRax(false)), rest), 0); PlainCat(I(TestRax(false)), rest, 0);
      Emit3(lc, I(TestRax(false)), rest, State());
      var _ := Expr(l);
      Instr(TestRax(false));
      LogicRest(r, cc, v);
    }

    /** && and || after the first test: the jumps are emitted with placeholders and
        patched in place when the code behind them is there. */
    method LogicRest(r: Expr, cc: Cc, v: int)
      requires Valid() && Room(Size(LogicMidTail(ECode(r), cc, v)))
      modifies `codeSize, `calls, codeBuf
      ensures Valid() && codeSize == old(codeSize) + Size(LogicMidTail(ECode(r), cc, v))
      ensures State() == Emit(LogicMidTail(ECode(r), cc, v), old(State()))
      decreases r, 4
    {
      hide State, Emit, Size, Patch, ECode;
      SizeHere();
      LogicRoom(ECode(r), cc, v);
      SizeI(MovEaxImm(1 - v));
      LogicPatched(ECode(r), cc, v, State());
      var j1 := codeSize;
      var j2 := LogicRight(r, cc, v);
      var ep, target := j2 + 11, codeSize;
      PatchAt(j1 + 2, target - (j1 + 6));
      PatchAt(j2 + 2, target - (j2 + 6));
      Instr(MovEaxImm(1 - v));
      PatchAt(ep + 1, codeSize - (ep + 5));
    }

    /** Both conditional jumps and the jump over the other value, not patched yet;
        j2 is where the second one is. */
    method LogicRight(r: Expr, cc: Cc, v: int) returns (j2: nat)
      requires Valid() && Room(6 + Size(ECode(r)) + 18)
      modifies `codeSize, `calls, codeBuf
      ensures Valid() && codeSize == old(codeSize) + 6 + Size(ECode(r)) + 18 && j2 == old(codeSize) + 6 + Size(ECode(r)) + 2
      ensures State() == LogicOpen(ECode(r), cc, v, old(State()))
      decreases r, 3
    {
      hide State;
      hide Emit, Size, ECode;
      SizeI(TestRax(false)); SizeI(Jcc(cc, PLACE_JMP)); SizeI(MovEaxImm(v)); SizeI(Jmp(PLACE_JCC));
      Instr(Jcc(cc, PLACE_JMP));
      var _ := Expr(r);
      Instr(TestRax(false));
      j2 := codeSize;
      Instr(Jcc(cc, PLACE_JMP));
      Instr(MovEaxImm(v));
      Instr(Jmp(PLACE_JCC));
    }

    method Conditional(c: Expr, t: Expr, f: Expr) returns (wide: bool)
      requires Valid() && Room(Size(ECode(Cond(c, t, f))))
      modifies `codeSize, `calls, codeBuf
      ensures Valid() && codeSize == old(codeSize) + Size(ECode(Cond(c, t, f)))
      ensures State() == Emit(ECode(Cond(c, t, f)), old(State())) && wide == Wide(Cond(c, t, f))
      decreases Cond(c, t, f), 1
    {
      hide State, Emit, Size, Patch, FirstArmState;
      CondWhole(ECode(c), ECode(t), ECode(f), State());
      var _ := Expr(c);
      Instr(TestRax(false));
      ghost var s := State();
      var first := FirstArm(t);
      var second := SecondArm(f, FirstArmState(ECode(t), s));
      wide := first || second;
    }

    /** The first arm, its value pushed, and the jump over the second one; the jump
        to the second arm is patched in place. */
    method FirstArm(t: Expr) returns (wide: bool)
      requires Valid() && Room(6 + Size(ECode(t)) + 6)
      modifies `codeSize, `calls, codeBuf
      ensures Valid() && codeSize == old(codeSize) + 6 + Size(ECode(t)) + 6 && wide == Wide(t)
      ensures State() == Emit(I(Jmp(PLACE_JCC)), FirstArmState(ECode(t), old(State())))
      decreases t, 3
    {
      hide State, Emit, Size, Patch, ECode, Wide;
      SizeHere();
      SizeI(Jcc(Eq, PLACE_JMP)); SizeI(PushRax); SizeI(Jmp(PLACE_JCC));
      CondPatched(ECode(t), Nil, State());
      var je := codeSize;
      Instr(Jcc(Eq, PLACE_JMP));
      wide := Expr(t);
      Instr(PushRax);
      Instr(Jmp(PLACE_JCC));
      PatchAt(je + 2, codeSize - (je + 6));
    }

    /** The second arm and the patch of the jump over it, which was emitted in state s;
        then the pushed value comes back. */
    method SecondArm(f: Expr, ghost s: Emitted) returns (wide: bool)
      requires Valid() && Room(Size(ECode(f)) + 2) && State() == Emit(I(Jmp(PLACE_JCC)), s)
      modifies `codeSize, `calls, codeBuf
      ensures Valid() && codeSize == old(codeSize) + Size(ECode(f)) + 2 && wide == Wide(f)
      ensures State() == Emit(I(PopRax), Emit(I(PushRax), Emit(ECode(f), Emit(I(Jmp(Size(ECode(f)) + 1)), s))))
      decreases f, 3
    {
      hide State, Emit, Size, Patch, ECode, Wide;
      SizeHere();
      SizeI(PushRax); SizeI(PopRax); SizeI(Jmp(PLACE_JCC));
      EmitSize(I(Jmp(PLACE_JCC)), s);
      var jmp := codeSize - 5;
      EmitCat(ECode(f), I(PushRax), State());
      EmitCat(ECode(f), I(PushRax), Emit(I(Jmp(Size(ECode(f)) + 1)), s));
      PatchJump(Jmp(PLACE_JCC), Jmp(Size(ECode(f)) + 1), Cat(ECode(f), I(PushRax)), s);
      wide := Expr(f);
      Instr(PushRax);
      PatchAt(jmp + 1, codeSize - (jmp + 5));
      Instr(PopRax);
    }

    /** ++ and -- on a local. */
    method StepVar(x: nat, up: bool, postfix: bool)
      requires Valid() && Room(Size(IncDecCode(x, up, postfix)))
      modifies `codeSize, codeBuf
      ensures Valid() && codeSize == old(codeSize) + Size(IncDecCode(x, up, postfix))
      ensures State() == Emit(IncDecCode(x, up, postfix), old(State()))
    {
      hide Emit, Size, AddressCode, PostfixCode, BumpCode;
      ghost var tail := if postfix then PostfixCode(up) else Cat(I(LoadEaxRcx), BumpCode(up));
      IncDecShape(Env(map[], map[], []), 0, x, tail);
      SizeI(LoadEax(Off(x))); SizeI(LeaRax(Off(x)));
      Emit3(I(LoadEax(Off(x))), AddressCode(x), tail, State());
      Instr(LoadEax(Off(x)));
      Address(x);
      if postfix { Postfix(up); } else { LoadBump(up); }
    }

    method Address(x: nat)
      requires Valid() && Room(Size(AddressCode(x)))
      modifies `codeSize, codeBuf
      ensures Valid() && codeSize == old(codeSize) + Size(AddressCode(x)) && State() == Emit(AddressCode(x), old(State()))
    {
      hide Emit, Size;
      PlainCat(I(LeaRax(Off(x))), Cat(I(PushRax), I(PopRcx)), 0);
      EmitCat(I(LeaRax(Off(x))), Cat(I(PushRax), I(PopRcx)), State());
      Instr(LeaRax(Off(x)));
      Two(PushRax, PopRcx);
    }

    /** Load through rcx, step, store back. */
    method LoadBump(up: bool)
      requires Valid() && Room(Size(Cat(I(LoadEaxRcx), BumpCode(up))))
      modifies `codeSize, codeBuf
      ensures Valid() && codeSize == old(codeSize) + Size(Cat(I(LoadEaxRcx), BumpCode(up)))
      ensures State() == Emit(Cat(I(LoadEaxRcx), BumpCode(up)), old(State()))
    {
      hide Emit, Size;
      PlainCat(I(LoadEaxRcx), BumpCode(up), 0);
      EmitCat(I(LoadEaxRcx), BumpCode(up), State());
      Instr(LoadEaxRcx);
      Two(if up then IncEax else DecEax, StoreEaxRcx);
    }

    /** The old value is pushed over the update. */
    method Postfix(up: bool)
      requires Valid() && Room(Size(PostfixCode(up)))
      modifies `codeSize, codeBuf
      ensures Valid() && codeSize == old(codeSize) + Size(PostfixCode(up)) && State() == Emit(PostfixCode(up), old(State()))
    {
      hide Emit, Size, BumpCode;
      ghost var pre := Cat(I(LoadEaxRcx), BumpCode(up));
      PlainCat(pre, I(PopRax), 0); PlainCat(I(PushRax), Cat(pre, I(PopRax)), 0);
      PlainCat(I(LoadEaxRcx), Cat(I(PushRax), Cat(pre, I(PopRax))), 0);
      Emit4(I(LoadEaxRcx), I(PushRax), pre, I(PopRax), State());
      Instr(LoadEaxRcx);
      Instr(PushRax);
      LoadBump(up);
      Instr(PopRax);
    }

    // ----- Calls -----

    method CallFunction(fn: nat, args: Args)
      requires Valid() && Room(Size(CallCode(fn, args)))
      modifies `codeSize, `calls, codeBuf
      ensures Valid() && codeSize == old(codeSize) + Size(CallCode(fn, args))
      ensures State() == Emit(CallCode(fn, args), old(State()))
      decreases args, 1
    {
      hide State, Emit, Size, PushLate, PushEarly, PopArgs, DropCode;
      var c := CountArgs(args);
      var k := if c < 6 then c else 6;
      ghost var tail := Cat(DropCode(c), I(Movsxd));
      Sizes5(PushLate(args, 0), PushEarly(args, 0), PopArgs(k), CallF(fn), tail);
      PlainCat(DropCode(c), I(Movsxd), 0); SizeCall(fn);
      Emit5(PushLate(args, 0), PushEarly(args, 0), PopArgs(k), CallF(fn), tail, State());
      PushLateArgs(args, 0);
      PushEarlyArgs(args, 0);
      PopRegisters(k);
      EmitCall(fn);
      EmitCat(DropCode(c), I(Movsxd), State());
      Drop(c);
      Instr(Movsxd);
    }

    method CountArgs(args: Args) returns (n: nat)
      ensures n == Count(args)
    {
      n := 0;
      var cur := args;
      while cur.ACons?
        invariant n + Count(cur) == Count(args)
        decreases cur
      {
        n := n + 1;
        cur := cur.tl;
      }
    }

    method Drop(c: nat)
      requires Valid() && Room(Size(DropCode(c)))
      modifies `codeSize, codeBuf
      ensures Valid() && codeSize == old(codeSize) + Size(DropCode(c)) && State() == Emit(DropCode(c), old(State()))
    {
      hide Emit, Size;
      if c > 6 {
        Instr(AddRsp((c - 6) * 8));
      } else {
        EmitNil(State()); SizeNil();
      }
    }

    /** The stack arguments, from the last one back. */
    method PushLateArgs(args: Args, k: nat)
      requires Valid() && Room(Size(PushLate(args, k)))
      modifies `codeSize, `calls, codeBuf
      ensures Valid() && codeSize == old(codeSize) + Size(PushLate(args, k)) && State() == Emit(PushLate(args, k), old(State()))
      decreases args, 0
    {
      hide State, Emit, Size, ECode;
      EmitNil(State()); SizeNil();
      match args {
        case ANil =>
        case ACons(a, tl) =>
          ghost var x := if k < 6 then Nil else Cat(ECode(a), I(PushRax));
          PlainCat(PushLate(tl, k + 1), x, 0); EmitCat(PushLate(tl, k + 1), x, State());
          PlainCat(ECode(a), I(PushRax), 0);
          PushLateArgs(tl, k + 1);
          EmitNil(State()); EmitCat(ECode(a), I(PushRax), State());
          if k >= 6 {
            var _ := Expr(a);
            Instr(PushRax);
          }
      }
    }

    /** The register arguments, in order. */
    method PushEarlyArgs(args: Args, k: nat)
      requires Valid() && Room(Size(PushEarly(args, k)))
      modifies `codeSize, `calls, codeBuf
      ensures Valid() && codeSize == old(codeSize) + Size(PushEarly(args, k)) && State() == Emit(PushEarly(args, k), old(State()))
      decreases args, 0
    {
      hide State, Emit, Size, ECode;
      EmitNil(State()); SizeNil();
      if args.ACons? && k < 6 {
        var a, tl := args.hd, args.tl;
        PlainCat(ECode(a), Cat(I(PushRax), PushEarly(tl, k + 1)), 0); PlainCat(I(PushRax), PushEarly(tl, k + 1), 0);
        Emit3(ECode(a), I(PushRax), PushEarly(tl, k + 1), State());
        var _ := Expr(a);
        Instr(PushRax);
        PushEarlyArgs(tl, k + 1);
      }
    }

    /** The last register argument is on top of the stack. */
    method PopRegisters(k: nat)
      requires Valid() && Room(Size(PopArgs(k)))
      modifies `codeSize, codeBuf
      ensures Valid() && codeSize == old(codeSize) + Size(PopArgs(k)) && State() == Emit(PopArgs(k), old(State()))
    {
      hide Emit, Size;
      var n := k;
      while n > 0
        invariant 0 <= n <= k && Valid()
        invariant codeSize + Size(PopArgs(n)) == old(codeSize) + Size(PopArgs(k))
        invariant Emit(PopArgs(n), State()) == Emit(PopArgs(k), old(State()))
      {
        PlainCat(I(PopRax), Cat(I(MovArg(n - 1)), PopArgs(n - 1)), 0); PlainCat(I(MovArg(n - 1)), PopArgs(n - 1), 0);
        Emit3(I(PopRax), I(MovArg(n - 1)), PopArgs(n - 1), State());
        Instr(PopRax);
        Instr(MovArg(n - 1));
        n := n - 1;
      }
      EmitNil(State()); SizeNil();
    }

    // ----- Statements -----

    /** What the generator is to emit for s in its present state. */
    ghost function Plan(s: Stmt): Gen
      reads this
    {
      SCode(s, breakTarget, continueTarget, Numbers())
    }

    ghost function PlanList(ss: Stmts): Gen
      reads this
    {
      ListCode(ss, breakTarget, continueTarget, Numbers())
    }

    method Epilogue()
      requires Valid() && Room(Size(EPILOGUE))
      modifies `codeSize, codeBuf
      ensures Valid() && codeSize == old(codeSize) + Size(EPILOGUE) && State() == Emit(EPILOGUE, old(State()))
    {
      hide Emit, Size;
      PlainCat(I(MovRspRbp), Cat(I(PopRbp), I(Ret)), 0);
      EmitCat(I(MovRspRbp), Cat(I(PopRbp), I(Ret)), State());
      Instr(MovRspRbp);
      Two(PopRbp, Ret);
    }

    /** A condition, tested in the width of its value. */
    method TestValue(c: Expr)
      requires Valid() && Room(Size(Cat(ECode(c), I(TestRax(Wide(c))))))
      modifies `codeSize, `calls, codeBuf
      ensures var k := Cat(ECode(c), I(TestRax(Wide(c))));
        Valid() && codeSize == old(codeSize) + Size(k) && State() == Emit(k, old(State()))
    {
      hide Emit, Size, ECode;
      PlainCat(ECode(c), I(TestRax(Wide(c))), 0);
      EmitCat(ECode(c), I(TestRax(Wide(c))), State());
      var w := Expr(c);
      Instr(TestRax(w));
    }

    method Branch(c: Expr, cc: Cc, l: int)
      requires Valid() && Room(Size(TestCode(c, cc, l)))
      modifies `codeSize, `calls, `fixups, codeBuf
      ensures Valid() && codeSize == old(codeSize) + Size(TestCode(c, cc, l)) && State() == Emit(TestCode(c, cc, l), old(State()))
    {
      hide Emit, Size, ECode;
      TestParts(c, cc, l, State());
      TestValue(c);
      EmitJcc(cc, l);
    }

    method OptExpression(e: OptExpr)
      requires Valid() && Room(Size(OptCode(e)))
      modifies `codeSize, `calls, codeBuf
      ensures Valid() && codeSize == old(codeSize) + Size(OptCode(e)) && State() == Emit(OptCode(e), old(State()))
    {
      hide Emit, Size, ECode;
      EmitNil(State()); SizeNil();
      if e.SomeExpr? { var _ := Expr(e.e); }
    }

    method OptBranch(e: OptExpr, l: int)
      requires Valid() && Room(Size(OptTest(e, l)))
      modifies `codeSize, `calls, `fixups, codeBuf
      ensures Valid() && codeSize == old(codeSize) + Size(OptTest(e, l)) && State() == Emit(OptTest(e, l), old(State()))
    {
      hide Emit, Size, ECode, TestCode;
      EmitNil(State()); SizeNil();
      if e.SomeExpr? { Branch(e.e, Eq, l); }
    }

    method Statement(s: Stmt)
      requires Valid() && Room(Size(Plan(s).code))
      modifies `codeSize, `labels, `fixups, `calls, `counter, `gotoLabels, `breakTarget, `continueTarget, codeBuf
      ensures Valid() && codeSize == old(codeSize) + Size(old(Plan(s)).code) && State() == Emit(old(Plan(s)).code, old(State()))
      ensures Numbers() == old(Plan(s)).g && breakTarget == old(breakTarget) && continueTarget == old(continueTarget)
      decreases s, 2
    {
      hide State, Emit, Size, ECode, CallCode, GotoId;
      EmitNil(State()); SizeNil();
      match s {
        case ExprStmt(e) => var _ := Expr(e);
        case CallStmt(fn, args) => CallFunction(fn, args);
        case Null =>
        case If(c, t) => IfStatement(c, t);
        case IfElse(c, t, e) => IfElseStatement(c, t, e);
        case While(c, b) => WhileStatement(c, b);
        case DoWhile(b, c) => DoStatement(b, c);
        case For(init, cond, step, b) => ForStatement(init, cond, step, b);
        case Block(ss) => BlockStatement(ss);
        case Switch(c, items) => SwitchStatement(c, items);
        case Break =>
          Sizes(breakTarget, Eq);
          if breakTarget >= 0 { EmitJmp(breakTarget); }
        case Continue =>
          Sizes(continueTarget, Eq);
          if continueTarget >= 0 { EmitJmp(continueTarget); }
        case Goto(l) =>
          var id := GotoLabel(l);
          Sizes(id, Eq);
          EmitJmp(id);
        case Label(l) =>
          var id := GotoLabel(l);
          Sizes(id, Eq);
          SetLabel(id);
        case Return(r) =>
          PlainCat(OptCode(r), EPILOGUE, 0); EmitCat(OptCode(r), EPILOGUE, State());
          OptExpression(r);
          Epilogue();
      }
    }

    method IfStatement(c: Expr, t: Stmt)
      requires Valid() && Room(Size(Plan(If(c, t)).code))
      modifies `codeSize, `labels, `fixups, `calls, `counter, `gotoLabels, `breakTarget, `continueTarget, codeBuf
      ensures Valid() && codeSize == old(codeSize) + Size(old(Plan(If(c, t))).code) && State() == Emit(old(Plan(If(c, t))).code, old(State()))
      ensures Numbers() == old(Plan(If(c, t))).g && breakTarget == old(breakTarget) && continueTarget == old(continueTarget)
      decreases If(c, t), 0
    {
      hide State, Emit, Size, ECode, CallCode, TestCode;
      ghost var test, tc := TestCode(c, Eq, counter), SCode(t, breakTarget, continueTarget, Numbers().(next := counter + 2)).code;
      PlainCat(test, Cat(tc, Lab(counter)), 0); PlainCat(tc, Lab(counter), 0); Sizes(counter, Eq);
      Emit3(test, tc, Lab(counter), State());
      TestParts(c, Eq, counter, State());
      TestValue(c);
      var elseLabel := NewLabel();
      var endLabel := NewLabel();
      EmitJcc(Eq, elseLabel);
      Statement(t);
      SetLabel(elseLabel);
    }

    method IfElseStatement(c: Expr, t: Stmt, e: Stmt)
      requires Valid() && Room(Size(Plan(IfElse(c, t, e)).code))
      modifies `codeSize, `labels, `fixups, `calls, `counter, `gotoLabels, `breakTarget, `continueTarget, codeBuf
      ensures Valid() && codeSize == old(codeSize) + Size(old(Plan(IfElse(c, t, e))).code) && State() == Emit(old(Plan(IfElse(c, t, e))).code, old(State()))
      ensures Numbers() == old(Plan(IfElse(c, t, e))).g && breakTarget == old(breakTarget) && continueTarget == old(continueTarget)
      decreases IfElse(c, t, e), 1
    {
      hide State, Emit, Size, ECode, SCode;
      IfElseParts(c, t, e, breakTarget, continueTarget, Numbers(), State());
      TestValue(c);
      var elseLabel := NewLabel();
      var endLabel := NewLabel();
      EmitJcc(Eq, elseLabel);
      Statement(t);
      EmitJmp(endLabel);
      SetLabel(elseLabel);
      Statement(e);
      SetLabel(endLabel);
    }

    method WhileStatement(c: Expr, b: Stmt)
      requires Valid() && Room(Size(Plan(While(c, b)).code))
      modifies `codeSize, `labels, `fixups, `calls, `counter, `gotoLabels, `breakTarget, `continueTarget, codeBuf
      ensures Valid() && codeSize == old(codeSize) + Size(old(Plan(While(c, b))).code) && State() == Emit(old(Plan(While(c, b))).code, old(State()))
      ensures Numbers() == old(Plan(While(c, b))).g && breakTarget == old(breakTarget) && continueTarget == old(continueTarget)
      decreases While(c, b), 0
    {
      hide State, Emit, Size, TestCode, SCode;
      WhileParts(c, b, breakTarget, continueTarget, Numbers(), State());
      var startLabel := NewLabel();
      var endLabel := NewLabel();
      var savedBreak, savedContinue := breakTarget, continueTarget;
      SetTargets(endLabel, startLabel);
      SetLabel(startLabel);
      Branch(c, Eq, endLabel);
      Statement(b);
      EmitJmp(startLabel);
      SetLabel(endLabel);
      SetTargets(savedBreak, savedContinue);
    }

    method DoStatement(b: Stmt, c: Expr)
      requires Valid() && Room(Size(Plan(DoWhile(b, c)).code))
      modifies `codeSize, `labels, `fixups, `calls, `counter, `gotoLabels, `breakTarget, `continueTarget, codeBuf
      ensures Valid() && codeSize == old(codeSize) + Size(old(Plan(DoWhile(b, c))).code) && State() == Emit(old(Plan(DoWhile(b, c))).code, old(State()))
      ensures Numbers() == old(Plan(DoWhile(b, c))).g && breakTarget == old(breakTarget) && continueTarget == old(continueTarget)
      decreases DoWhile(b, c), 0
    {
      hide State, Emit, Size, TestCode, SCode;
      DoParts(b, c, breakTarget, continueTarget, Numbers(), State());
      var startLabel := NewLabel();
      var endLabel := NewLabel();
      var savedBreak, savedContinue := breakTarget, continueTarget;
      SetTargets(endLabel, startLabel);
      SetLabel(startLabel);
      Statement(b);
      Branch(c, Ne, startLabel);
      SetLabel(endLabel);
      SetTargets(savedBreak, savedContinue);
    }

    method ForStatement(init: OptExpr, cond: OptExpr, step: OptExpr, b: Stmt)
      requires Valid() && Room(Size(Plan(For(init, cond, step, b)).code))
      modifies `codeSize, `labels, `fixups, `calls, `counter, `gotoLabels, `breakTarget, `continueTarget, codeBuf
      ensures Valid() && codeSize == old(codeSize) + Size(old(Plan(For(init, cond, step, b))).code) && State() == Emit(old(Plan(For(init, cond, step, b))).code, old(State()))
      ensures Numbers() == old(Plan(For(init, cond, step, b))).g && breakTarget == old(breakTarget) && continueTarget == old(continueTarget)
      decreases For(init, cond, step, b), 0
    {
      hide State, Emit, Size, OptCode, OptTest, ForEnd, SCode;
      ForWhole(init, cond, step, b, breakTarget, continueTarget, Numbers(), State());
      var startLabel := NewLabel();
      var endLabel := NewLabel();
      var stepLabel := NewLabel();
      var savedBreak, savedContinue := breakTarget, continueTarget;
      SetTargets(endLabel, stepLabel);
      OptExpression(init);
      LoopTop(cond, startLabel, endLabel);
      Statement(b);
      LoopEnd(step, startLabel, endLabel, stepLabel);
      SetTargets(savedBreak, savedContinue);
    }

    /** The start label of a for loop and its test. */
    method LoopTop(cond: OptExpr, startLabel: int, endLabel: int)
      requires Valid() && Room(Size(Cat(Lab(startLabel), OptTest(cond, endLabel))))
      modifies `codeSize, `labels, `fixups, `calls, codeBuf
      ensures var c := Cat(Lab(startLabel), OptTest(cond, endLabel));
        Valid() && codeSize == old(codeSize) + Size(c) && State() == Emit(c, old(State()))
    {
      hide State, Emit, Size, OptTest;
      PlainCat(Lab(startLabel), OptTest(cond, endLabel), 0); Sizes(startLabel, Eq);
      EmitCat(Lab(startLabel), OptTest(cond, endLabel), State());
      SetLabel(startLabel);
      OptBranch(cond, endLabel);
    }

    /** The step of a for loop and the jump back. */
    method LoopEnd(step: OptExpr, startLabel: int, endLabel: int, stepLabel: int)
      requires Valid() && endLabel == startLabel + 1 && stepLabel == startLabel + 2
      requires Room(Size(ForEnd(OptCode(step), startLabel)))
      modifies `codeSize, `labels, `fixups, `calls, codeBuf
      ensures Valid() && codeSize == old(codeSize) + Size(ForEnd(OptCode(step), startLabel))
      ensures State() == Emit(ForEnd(OptCode(step), startLabel), old(State()))
    {
      hide State, Emit, Size, OptCode;
      ghost var n, sc := startLabel, OptCode(step);
      PlainCat(Lab(n + 2), Cat(sc, Cat(JmpL(n), Lab(n + 1))), 0); PlainCat(sc, Cat(JmpL(n), Lab(n + 1)), 0);
      PlainCat(JmpL(n), Lab(n + 1), 0); Sizes(n, Eq); Sizes(n + 1, Eq); Sizes(n + 2, Eq);
      Emit4(Lab(n + 2), sc, JmpL(n), Lab(n + 1), State());
      SetLabel(stepLabel);
      OptExpression(step);
      EmitJmp(startLabel);
      SetLabel(endLabel);
    }

    method BlockStatement(ss: Stmts)
      requires Valid() && Room(Size(PlanList(ss).code))
      modifies `codeSize, `labels, `fixups, `calls, `counter, `gotoLabels, `breakTarget, `continueTarget, codeBuf
      ensures Valid() && codeSize == old(codeSize) + Size(old(PlanList(ss)).code) && State() == Emit(old(PlanList(ss)).code, old(State()))
      ensures Numbers() == old(PlanList(ss)).g && breakTarget == old(breakTarget) && continueTarget == old(continueTarget)
      decreases ss, 0
    {
      hide Emit, Size, ECode, CallCode, SCode;
      ghost var s0, plan := State(), PlanList(ss);
      var cur := ss;
      while cur.SCons?
        invariant Valid() && (cur == ss || cur < ss)
        invariant codeSize + Size(PlanList(cur).code) == old(codeSize) + Size(plan.code)
        invariant Emit(PlanList(cur).code, State()) == Emit(plan.code, s0) && PlanList(cur).g == plan.g
        invariant breakTarget == old(breakTarget) && continueTarget == old(continueTarget)
        decreases cur
      {
        ghost var s' := Plan(cur.s);
        ghost var r' := ListCode(cur.rest, breakTarget, continueTarget, s'.g);
        PlainCat(s'.code, r'.code, 0); EmitCat(s'.code, r'.code, State());
        Statement(cur.s);
        cur := cur.rest;
      }
      EmitNil(State()); SizeNil();
    }

    // ----- Switch -----

    ghost function PlanItems(items: Items, l: int): Gen
      reads this
    {
      ItemCode(items, l, breakTarget, continueTarget, Numbers())
    }

    /** Phase 1: a label for every case and default; the last default counts. */
    method CollectCases(items: Items) returns (cases: seq<CaseEntry>, default_: int)
      requires Valid()
      modifies `counter
      ensures Valid() && State() == old(State())
      ensures counter == old(counter) + LabelCount(items) && cases == CaseList(items, old(counter))
      ensures default_ == DefaultLabel(items, old(counter))
    {
      cases, default_ := [], -1;
      DefaultRange(items, counter);
      ghost var l := counter;
      var cur := items;
      while !cur.INil?
        invariant counter >= l && counter + LabelCount(cur) == l + LabelCount(items)
        invariant cases + CaseList(cur, counter) == CaseList(items, l)
        invariant (if DefaultLabel(cur, counter) >= 0 then DefaultLabel(cur, counter) else default_) == DefaultLabel(items, l)
        invariant default_ >= -1
        decreases cur
      {
        match cur {
          case ICase(lo, hi, rest) =>
            var id := NewLabel();
            Regroup(cases, [CaseEntry(lo, hi, id)], CaseList(rest, counter));
            cases := cases + [CaseEntry(lo, hi, id)];
            cur := rest;
          case IDefault(rest) =>
            default_ := NewLabel();
            cur := rest;
          case IStmt(_, rest) => cur := rest;
        }
      }
    }

    /** Phase 4: the body; case labels are numbered from l in order. */
    method SwitchBody(ghost c: Expr, items: Items, l: int)
      requires Valid() && Room(Size(PlanItems(items, l).code))
      modifies `codeSize, `labels, `fixups, `calls, `counter, `gotoLabels, `breakTarget, `continueTarget, codeBuf
      ensures Valid() && codeSize == old(codeSize) + Size(old(PlanItems(items, l)).code)
      ensures State() == Emit(old(PlanItems(items, l)).code, old(State())) && Numbers() == old(PlanItems(items, l)).g
      ensures breakTarget == old(breakTarget) && continueTarget == old(continueTarget)
      decreases Switch(c, items), 0
    {
      hide State, Emit, Size, SCode, ItemCode;
      ghost var s0, plan := State(), PlanItems(items, l);
      var cur, k := items, l;
      while !cur.INil?
        invariant Valid() && (cur == items || cur < items)
        invariant codeSize + Size(PlanItems(cur, k).code) == old(codeSize) + Size(plan.code)
        invariant Emit(PlanItems(cur, k).code, State()) == Emit(plan.code, s0) && PlanItems(cur, k).g == plan.g
        invariant breakTarget == old(breakTarget) && continueTarget == old(continueTarget)
        decreases cur
      {
        if cur.IStmt? {
          StmtItem(cur, k, breakTarget, continueTarget, Numbers(), State());
          Statement(cur.s);
        } else {
          LabelItem(cur, k, breakTarget, continueTarget, Numbers(), State());
          SetLabel(k);
          k := k + 1;
        }
        cur := cur.rest;
      }
      NoItems(k, breakTarget, continueTarget, Numbers());
      EmitNil(State()); SizeNil();
    }

    /** Phase 5: the comparisons. */
    method DispatchCases(cases: seq<CaseEntry>)
      requires Valid() && Room(Size(CasesCode(cases, counter)))
      modifies `codeSize, `labels, `fixups, `counter, codeBuf
      ensures Valid() && codeSize == old(codeSize) + Size(CasesCode(cases, old(counter)))
      ensures State() == Emit(CasesCode(cases, old(counter)), old(State()))
      ensures counter == old(counter) + Ranges(cases)
    {
      hide State, Emit, Size, CaseCode;
      ghost var s0, plan := State(), CasesCode(cases, counter);
      var i := 0;
      while i < |cases|
        invariant 0 <= i <= |cases| && Valid()
        invariant codeSize + Size(CasesCode(cases[i..], counter)) == old(codeSize) + Size(plan)
        invariant Emit(CasesCode(cases[i..], counter), State()) == Emit(plan, s0)
        invariant counter + Ranges(cases[i..]) == old(counter) + Ranges(cases)
      {
        var c := cases[i];
        assert cases[i..][0] == c && cases[i..][1..] == cases[i + 1..];
        ghost var rest := CasesCode(cases[i + 1..], if c.hi != c.lo then counter + 1 else counter);
        PlainCat(CaseCode(c, counter), rest, 0); EmitCat(CaseCode(c, counter), rest, State());
        OneCase(c);
        i := i + 1;
      }
      EmitNil(State()); SizeNil();
    }

    method OneCase(c: CaseEntry)
      requires Valid() && Room(Size(CaseCode(c, counter)))
      modifies `codeSize, `labels, `fixups, `counter, codeBuf
      ensures Valid() && codeSize == old(codeSize) + Size(CaseCode(c, old(counter)))
      ensures State() == Emit(CaseCode(c, old(counter)), old(State()))
      ensures counter == old(counter) + if c.hi != c.lo then 1 else 0
    {
      hide State, Emit, Size;
      if c.hi != c.lo {
        RangeCase(c);
      } else {
        PlainCat(I(CmpEaxImm(c.lo)), JccL(Eq, c.target), 0); SizeI(CmpEaxImm(c.lo)); Sizes(c.target, Eq);
        EmitCat(I(CmpEaxImm(c.lo)), JccL(Eq, c.target), State());
        Instr(CmpEaxImm(c.lo));
        EmitJcc(Eq, c.target);
      }
    }

    method RangeCase(c: CaseEntry)
      requires Valid() && Room(Size(RangeTest(c.lo, c.hi, c.target, counter)))
      modifies `codeSize, `labels, `fixups, `counter, codeBuf
      ensures Valid() && codeSize == old(codeSize) + Size(RangeTest(c.lo, c.hi, c.target, old(counter)))
      ensures State() == Emit(RangeTest(c.lo, c.hi, c.target, old(counter)), old(State()))
      ensures counter == old(counter) + 1
    {
      hide State, Emit, Size;
      RangeShape(Env(map[], map[], []), 0, c.lo, c.hi, c.target, counter);
      SizeI(CmpEaxImm(c.lo)); SizeI(CmpEaxImm(c.hi));
      Emit5(I(CmpEaxImm(c.lo)), JccL(Lt, counter), I(CmpEaxImm(c.hi)), JccL(Gt, counter),
            Cat(JmpL(c.target), Lab(counter)), State());
      var skip := NewLabel();
      Instr(CmpEaxImm(c.lo));
      EmitJcc(Lt, skip);
      Instr(CmpEaxImm(c.hi));
      EmitJcc(Gt, skip);
      EmitCat(JmpL(c.target), Lab(skip), State());
      EmitJmp(c.target);
      SetLabel(skip);
    }

    method SwitchStatement(c: Expr, items: Items)
      requires Valid() && Room(Size(Plan(Switch(c, items)).code))
      modifies `codeSize, `labels, `fixups, `calls, `counter, `gotoLabels, `breakTarget, `continueTarget, codeBuf
      ensures Valid() && codeSize == old(codeSize) + Size(old(Plan(Switch(c, items))).code) && State() == Emit(old(Plan(Switch(c, items))).code, old(State()))
      ensures Numbers() == old(Plan(Switch(c, items))).g && breakTarget == old(breakTarget) && continueTarget == old(continueTarget)
      decreases Switch(c, items), 1
    {
      hide State, Emit, Size, ECode, SCode, ItemCode, EndPlan, DefaultLabel, CaseList, LabelCount, RangeCount;
      var n := counter;
      SwitchParts(c, items, breakTarget, continueTarget, Numbers(), State());
      var cases, default_ := CollectCases(items);
      var _ := Expr(c);
      Instr(PushRax);
      var dispatchLabel := NewLabel();
      EmitJmp(dispatchLabel);
      var savedBreak := breakTarget;
      var endLabel := NewLabel();
      SetTargets(endLabel, continueTarget);
      SwitchBody(c, items, n);
      FinishSwitch(items, n, cases, default_, dispatchLabel);
      SetTargets(savedBreak, continueTarget);
    }

    /** The dispatch code behind the body. */
    method FinishSwitch(ghost items: Items, ghost n: int, cases: seq<CaseEntry>, default_: int, dispatchLabel: int)
      requires cases == CaseList(items, n) && default_ == DefaultLabel(items, n) && breakTarget == dispatchLabel + 1
      requires Valid() && Room(Size(EndPlan(items, n, counter, dispatchLabel)))
      modifies `codeSize, `labels, `fixups, `counter, codeBuf
      ensures Valid() && codeSize == old(codeSize) + Size(EndPlan(items, n, old(counter), dispatchLabel))
      ensures State() == Emit(EndPlan(items, n, old(counter), dispatchLabel), old(State()))
      ensures counter == old(counter) + RangeCount(items)
    {
      hide State, Emit, Size, Dispatch, DefaultLabel, RangeCount;
      ghost var d, disp := dispatchLabel, Dispatch(items, n, counter);
      ghost var def := DefaultJump(items, n);
      PlainCat(Lab(d), Cat(I(PopRax), Cat(Cat(disp, def), Lab(d + 1))), 0); PlainCat(I(PopRax), Cat(Cat(disp, def), Lab(d + 1)), 0);
      PlainCat(Cat(disp, def), Lab(d + 1), 0); PlainCat(disp, def, 0); SizeI(PopRax); Sizes(d, Eq); Sizes(d + 1, Eq);
      Emit4(Lab(d), I(PopRax), Cat(disp, def), Lab(d + 1), State());
      CasesDispatch(items, n, counter);
      RangesIs(items, n);
      SetLabel(dispatchLabel);
      Instr(PopRax);
      EmitCat(disp, def, State());
      DispatchCases(cases);
      EmitNil(State()); SizeNil(); Sizes(default_, Eq);
      if default_ >= 0 { EmitJmp(default_); }
      SetLabel(breakTarget);
    }

    // ----- Functions -----

    method Frame(slots: nat)
      requires Valid() && Room(Size(FrameCode(slots)))
      modifies `codeSize, codeBuf
      ensures Valid() && codeSize == old(codeSize) + Size(FrameCode(slots)) && State() == Emit(FrameCode(slots), old(State()))
    {
      hide State, Emit, Size;
      EmitNil(State()); SizeNil();
      if slots > 0 { Instr(SubRsp(Align16(4 * slots))); }
    }

    /** Parameters go from their registers, or from the caller's stack, to their slots. */
    method SpillParameters(n: nat)
      requires Valid() && Room(Size(SpillCode(0, n)))
      modifies `codeSize, codeBuf
      ensures Valid() && codeSize == old(codeSize) + Size(SpillCode(0, n)) && State() == Emit(SpillCode(0, n), old(State()))
    {
      hide State, Emit, Size;
      var i := 0;
      while i < n
        invariant 0 <= i <= n && Valid()
        invariant codeSize + Size(SpillCode(i, n)) == old(codeSize) + Size(SpillCode(0, n))
        invariant Emit(SpillCode(i, n), State()) == Emit(SpillCode(0, n), old(State()))
      {
        ghost var rest := SpillCode(i + 1, n);
        if i < 6 {
          PlainCat(I(StoreArg(i, Off(i))), rest, 0); EmitCat(I(StoreArg(i, Off(i))), rest, State());
          Instr(StoreArg(i, Off(i)));
        } else {
          ghost var l := I(LoadEax(0x10 + (i - 6) * 8));
          PlainCat(l, Cat(I(StoreEax(Off(i))), rest), 0); PlainCat(I(StoreEax(Off(i))), rest, 0);
          Emit3(l, I(StoreEax(Off(i))), rest, State());
          Instr(LoadEax(0x10 + (i - 6) * 8));
          Instr(StoreEax(Off(i)));
        }
        i := i + 1;
      }
      EmitNil(State()); SizeNil();
    }

    method Prologue(f: Func)
      requires Valid() && Room(Size(PrologueCode(f)))
      modifies `codeSize, codeBuf
      ensures Valid() && codeSize == old(codeSize) + Size(PrologueCode(f)) && State() == Emit(PrologueCode(f), old(State()))
    {
      hide State, Emit, Size, FrameCode, SpillCode;
      ghost var fr, sp := FrameCode(f.slots), SpillCode(0, f.nparams);
      PlainCat(I(PushRbp), Cat(I(MovRbpRsp), Cat(fr, sp)), 0); PlainCat(I(MovRbpRsp), Cat(fr, sp), 0); PlainCat(fr, sp, 0);
      Emit4(I(PushRbp), I(MovRbpRsp), fr, sp, State());
      Instr(PushRbp);
      Instr(MovRbpRsp);
      Frame(f.slots);
      SpillParameters(f.nparams);
    }

    /** Prologue and body, with fresh tables. */
    method FunctionMain(f: Func)
      requires Valid() && Room(Size(PrologueCode(f)) + Size(BodyCode(f, counter).code))
      modifies this, codeBuf
      ensures var main := Cat(PrologueCode(f), BodyCode(f, old(counter)).code);
        Valid() && codeSize == old(codeSize) + Size(main) && counter == NextLabel(f, old(counter))
        && State() == Emit(main, Emitted(old(State()).bytes, [], [], old(calls)))
    {
      hide Emit, Size, SCode, PrologueCode;
      labels, fixups, gotoLabels := [], [], map[];
      breakTarget, continueTarget := -1, -1;
      ghost var body := BodyCode(f, counter).code;
      PlainCat(PrologueCode(f), body, 0); EmitCat(PrologueCode(f), body, State());
      Prologue(f);
      Statement(f.body);
    }

    /** The implicit return, unless the last byte looks like one. */
    method ImplicitReturn(ghost main: Code, ghost s0: Emitted)
      requires Valid() && State() == Emit(main, s0) && s0.labels == [] && Size(main) > 0
      requires codeSize <= BUFFER_LIMIT && (!EndsInC3(main) ==> Room(Size(EPILOGUE)))
      modifies `codeSize, codeBuf
      ensures var c := Cat(main, if EndsInC3(main) then Nil else EPILOGUE);
        Valid() && codeSize == |s0.bytes| + Size(c) && State() == Emit(c, s0)
    {
      hide Emit, Size, EPILOGUE, EndsInC3, Raw;
      ghost var tail := if EndsInC3(main) then Nil else EPILOGUE;
      PlainCat(main, tail, 0); EmitCat(main, tail, s0); EmitSize(main, s0); EmitNil(State()); SizeNil();
      SizeHere();
      MainEnd(main, s0);
      if codeSize <= 0 || codeBuf[codeSize - 1] != 0xC3 {
        Epilogue();
      }
    }

    /** A whole function: its bytes with every jump resolved, its calls recorded. */
    method Function(f: Func)
      requires Valid() && Room(Size(FuncCode(f, counter))) && codeBuf.Length <= BUFFER_LIMIT
      modifies this, codeBuf
      ensures var c := FuncCode(f, old(counter));
        Valid() && codeSize == old(codeSize) + Size(c) && counter == NextLabel(f, old(counter))
        && codeBuf[..codeSize] == old(codeBuf[..codeSize]) + Final(c, old(codeSize), Labs(c, old(codeSize)), [])
        && calls == old(calls) + Calls(c, old(codeSize))
    {
      hide Emit, Size, SCode, EPILOGUE, EndsInC3, Final, Raw, PrologueCode, BodyCode;
      ghost var c, pos := FuncCode(f, counter), codeSize;
      ghost var main := Cat(PrologueCode(f), BodyCode(f, counter).code);
      ghost var s0 := Emitted(State().bytes, [], [], calls);
      PlainCat(main, if EndsInC3(main) then Nil else EPILOGUE, 0); PlainCat(PrologueCode(f), BodyCode(f, counter).code, 0);
      PrologueSize(f);
      FunctionMain(f);
      ImplicitReturn(main, s0);
      EmitIs(c, s0);
      forall x | x in fixups ensures FieldAt(x) + 4 <= codeSize { FixesInside(c, pos, [], x); }
      ResolveFixups();
      Backpatch(c, s0.bytes, [], [], Labs(c, pos));
      assert s0.bytes + Raw(c, pos, []) + [] == s0.bytes + Raw(c, pos, []);
      assert s0.bytes + Final(c, pos, Labs(c, pos), []) + [] == s0.bytes + Final(c, pos, Labs(c, pos), []);
    }

    /** All functions of a program, one after the other. */
    method Compile(p: Program)
      requires Valid() && codeSize == 0 && counter == 0 && calls == []
      requires Start(p, |p|) <= codeBuf.Length <= BUFFER_LIMIT
      modifies this, codeBuf
      ensures Valid() && codeBuf[..codeSize] == Text(p, |p|, []) && calls == ProgramCalls(p, |p|)
    {
      hide Size, CodeOf, Final, Calls, Labs;
      var fn := 0;
      while fn < |p|
        invariant 0 <= fn <= |p| && Valid() && codeSize == Start(p, fn) && counter == Counter(p, fn)
        invariant codeBuf[..codeSize] == Text(p, fn, []) && calls == ProgramCalls(p, fn)
      {
        SizeInText(p, fn);
        CodeIs(p, fn);
        StartNext(p, fn);
        Function(p[fn]);
        fn := fn + 1;
      }
    }
  }

  lemma {:induction false} StartNext(p: Program, fn: nat)
    requires fn < |p|
    ensures Start(p, fn + 1) == Start(p, fn) + Size(CodeOf(p, fn))
    ensures Counter(p, fn + 1) == NextLabel(p[fn], Counter(p, fn))
  {
  }

  lemma {:induction false} PrologueSize(f: Func)
    ensures Size(PrologueCode(f)) > 0
  {
    hide Size, FrameCode, SpillCode;
    PlainCat(I(PushRbp), Cat(I(MovRbpRsp), Cat(FrameCode(f.slots), SpillCode(0, f.nparams))), 0); SizeI(PushRbp);
  }

  lemma {:induction false} EmitIs(c: Code, s: Emitted)
    requires s.labels == [] && s.fixups == []
    ensures Emit(c, s) == Emitted(s.bytes + Raw(c, |s.bytes|, []), Labs(c, |s.bytes|), Fixes(c, |s.bytes|, []),
      s.calls + Calls(c, |s.bytes|))
  {
    assert [] + Labs(c, |s.bytes|) == Labs(c, |s.bytes|) && [] + Fixes(c, |s.bytes|, []) == Fixes(c, |s.bytes|, []);
  }

  lemma {:induction false} LastEmitted(c: Code, s: Emitted)
    requires Size(c) > 0 && s.labels == []
    ensures |Emit(c, s).bytes| == |s.bytes| + Size(c)
    ensures Emit(c, s).bytes[|s.bytes| + Size(c) - 1] == Raw(c, |s.bytes|, [])[Size(c) - 1]
  {
  }
}
