/** Printing #if expressions with only the parentheses that precedence needs, and the
    theorem that evaluating the text gives the value of the tree. */
module IfPrinting {
  import opened Words
  import opened IfExpression
  import opened Texts

  // ----- Trees and tokens -----

  /** A word that the lexer turns into a number. */
  datatype Atom =
    | Decimal(digits: string, suffix: string)
    | Octal(digits: string, suffix: string)
    | Hex(mark: char, digits: string, suffix: string)
    | Plain(c: char)
    | Escape(c: char)
    | Name(name: string)
    | Defined(blanks: string, name: string)
    | DefinedIn(blanks: string, open: string, name: string, close: string)

  datatype Tree = Leaf(a: Atom) | Unary(op: Kind, e: Tree) | Binary(op: Kind, l: Tree, r: Tree)

  datatype Token = Word(a: Atom) | Sym(k: Kind)

  predicate AllBlank(s: string) { forall i :: 0 <= i < |s| ==> IsBlank(s[i]) }

  predicate AllDigits(s: string, base: int) { forall i :: 0 <= i < |s| ==> DigitValue(s[i], base) >= 0 }

  predicate AllSuffix(s: string) { forall i :: 0 <= i < |s| ==> IsSuffix(s[i]) }

  predicate IsName(s: string) { s != "" && IsLetter(s[0]) && forall i :: 0 <= i < |s| ==> IsIdChar(s[i]) }

  /** Words that are spelled as C spells them. */
  predicate GoodAtom(a: Atom)
  {
    match a
    case Decimal(d, u) => d != "" && AllDigits(d, 10) && (d[0] == '0' ==> |d| == 1) && AllSuffix(u)
    case Octal(d, u) => d != "" && AllDigits(d, 8) && AllSuffix(u)
    case Hex(m, d, u) => (m == 'x' || m == 'X') && AllDigits(d, 16) && AllSuffix(u)
    case Plain(c) => c != '\\'
    case Escape(c) => true
    case Name(n) => IsName(n) && n != "defined"
    case Defined(b, n) => b != "" && AllBlank(b) && IsName(n)
    case DefinedIn(b, o, n, c) => AllBlank(b) && AllBlank(o) && IsName(n) && AllBlank(c)
  }

  predicate GoodTree(t: Tree)
  {
    match t
    case Leaf(a) => GoodAtom(a)
    case Unary(op, e) => IsUnary(op) && GoodTree(e)
    case Binary(op, l, r) => Prec(op) >= 1 && GoodTree(l) && GoodTree(r)
  }

  /** The value of a run of digits, with the wrap-around of long. */
  function Number(digits: string, base: int, acc: int): int
    requires AllDigits(digits, base)
    decreases |digits|
  {
    if digits == "" then acc else Number(digits[1..], base, S64(acc * base + DigitValue(digits[0], base)))
  }

  function AtomValue(a: Atom, ms: seq<Macro>, nest: nat): int
    requires GoodAtom(a)
  {
    match a
    case Decimal(d, _) => Number(d, 10, 0)
    case Octal(d, _) => Number(d, 8, 0)
    case Hex(_, d, _) => Number(d, 16, 0)
    case Plain(c) => CharValue(c)
    case Escape(c) => Escaped(c)
    case Name(n) => MacroValue(ms, n, nest)
    case Defined(_, n) => Truth(Lookup(ms, n).Has?)
    case DefinedIn(_, _, n, _) => Truth(Lookup(ms, n).Has?)
  }

  /** What the expression means. */
  function Value(t: Tree, ms: seq<Macro>, nest: nat): int
    requires GoodTree(t)
  {
    match t
    case Leaf(a) => AtomValue(a, ms, nest)
    case Unary(op, e) => ApplyUnary(op, Value(e, ms, nest))
    case Binary(op, l, r) => Apply(Value(l, ms, nest), op, Value(r, ms, nest))
  }

  /** The precedence of the outermost operator; primaries and unary operators bind tightest. */
  function Level(t: Tree): int { if t.Binary? then Prec(t.op) else 11 }

  /** The tokens of t where something that binds as tightly as min is needed:
      left operands may have the same precedence, right operands a higher one. */
  function Tokens(t: Tree, min: int): seq<Token>
    decreases t, 1
  {
    if Level(t) < min && t.Binary? then [Sym(Open)] + Inner(t) + [Sym(Close)] else Inner(t)
  }

  function Inner(t: Tree): seq<Token>
    decreases t, 0
  {
    match t
    case Leaf(a) => [Word(a)]
    case Unary(op, e) => [Sym(op)] + Tokens(e, 11)
    case Binary(op, l, r) => Tokens(l, Prec(op)) + [Sym(op)] + Tokens(r, Prec(op) + 1)
  }

  predicate GoodToken(t: Token) { t.Word? ==> GoodAtom(t.a) }

  predicate GoodTokens(ts: seq<Token>) { forall i :: 0 <= i < |ts| ==> GoodToken(ts[i]) }

  /** The lexer reads tok at pos and stops at q. */
  predicate Reads(ms: seq<Macro>, s: string, pos: nat, tok: Token, q: nat, nest: nat)
    requires pos <= |s| && GoodToken(tok)
  {
    match tok
    case Word(a) => Next(ms, s, pos, nest) == Lexed(Kind.Number, AtomValue(a, ms, nest), q)
    case Sym(k) => Next(ms, s, pos, nest) == Lexed(k, 0, q) && k != Kind.End
  }

  /** From pos on, up to q, the lexer reads exactly toks. */
  predicate Stands(ms: seq<Macro>, s: string, pos: nat, toks: seq<Token>, q: nat, nest: nat)
    requires pos <= |s| && GoodTokens(toks)
    decreases |toks|
  {
    if toks == [] then pos == q
    else var p := Next(ms, s, pos, nest).pos; Reads(ms, s, pos, toks[0], p, nest) && Stands(ms, s, p, toks[1..], q, nest)
  }

  lemma {:induction false} StandsParts(ms: seq<Macro>, s: string, pos: nat, a: seq<Token>, b: seq<Token>, q: nat, nest: nat)
    returns (m: nat)
    requires pos <= |s| && GoodTokens(a + b) && Stands(ms, s, pos, a + b, q, nest)
    ensures GoodTokens(a) && GoodTokens(b) && m <= |s| && pos <= m && Stands(ms, s, pos, a, m, nest) && Stands(ms, s, m, b, q, nest)
    decreases |a|
  {
    hide Next;
    assert forall i :: 0 <= i < |a| ==> a[i] == (a + b)[i];
    assert forall i :: 0 <= i < |b| ==> b[i] == (a + b)[|a| + i];
    if a == [] {
      assert a + b == b;
      m := pos;
    } else {
      assert (a + b)[0] == a[0] && (a + b)[1..] == a[1..] + b;
      m := StandsParts(ms, s, Next(ms, s, pos, nest).pos, a[1..], b, q, nest);
    }
  }

  lemma {:induction false} StandsOne(ms: seq<Macro>, s: string, pos: nat, t: Token, q: nat, nest: nat)
    requires pos <= |s| && GoodTokens([t]) && Stands(ms, s, pos, [t], q, nest)
    ensures GoodToken(t) && q <= |s| && Reads(ms, s, pos, t, q, nest)
  {
    hide Next;
    assert [t][1..] == [];
  }

  lemma {:induction false} TokensGood(t: Tree, min: int)
    requires GoodTree(t)
    ensures GoodTokens(Tokens(t, min)) && GoodTokens(Inner(t))
    decreases t
  {
    match t
    case Leaf(a) =>
    case Unary(op, e) => TokensGood(e, 11);
    case Binary(op, l, r) => TokensGood(l, Prec(op)); TokensGood(r, Prec(op) + 1);
  }

  /** The operator that follows, if any, binds less tightly than min. */
  predicate Stops(ms: seq<Macro>, s: string, q: nat, min: int, nest: nat)
    requires q <= |s|
  {
    Prec(Next(ms, s, q, nest).kind) < min
  }

  // ----- Climbing -----

  /** A leaf, a unary operator or a parenthesised operand is one primary. */
  lemma {:induction false} PrimaryIs(ms: seq<Macro>, s: string, pos: nat, t: Tree, min: int, q: nat, nest: nat)
    requires GoodTree(t) && pos <= |s| && (Level(t) < min || !t.Binary?) && 1 <= min <= 11
    requires GoodTokens(Tokens(t, min)) && Stands(ms, s, pos, Tokens(t, min), q, nest)
    ensures q <= |s| && Primary(ms, s, pos, nest) == At(Value(t, ms, nest), q)
    decreases t, 1
  {
    hide Next, Expr, Rest, Stands;
    match t
    case Leaf(a) => StandsOne(ms, s, pos, Word(a), q, nest);
    case Unary(op, e) =>
      TokensGood(e, 11);
      var m := StandsParts(ms, s, pos, [Sym(op)], Tokens(e, 11), q, nest);
      StandsOne(ms, s, pos, Sym(op), m, nest);
      PrimaryIs(ms, s, m, e, 11, q, nest);
    case Binary(op, l, r) =>
      TokensGood(t, 1);
      assert Tokens(t, min) == [Sym(Open)] + (Inner(t) + [Sym(Close)]);
      var m := StandsParts(ms, s, pos, [Sym(Open)], Inner(t) + [Sym(Close)], q, nest);
      StandsOne(ms, s, pos, Sym(Open), m, nest);
      var n := StandsParts(ms, s, m, Inner(t), [Sym(Close)], q, nest);
      StandsOne(ms, s, n, Sym(Close), q, nest);
      Climb(ms, s, m, t, 1, 1, n, nest);
      StopHere(ms, s, n, Value(t, ms, nest), 1, nest);
  }

  lemma {:induction false} StopHere(ms: seq<Macro>, s: string, q: nat, left: int, min: int, nest: nat)
    requires q <= |s| && min >= 1 && Stops(ms, s, q, min, nest)
    ensures Rest(ms, s, q, left, min, nest) == At(left, q)
  {
    hide Next, Expr;
  }

  /** Reading t leaves the evaluator behind it with its value, for any minimum up to
      the one it was printed for. */
  lemma {:induction false} Climb(ms: seq<Macro>, s: string, pos: nat, t: Tree, min: int, m: int, q: nat, nest: nat)
    requires GoodTree(t) && pos <= |s| && 1 <= m <= min <= 11
    requires GoodTokens(Tokens(t, min)) && Stands(ms, s, pos, Tokens(t, min), q, nest)
    requires q <= |s| && Stops(ms, s, q, min + 1, nest)
    ensures Expr(ms, s, pos, m, nest) == Rest(ms, s, q, Value(t, ms, nest), m, nest)
    decreases t, if Level(t) < min || !t.Binary? then 2 else 0
  {
    hide Next, Primary, Stands;
    if Level(t) < min || !t.Binary? {
      PrimaryIs(ms, s, pos, t, min, q, nest);
    } else {
      var op, l, r := t.op, t.l, t.r;
      var prec := Prec(op);
      TokensGood(l, prec); TokensGood(r, prec + 1);
      assert Tokens(t, min) == Tokens(l, prec) + ([Sym(op)] + Tokens(r, prec + 1));
      var a := StandsParts(ms, s, pos, Tokens(l, prec), [Sym(op)] + Tokens(r, prec + 1), q, nest);
      var b := StandsParts(ms, s, a, [Sym(op)], Tokens(r, prec + 1), q, nest);
      StandsOne(ms, s, a, Sym(op), b, nest);
      Climb(ms, s, pos, l, prec, m, a, nest);
      Climb(ms, s, b, r, prec + 1, prec + 1, q, nest);
      StopHere(ms, s, q, Value(r, ms, nest), prec + 1, nest);
    }
  }

  // ----- Spelling -----

  function Spell(a: Atom): string
  {
    match a
    case Decimal(d, u) => d + u
    case Octal(d, u) => "0" + d + u
    case Hex(m, d, u) => "0" + [m] + d + u
    case Plain(c) => ['\'', c, '\'']
    case Escape(c) => ['\'', '\\', c, '\'']
    case Name(n) => n
    case Defined(b, n) => "defined" + b + n
    case DefinedIn(b, o, n, c) => "defined" + b + "(" + o + n + c + ")"
  }

  function Sign(k: Kind): string
  {
    match k
    case Open => "(" case Close => ")" case Plus => "+" case Minus => "-" case Star => "*" case Slash => "/"
    case Percent => "%" case Amper => "&" case Bar => "|" case Caret => "^" case Tilde => "~" case Not => "!"
    case Eq => "==" case Ne => "!=" case Lt => "<" case Gt => ">" case Le => "<=" case Ge => ">="
    case And => "&&" case Or => "||" case Shl => "<<" case Shr => ">>"
    case End => "" case Number => ""
  }

  function SpellToken(t: Token): string { if t.Word? then Spell(t.a) else Sign(t.k) }

  predicate Printable(t: Token) { if t.Word? then GoodAtom(t.a) else t.k != Kind.End && t.k != Kind.Number }

  /** The token cannot run into a text that starts with c. */
  predicate Apart(t: Token, c: char)
  {
    match t
    case Word(a) => (a.Plain? || a.Escape? || a.DefinedIn?) || !IsIdChar(c)
    case Sym(k) => if k == Amper then c != '&' else if k == Bar then c != '|' else if k == Not then c != '='
      else if k == Lt then c != '<' && c != '=' else if k == Gt then c != '>' && c != '=' else true
  }

  predicate Fits(t: Token, rest: string) { rest != "" ==> Apart(t, rest[0]) }

  lemma {:induction false} BlanksSkipped(s: string, pos: nat, gap: string, rest: string)
    requires pos <= |s| && s[pos..] == gap + rest && AllBlank(gap) && (rest != "" ==> !IsBlank(rest[0]))
    ensures SkipBlanks(s, pos) == pos + |gap| && s[pos + |gap|..] == rest
    decreases |gap|
  {
    if gap == "" {
      assert s[pos..] == rest;
      if rest != "" { OneOn(s, pos); }
    } else {
      OneOn(s, pos);
      assert (gap + rest)[1..] == gap[1..] + rest;
      BlanksSkipped(s, pos + 1, gap[1..], rest);
    }
  }

  lemma {:induction false} SuffixSkipped(s: string, pos: nat, u: string, rest: string)
    requires pos <= |s| && s[pos..] == u + rest && AllSuffix(u) && (rest != "" ==> !IsSuffix(rest[0]))
    ensures SkipSuffix(s, pos) == pos + |u| && s[pos + |u|..] == rest
    decreases |u|
  {
    if u == "" {
      assert s[pos..] == rest;
      if rest != "" { OneOn(s, pos); }
    } else {
      OneOn(s, pos);
      assert (u + rest)[1..] == u[1..] + rest;
      SuffixSkipped(s, pos + 1, u[1..], rest);
    }
  }

  lemma {:induction false} NameEnds(s: string, pos: nat, n: string, rest: string)
    requires pos <= |s| && s[pos..] == n + rest && (forall i :: 0 <= i < |n| ==> IsIdChar(n[i])) && (rest != "" ==> !IsIdChar(rest[0]))
    ensures IdEnd(s, pos) == pos + |n| && s[pos + |n|..] == rest && s[pos..pos + |n|] == n
    decreases |n|
  {
    if n == "" {
      assert s[pos..] == rest;
      if rest != "" { OneOn(s, pos); }
    } else {
      OneOn(s, pos);
      assert (n + rest)[1..] == n[1..] + rest;
      NameEnds(s, pos + 1, n[1..], rest);
      Past(s, pos, n, rest);
    }
  }

  lemma {:induction false} DigitsRead(s: string, pos: nat, d: string, base: int, acc: int, rest: string)
    requires pos <= |s| && s[pos..] == d + rest && AllDigits(d, base) && (rest != "" ==> DigitValue(rest[0], base) < 0)
    ensures Digits(s, pos, base, acc) == At(Number(d, base, acc), pos + |d|) && s[pos + |d|..] == rest
    decreases |d|
  {
    hide S64, DigitValue;
    if d == "" {
      assert s[pos..] == rest;
      if rest != "" { OneOn(s, pos); }
    } else {
      OneOn(s, pos);
      assert (d + rest)[1..] == d[1..] + rest;
      DigitsRead(s, pos + 1, d[1..], base, S64(acc * base + DigitValue(d[0], base)), rest);
    }
  }

  /** What can follow a word: not a character of an identifier. */
  predicate Free(rest: string) { rest != "" ==> !IsIdChar(rest[0]) }

  lemma {:induction false} FreeEnds(u: string, rest: string, base: int)
    requires AllSuffix(u) && Free(rest) && base <= 16
    ensures rest != "" ==> !IsSuffix(rest[0])
    ensures var t := u + rest; t != "" ==> DigitValue(t[0], base) < 0 && t[0] != 'x' && t[0] != 'X'
  {
    if u != "" { assert (u + rest)[0] == u[0]; }
  }

  lemma {:induction false} DecimalReads(s: string, pos: nat, d: string, u: string, rest: string)
    requires pos <= |s| && s[pos..] == d + (u + rest) && GoodAtom(Decimal(d, u)) && Free(rest)
    ensures pos < |s| && IsDigit(s[pos]) && Numeral(s, pos) == At(Number(d, 10, 0), pos + |d + u|)
  {
    hide Digits, SkipSuffix, Number, S64, AllDigits;
    OneOn(s, pos);
    assert (d + (u + rest))[1..] == d[1..] + (u + rest);
    FreeEnds(u, rest, 10); FreeEnds(u, rest, 8);
    FirstDigit(d);
    if |d| == 1 { OneOnly(s, pos, d, u + rest); }
    DigitsRead(s, pos + 1, d[1..], 10, DigitValue(d[0], 10), u + rest);
    SuffixSkipped(s, pos + |d|, u, rest);
  }

  lemma {:induction false} FirstDigit(d: string)
    requires d != "" && AllDigits(d, 10)
    ensures IsDigit(d[0]) && AllDigits(d[1..], 10) && Number(d, 10, 0) == Number(d[1..], 10, DigitValue(d[0], 10))
  {
    assert S64(0 * 10 + DigitValue(d[0], 10)) == DigitValue(d[0], 10);
  }

  lemma {:induction false} OneOnly(s: string, pos: nat, d: string, t: string)
    requires pos < |s| && |d| == 1 && s[pos..] == d + t
    ensures s[pos + 1..] == t && (pos + 1 < |s| ==> t != "" && s[pos + 1] == t[0])
  {
    OneOn(s, pos);
    assert (d + t)[1..] == t;
    if pos + 1 < |s| { OneOn(s, pos + 1); }
  }

  lemma {:induction false} OctalReads(s: string, pos: nat, d: string, u: string, rest: string)
    requires pos <= |s| && s[pos..] == "0" + (d + (u + rest)) && GoodAtom(Octal(d, u)) && Free(rest)
    ensures pos < |s| && IsDigit(s[pos]) && Numeral(s, pos) == At(Number(d, 8, 0), pos + 1 + |d + u|)
  {
    hide Digits, SkipSuffix, Number, S64;
    OneOn(s, pos);
    OneOnly(s, pos, "0", d + (u + rest));
    FreeEnds(u, rest, 8);
    assert DigitValue(d[0], 8) >= 0;
    DigitsRead(s, pos + 1, d, 8, 0, u + rest);
    SuffixSkipped(s, pos + 1 + |d|, u, rest);
  }

  lemma {:induction false} HexReads(s: string, pos: nat, m: char, d: string, u: string, rest: string)
    requires pos <= |s| && s[pos..] == "0" + ([m] + (d + (u + rest))) && GoodAtom(Hex(m, d, u)) && Free(rest)
    ensures pos < |s| && IsDigit(s[pos]) && Numeral(s, pos) == At(Number(d, 16, 0), pos + 2 + |d + u|)
  {
    hide Digits, SkipSuffix, Number, S64, AllDigits;
    OneOn(s, pos);
    OneOnly(s, pos, "0", [m] + (d + (u + rest)));
    OneOnly(s, pos + 1, [m], d + (u + rest));
    FreeEnds(u, rest, 16);
    DigitsRead(s, pos + 2, d, 16, 0, u + rest);
    SuffixSkipped(s, pos + 2 + |d|, u, rest);
  }

  lemma {:induction false} CharacterReads(s: string, pos: nat, a: Atom, rest: string)
    requires pos <= |s| && (a.Plain? || a.Escape?) && GoodAtom(a) && s[pos..] == Spell(a) + rest
    ensures pos < |s| && s[pos] == '\'' && Quoted(s, pos) == At(if a.Plain? then CharValue(a.c) else Escaped(a.c), pos + |Spell(a)|)
  {
    hide CharValue, Escaped;
    var t := Spell(a);
    Past(s, pos, t, rest);
    assert s[pos] == t[0] && s[pos + 1] == t[1] && s[pos + 2] == t[2];
    if a.Escape? { assert s[pos + 3] == t[3]; }
  }

  lemma {:induction false} NameReads(ms: seq<Macro>, s: string, pos: nat, n: string, rest: string)
    requires pos <= |s| && s[pos..] == n + rest && IsName(n) && Free(rest)
    ensures pos < |s| && IsLetter(s[pos]) && IdEnd(s, pos) == pos + |n| && s[pos..pos + |n|] == n && s[pos + |n|..] == rest
  {
    hide IdEnd;
    Past(s, pos, n, rest);
    NameEnds(s, pos, n, rest);
  }

  lemma {:induction false} DefinedReads(ms: seq<Macro>, s: string, pos: nat, b: string, n: string, rest: string)
    requires pos <= |s| && s[pos..] == b + (n + rest) && GoodAtom(Defined(b, n)) && Free(rest)
    ensures DefinedTest(ms, s, pos) == At(Truth(Lookup(ms, n).Has?), pos + |b + n|)
  {
    hide IdEnd, SkipBlanks, Lookup;
    LetterFirst(n, rest);
    BlanksSkipped(s, pos, b, n + rest);
    NameReads(ms, s, pos + |b|, n, rest);
  }

  lemma {:induction false} LetterFirst(n: string, rest: string)
    requires IsName(n)
    ensures var t := n + rest; t != "" && IsLetter(t[0]) && !IsBlank(t[0]) && t[0] != '('
  {
    assert (n + rest)[0] == n[0];
  }

  lemma {:induction false} DefinedInReads(ms: seq<Macro>, s: string, pos: nat, b: string, o: string, n: string, c: string, rest: string)
    requires pos <= |s| && s[pos..] == b + ("(" + (o + (n + (c + (")" + rest))))) && GoodAtom(DefinedIn(b, o, n, c))
    ensures DefinedTest(ms, s, pos) == At(Truth(Lookup(ms, n).Has?), pos + |b| + 1 + |o| + |n| + |c| + 1)
  {
    hide IdEnd, SkipBlanks, Lookup, DefinedTest, IsName, AllBlank, IsBlank;
    LetterFirst(n, c + (")" + rest));
    OpenReads(s, pos, b, o, n + (c + (")" + rest)));
    InnerReads(ms, s, pos, pos + |b|, pos + |b| + 1 + |o|, n, c, rest);
  }

  /** A name between parentheses. */
  lemma {:induction false} InnerReads(ms: seq<Macro>, s: string, pos: nat, p: nat, q: nat, n: string, c: string, rest: string)
    requires pos <= p < q <= |s| && SkipBlanks(s, pos) == p && s[p] == '(' && SkipBlanks(s, p + 1) == q
    requires s[q..] == n + (c + (")" + rest)) && IsName(n) && AllBlank(c)
    ensures DefinedTest(ms, s, pos) == At(Truth(Lookup(ms, n).Has?), q + |n| + |c| + 1)
  {
    hide IdEnd, SkipBlanks, Lookup, DefinedTest, AllBlank, IsBlank, IsIdChar, Free;
    CloseFree(c, rest);
    NameReads(ms, s, q, n, c + (")" + rest));
    CloseReads(s, q + |n|, c, rest);
    InParens(ms, s, pos, p, q, q + |n|, q + |n| + |c|);
  }

  lemma {:induction false} OpenReads(s: string, pos: nat, b: string, o: string, t: string)
    requires pos <= |s| && s[pos..] == b + ("(" + (o + t)) && AllBlank(b) && AllBlank(o) && t != "" && !IsBlank(t[0])
    ensures var p := pos + |b|; var q := p + 1 + |o|;
      q <= |s| && SkipBlanks(s, pos) == p && s[p] == '(' && SkipBlanks(s, p + 1) == q && s[q..] == t
  {
    hide SkipBlanks, AllBlank, IsBlank;
    OpenNotBlank();
    BlanksSkipped(s, pos, b, "(" + (o + t));
    Past(s, pos + |b|, "(", o + t);
    BlanksSkipped(s, pos + |b| + 1, o, t);
  }

  lemma {:induction false} OpenNotBlank()
    ensures !IsBlank('(')
  {
  }

  lemma {:induction false} CloseReads(s: string, e: nat, c: string, rest: string)
    requires e <= |s| && s[e..] == c + (")" + rest) && AllBlank(c)
    ensures SkipBlanks(s, e) == e + |c| && e + |c| < |s| && s[e + |c|] == ')'
  {
    hide SkipBlanks;
    BlanksSkipped(s, e, c, ")" + rest);
    Past(s, e + |c|, ")", rest);
  }

  lemma {:induction false} InParens(ms: seq<Macro>, s: string, pos: nat, p: nat, q: nat, e: nat, c: nat)
    requires pos <= p < q <= |s| && SkipBlanks(s, pos) == p && s[p] == '(' && SkipBlanks(s, p + 1) == q
    requires IdEnd(s, q) == e > q && SkipBlanks(s, e) == c < |s| && s[c] == ')'
    ensures DefinedTest(ms, s, pos) == At(Truth(Lookup(ms, s[q..e]).Has?), c + 1)
  {
    hide SkipBlanks, IdEnd, Lookup;
  }

  lemma {:induction false} CloseFree(c: string, rest: string)
    requires AllBlank(c)
    ensures Free(c + (")" + rest))
  {
    if c != "" { assert (c + (")" + rest))[0] == c[0]; }
  }

  // ----- Tokens -----

  /** A word reads as its value. */
  lemma {:induction false} WordReads(ms: seq<Macro>, s: string, pos: nat, a: Atom, rest: string, nest: nat)
    requires pos <= |s| && GoodAtom(a) && s[pos..] == Spell(a) + rest && Fits(Word(a), rest)
    ensures pos < |s| && !IsBlank(s[pos]) && Next(ms, s, pos, nest) == Lexed(Kind.Number, AtomValue(a, ms, nest), pos + |Spell(a)|)
  {
    hide Next, Spell, GoodAtom, AtomValue, IsBlank, Fits;
    match a
    case Decimal(_, _) => DecimalWord(ms, s, pos, a, rest, nest);
    case Octal(_, _) => OctalWord(ms, s, pos, a, rest, nest);
    case Hex(_, _, _) => HexWord(ms, s, pos, a, rest, nest);
    case Plain(_) => PlainWord(ms, s, pos, a, rest, nest);
    case Escape(_) => EscapeWord(ms, s, pos, a, rest, nest);
    case Name(_) => NameWord(ms, s, pos, a, rest, nest);
    case Defined(_, _) => DefinedWord(ms, s, pos, a, rest, nest);
    case DefinedIn(_, _, _, _) => DefinedInWord(ms, s, pos, a, rest, nest);
  }

  lemma {:induction false} DecimalWord(ms: seq<Macro>, s: string, pos: nat, a: Atom, rest: string, nest: nat)
    requires pos <= |s| && a.Decimal? && GoodAtom(a) && s[pos..] == Spell(a) + rest && Fits(Word(a), rest)
    ensures pos < |s| && !IsBlank(s[pos]) && Next(ms, s, pos, nest) == Lexed(Kind.Number, AtomValue(a, ms, nest), pos + |Spell(a)|)
  {
    hide Next, SkipBlanks, Numeral, Quoted, Digits, Number, CharValue, Escaped, IsBlank, AllDigits, AllSuffix, IdEnd, DefinedTest,
      MacroValue, Lookup, IsName, AllBlank;
    assert s[pos..] == a.digits + (a.suffix + rest);
    DecimalReads(s, pos, a.digits, a.suffix, rest);
    Word1(ms, s, pos, nest);
  }

  lemma {:induction false} OctalWord(ms: seq<Macro>, s: string, pos: nat, a: Atom, rest: string, nest: nat)
    requires pos <= |s| && a.Octal? && GoodAtom(a) && s[pos..] == Spell(a) + rest && Fits(Word(a), rest)
    ensures pos < |s| && !IsBlank(s[pos]) && Next(ms, s, pos, nest) == Lexed(Kind.Number, AtomValue(a, ms, nest), pos + |Spell(a)|)
  {
    hide Next, SkipBlanks, Numeral, Quoted, Digits, Number, CharValue, Escaped, IsBlank, AllDigits, AllSuffix, IdEnd, DefinedTest,
      MacroValue, Lookup, IsName, AllBlank;
    assert s[pos..] == "0" + (a.digits + (a.suffix + rest));
    OctalReads(s, pos, a.digits, a.suffix, rest);
    Word1(ms, s, pos, nest);
  }

  lemma {:induction false} HexWord(ms: seq<Macro>, s: string, pos: nat, a: Atom, rest: string, nest: nat)
    requires pos <= |s| && a.Hex? && GoodAtom(a) && s[pos..] == Spell(a) + rest && Fits(Word(a), rest)
    ensures pos < |s| && !IsBlank(s[pos]) && Next(ms, s, pos, nest) == Lexed(Kind.Number, AtomValue(a, ms, nest), pos + |Spell(a)|)
  {
    hide Next, SkipBlanks, Numeral, Quoted, Digits, Number, CharValue, Escaped, IsBlank, AllDigits, AllSuffix, IdEnd, DefinedTest,
      MacroValue, Lookup, IsName, AllBlank;
    assert s[pos..] == "0" + ([a.mark] + (a.digits + (a.suffix + rest)));
    HexReads(s, pos, a.mark, a.digits, a.suffix, rest);
    Word1(ms, s, pos, nest);
  }

  lemma {:induction false} PlainWord(ms: seq<Macro>, s: string, pos: nat, a: Atom, rest: string, nest: nat)
    requires pos <= |s| && a.Plain? && GoodAtom(a) && s[pos..] == Spell(a) + rest && Fits(Word(a), rest)
    ensures pos < |s| && !IsBlank(s[pos]) && Next(ms, s, pos, nest) == Lexed(Kind.Number, AtomValue(a, ms, nest), pos + |Spell(a)|)
  {
    hide Next, SkipBlanks, Numeral, Quoted, Digits, Number, CharValue, Escaped, IsBlank, AllDigits, AllSuffix, IdEnd, DefinedTest,
      MacroValue, Lookup, IsName, AllBlank;
    CharacterReads(s, pos, a, rest);
    Word2(ms, s, pos, nest);
  }

  lemma {:induction false} EscapeWord(ms: seq<Macro>, s: string, pos: nat, a: Atom, rest: string, nest: nat)
    requires pos <= |s| && a.Escape? && GoodAtom(a) && s[pos..] == Spell(a) + rest && Fits(Word(a), rest)
    ensures pos < |s| && !IsBlank(s[pos]) && Next(ms, s, pos, nest) == Lexed(Kind.Number, AtomValue(a, ms, nest), pos + |Spell(a)|)
  {
    hide Next, SkipBlanks, Numeral, Quoted, Digits, Number, CharValue, Escaped, IsBlank, AllDigits, AllSuffix, IdEnd, DefinedTest,
      MacroValue, Lookup, IsName, AllBlank;
    CharacterReads(s, pos, a, rest);
    Word2(ms, s, pos, nest);
  }

  lemma {:induction false} NameWord(ms: seq<Macro>, s: string, pos: nat, a: Atom, rest: string, nest: nat)
    requires pos <= |s| && a.Name? && GoodAtom(a) && s[pos..] == Spell(a) + rest && Fits(Word(a), rest)
    ensures pos < |s| && !IsBlank(s[pos]) && Next(ms, s, pos, nest) == Lexed(Kind.Number, AtomValue(a, ms, nest), pos + |Spell(a)|)
  {
    hide Next, SkipBlanks, Numeral, Quoted, Digits, Number, CharValue, Escaped, IsBlank, AllDigits, AllSuffix, IdEnd, DefinedTest,
      MacroValue, Lookup, IsName, AllBlank;
    NameReads(ms, s, pos, a.name, rest);
    Word3(ms, s, pos, a.name, nest);
  }

  lemma {:induction false} DefinedWord(ms: seq<Macro>, s: string, pos: nat, a: Atom, rest: string, nest: nat)
    requires pos <= |s| && a.Defined? && GoodAtom(a) && s[pos..] == Spell(a) + rest && Fits(Word(a), rest)
    ensures pos < |s| && !IsBlank(s[pos]) && Next(ms, s, pos, nest) == Lexed(Kind.Number, AtomValue(a, ms, nest), pos + |Spell(a)|)
  {
    hide Next, SkipBlanks, Numeral, Quoted, Digits, Number, CharValue, Escaped, IsBlank, AllDigits, AllSuffix, IdEnd, DefinedTest,
      MacroValue, Lookup, IsName, AllBlank;
    assert s[pos..] == "defined" + (a.blanks + (a.name + rest));
    BlankFree(a.blanks, a.name + rest);
    NameReads(ms, s, pos, "defined", a.blanks + (a.name + rest));
    DefinedReads(ms, s, pos + 7, a.blanks, a.name, rest);
    Word3(ms, s, pos, "defined", nest);
  }

  lemma {:induction false} DefinedInSpelled(b: string, o: string, n: string, c: string, rest: string)
    ensures Spell(DefinedIn(b, o, n, c)) + rest == "defined" + (b + ("(" + (o + (n + (c + (")" + rest))))))
    ensures |Spell(DefinedIn(b, o, n, c))| == 9 + |b| + |o| + |n| + |c|
  {
    var d := "defined";
    var r := ")" + rest;
    Regroup(d + b + "(" + o + n + c, ")", rest);
    Regroup(d + b + "(" + o + n, c, r);
    Regroup(d + b + "(" + o, n, c + r);
    Regroup(d + b + "(", o, n + (c + r));
    Regroup(d + b, "(", o + (n + (c + r)));
    Regroup(d, b, "(" + (o + (n + (c + r))));
  }

  lemma {:induction false} Regroup(a: string, b: string, c: string)
    ensures a + b + c == a + (b + c)
  {
  }

  lemma {:induction false} DefinedInWord(ms: seq<Macro>, s: string, pos: nat, a: Atom, rest: string, nest: nat)
    requires pos <= |s| && a.DefinedIn? && GoodAtom(a) && s[pos..] == Spell(a) + rest && Fits(Word(a), rest)
    ensures pos < |s| && !IsBlank(s[pos]) && Next(ms, s, pos, nest) == Lexed(Kind.Number, AtomValue(a, ms, nest), pos + |Spell(a)|)
  {
    hide Next, SkipBlanks, Numeral, Quoted, Digits, Number, CharValue, Escaped, IsBlank, AllDigits, AllSuffix, IdEnd, DefinedTest,
      MacroValue, Lookup, IsName, AllBlank, Fits, Spell;
    var after := a.blanks + ("(" + (a.open + (a.name + (a.close + (")" + rest)))));
    DefinedInSpelled(a.blanks, a.open, a.name, a.close, rest);
    OpenFree(a.blanks, a.open + (a.name + (a.close + (")" + rest))));
    NameReads(ms, s, pos, "defined", after);
    DefinedInReads(ms, s, pos + 7, a.blanks, a.open, a.name, a.close, rest);
    Word3(ms, s, pos, "defined", nest);
  }

  lemma {:induction false} Word1(ms: seq<Macro>, s: string, pos: nat, nest: nat)
    requires pos < |s| && IsDigit(s[pos])
    ensures !IsBlank(s[pos]) && Next(ms, s, pos, nest) == Lexed(Kind.Number, Numeral(s, pos).val, Numeral(s, pos).pos)
  {
  }

  lemma {:induction false} Word2(ms: seq<Macro>, s: string, pos: nat, nest: nat)
    requires pos < |s| && s[pos] == '\''
    ensures !IsBlank(s[pos]) && Next(ms, s, pos, nest) == Lexed(Kind.Number, Quoted(s, pos).val, Quoted(s, pos).pos)
  {
  }

  lemma {:induction false} Word3(ms: seq<Macro>, s: string, pos: nat, n: string, nest: nat)
    requires pos < |s| && IsLetter(s[pos]) && IdEnd(s, pos) == pos + |n| && s[pos..pos + |n|] == n
    ensures !IsBlank(s[pos])
    ensures Next(ms, s, pos, nest) == if n == "defined" then var d := DefinedTest(ms, s, pos + 7); Lexed(Kind.Number, d.val, d.pos)
      else Lexed(Kind.Number, MacroValue(ms, n, nest), pos + |n|)
  {
    hide IdEnd, DefinedTest, MacroValue;
  }

  lemma {:induction false} BlankFree(b: string, t: string)
    requires b != "" && AllBlank(b)
    ensures Free(b + t) && IsName("defined")
  {
    assert (b + t)[0] == b[0];
  }

  lemma {:induction false} OpenFree(b: string, t: string)
    requires AllBlank(b)
    ensures Free(b + ("(" + t)) && IsName("defined")
  {
    if b != "" { assert (b + ("(" + t))[0] == b[0]; } else { assert (b + ("(" + t))[0] == '('; }
  }

  /** An operator reads as itself. */
  lemma {:induction false} SignReads(ms: seq<Macro>, s: string, pos: nat, k: Kind, rest: string, nest: nat)
    requires pos <= |s| && k != Kind.End && k != Kind.Number && s[pos..] == Sign(k) + rest && Fits(Sym(k), rest)
    ensures pos < |s| && !IsBlank(s[pos]) && Next(ms, s, pos, nest) == Lexed(k, 0, pos + |Sign(k)|)
  {
    hide Next, Symbol, IsBlank;
    var t := Sign(k);
    Past(s, pos, t, rest);
    assert s[pos] == t[0];
    if |t| == 2 { assert s[pos + 1] == s[pos..pos + 2][1] == t[1]; }
    if |t| == 1 && rest != "" { assert s[pos + 1] == rest[0]; }
    SymbolIs(s, pos, k);
    SymbolNext(ms, s, pos, nest);
  }

  /** The characters at pos spell sign k and nothing longer. */
  lemma {:induction false} SymbolIs(s: string, pos: nat, k: Kind)
    requires k != Kind.End && k != Kind.Number && pos + |Sign(k)| <= |s|
    requires s[pos] == Sign(k)[0] && (|Sign(k)| == 2 ==> s[pos + 1] == Sign(k)[1])
    requires |Sign(k)| == 1 && pos + 1 < |s| ==> Apart(Sym(k), s[pos + 1])
    ensures Symbol(s, pos) == Lexed(k, 0, pos + |Sign(k)|)
    ensures !IsBlank(s[pos]) && !IsDigit(s[pos]) && !IsLetter(s[pos]) && s[pos] != '\''
  {
  }

  lemma {:induction false} SymbolNext(ms: seq<Macro>, s: string, pos: nat, nest: nat)
    requires pos < |s| && !IsBlank(s[pos]) && !IsDigit(s[pos]) && !IsLetter(s[pos]) && s[pos] != '\''
    ensures Next(ms, s, pos, nest) == Symbol(s, pos)
  {
    hide Symbol, IsBlank, IsDigit, IsLetter;
  }

  /** Blanks and a token. */
  lemma {:induction false} TokenReads(ms: seq<Macro>, s: string, pos: nat, gap: string, t: Token, rest: string, nest: nat)
    requires pos <= |s| && Printable(t) && AllBlank(gap) && s[pos..] == gap + (SpellToken(t) + rest) && Fits(t, rest)
    ensures GoodToken(t) && Reads(ms, s, pos, t, pos + |gap| + |SpellToken(t)|, nest)
  {
    hide Next, Spell, Sign, AtomValue, GoodAtom, AllBlank, Fits;
    Past(s, pos, gap, SpellToken(t) + rest);
    if t.Word? { WordReads(ms, s, pos + |gap|, t.a, rest, nest); } else { SignReads(ms, s, pos + |gap|, t.k, rest, nest); }
    OneOn(s, pos + |gap|);
    BlanksSkipped(s, pos, gap, SpellToken(t) + rest);
    AfterBlanks(ms, s, pos, pos + |gap|, nest);
  }

  lemma {:induction false} AfterBlanks(ms: seq<Macro>, s: string, pos: nat, p: nat, nest: nat)
    requires pos <= p < |s| && SkipBlanks(s, pos) == p && !IsBlank(s[p])
    ensures Next(ms, s, pos, nest) == Next(ms, s, p, nest)
  {
    assert SkipBlanks(s, p) == p;
    hide SkipBlanks, Numeral, Quoted, IdEnd, DefinedTest, MacroValue, Symbol;
  }

  // ----- Whole expressions -----

  /** The tokens with blanks in front of each. */
  function Text(ts: seq<Token>, gaps: seq<string>): string
    requires |gaps| == |ts|
    decreases |ts|
  {
    if ts == [] then "" else gaps[0] + (SpellToken(ts[0]) + Text(ts[1..], gaps[1..]))
  }

  predicate EndsOperand(t: Token) { t.Word? || t.k == Close }

  predicate StartsOperand(t: Token) { t.Word? || t.k == Open || IsUnary(t.k) }

  /** What may stand next to each other in an expression. */
  predicate Follows(a: Token, b: Token)
  {
    Printable(b) && if EndsOperand(a) then b.Sym? && (Prec(b.k) >= 1 || b.k == Close) else StartsOperand(b)
  }

  predicate Chained(ts: seq<Token>) { forall i :: 0 <= i < |ts| - 1 ==> Follows(ts[i], ts[i + 1]) }

  /** A chain of printable tokens from the start to the end of an operand. */
  predicate Operand(ts: seq<Token>)
  {
    ts != [] && Printable(ts[0]) && StartsOperand(ts[0]) && EndsOperand(ts[|ts| - 1]) && Chained(ts)
  }

  lemma {:induction false} Wrapped(ts: seq<Token>)
    requires Operand(ts)
    ensures Operand([Sym(Open)] + ts + [Sym(Close)])
  {
    hide Printable, IsUnary;
    var r := [Sym(Open)] + ts + [Sym(Close)];
    Brackets();
    forall i | 0 <= i < |r| - 1 ensures Follows(r[i], r[i + 1]) {
      if 0 < i < |r| - 2 { assert r[i] == ts[i - 1] && r[i + 1] == ts[i - 1 + 1]; }
    }
  }

  lemma {:induction false} Brackets()
    ensures Printable(Sym(Open)) && Printable(Sym(Close))
  {
  }

  lemma {:induction false} Prefixed(op: Kind, ts: seq<Token>)
    requires Operand(ts) && IsUnary(op)
    ensures Operand([Sym(op)] + ts)
  {
    var r := [Sym(op)] + ts;
    forall i | 0 <= i < |r| - 1 ensures Follows(r[i], r[i + 1]) {
      if i > 0 { assert r[i] == ts[i - 1] && r[i + 1] == ts[i - 1 + 1]; }
    }
  }

  lemma {:induction false} Infixed(a: seq<Token>, op: Kind, b: seq<Token>)
    requires Operand(a) && Operand(b) && Prec(op) >= 1
    ensures Operand(a + [Sym(op)] + b)
  {
    hide StartsOperand, IsUnary;
    var r := a + [Sym(op)] + b;
    BinaryPrints(op);
    forall i | 0 <= i < |r| - 1 ensures Follows(r[i], r[i + 1]) {
      if i < |a| - 1 { assert r[i] == a[i] && r[i + 1] == a[i + 1]; }
      if i > |a| { assert r[i] == b[i - |a| - 1] && r[i + 1] == b[i - |a| - 1 + 1]; }
    }
  }

  lemma {:induction false} BinaryPrints(op: Kind)
    requires Prec(op) >= 1
    ensures Printable(Sym(op)) && !EndsOperand(Sym(op))
  {
  }

  /** A printed tree is an operand. */
  lemma {:induction false} TreeOperand(t: Tree, min: int)
    requires GoodTree(t)
    ensures Operand(Tokens(t, min)) && Operand(Inner(t))
    decreases t
  {
    hide Operand;
    match t
    case Leaf(a) => LeafOperand(a);
    case Unary(op, e) => TreeOperand(e, 11); Prefixed(op, Tokens(e, 11));
    case Binary(op, l, r) =>
      TreeOperand(l, Prec(op)); TreeOperand(r, Prec(op) + 1);
      Infixed(Tokens(l, Prec(op)), op, Tokens(r, Prec(op) + 1));
      Wrapped(Inner(t));
  }

  lemma {:induction false} LeafOperand(a: Atom)
    requires GoodAtom(a)
    ensures Operand([Word(a)])
  {
  }

  /** Tokens that may stand next to each other do not run into each other. */
  lemma {:induction false} NeighboursApart(a: Token, b: Token, rest: string)
    requires Follows(a, b) && Printable(a)
    ensures Fits(a, SpellToken(b) + rest)
  {
    if b.Word? {
      WordStart(b.a);
      assert (SpellToken(b) + rest)[0] == Spell(b.a)[0];
    } else {
      assert (SpellToken(b) + rest)[0] == Sign(b.k)[0];
    }
  }

  lemma {:induction false} WordStart(a: Atom)
    requires GoodAtom(a)
    ensures Spell(a) != "" && (IsDigit(Spell(a)[0]) || IsLetter(Spell(a)[0]) || Spell(a)[0] == '\'')
  {
  }

  lemma {:induction false} BlankApart(t: Token, gap: string, rest: string)
    requires AllBlank(gap) && gap != "" && Printable(t)
    ensures Fits(t, gap + rest)
  {
    assert (gap + rest)[0] == gap[0];
  }

  /** The text of a chain, whatever the blanks, reads as the chain. */
  lemma {:induction false} TextReads(ms: seq<Macro>, s: string, pos: nat, ts: seq<Token>, gaps: seq<string>, tail: string, nest: nat)
    requires pos <= |s| && |gaps| == |ts| && (forall i :: 0 <= i < |gaps| ==> AllBlank(gaps[i])) && AllBlank(tail)
    requires (forall i :: 0 <= i < |ts| ==> Printable(ts[i])) && Chained(ts)
    requires s[pos..] == Text(ts, gaps) + tail
    ensures GoodTokens(ts) && Stands(ms, s, pos, ts, |s| - |tail|, nest)
    decreases |ts|
  {
    hide SpellToken, Next, Follows, Fits, AllBlank, Printable;
    if ts == [] {
      assert s[pos..] == tail;
    } else {
      var rest := Text(ts[1..], gaps[1..]) + tail;
      var p := pos + |gaps[0]| + |SpellToken(ts[0])|;
      assert s[pos..] == gaps[0] + (SpellToken(ts[0]) + rest);
      RestFits(ts, gaps, tail);
      TokenReads(ms, s, pos, gaps[0], ts[0], rest, nest);
      Past(s, pos, gaps[0], SpellToken(ts[0]) + rest);
      Past(s, pos + |gaps[0]|, SpellToken(ts[0]), rest);
      assert forall i :: 0 <= i < |ts[1..]| ==> ts[1..][i] == ts[i + 1];
      TextReads(ms, s, p, ts[1..], gaps[1..], tail, nest);
      assert forall i :: 0 < i < |ts| ==> ts[i] == ts[1..][i - 1];
      ReadsStop(ms, s, pos, ts[0], p, nest);
    }
  }

  lemma {:induction false} ReadsStop(ms: seq<Macro>, s: string, pos: nat, t: Token, p: nat, nest: nat)
    requires pos <= |s| && GoodToken(t) && Reads(ms, s, pos, t, p, nest)
    ensures Next(ms, s, pos, nest).pos == p
  {
    hide Next;
  }

  lemma {:induction false} RestFits(ts: seq<Token>, gaps: seq<string>, tail: string)
    requires |gaps| == |ts| && ts != [] && (forall i :: 0 <= i < |gaps| ==> AllBlank(gaps[i])) && AllBlank(tail)
    requires (forall i :: 0 <= i < |ts| ==> Printable(ts[i])) && Chained(ts)
    ensures Fits(ts[0], Text(ts[1..], gaps[1..]) + tail)
  {
    hide SpellToken, Fits, Follows, AllBlank, Printable;
    if |ts| == 1 {
      assert Text(ts[1..], gaps[1..]) + tail == tail;
      if tail == "" { NothingFits(ts[0]); } else { assert tail + "" == tail; BlankApart(ts[0], tail, ""); }
    } else {
      var more := Text(ts[1..][1..], gaps[1..][1..]) + tail;
      assert Text(ts[1..], gaps[1..]) + tail == gaps[1] + (SpellToken(ts[1]) + more);
      assert Follows(ts[0], ts[0 + 1]);
      if gaps[1] == "" {
        assert gaps[1] + (SpellToken(ts[1]) + more) == SpellToken(ts[1]) + more;
        NeighboursApart(ts[0], ts[1], more);
      } else {
        BlankApart(ts[0], gaps[1], SpellToken(ts[1]) + more);
      }
    }
  }

  lemma {:induction false} NothingFits(t: Token)
    ensures Fits(t, "")
  {
  }

  /** Only blanks are left. */
  lemma {:induction false} EndOfText(ms: seq<Macro>, s: string, q: nat, tail: string, nest: nat)
    requires q <= |s| && AllBlank(tail) && s[q..] == tail
    ensures Stops(ms, s, q, 2, nest) && Stops(ms, s, q, 1, nest)
  {
    assert tail + "" == tail;
    BlanksSkipped(s, q, tail, "");
  }

  lemma {:induction false} AllPrintable(ts: seq<Token>)
    requires Operand(ts)
    ensures forall i :: 0 <= i < |ts| ==> Printable(ts[i])
  {
    hide Printable, StartsOperand, EndsOperand;
    forall i | 0 <= i < |ts| ensures Printable(ts[i]) {
      if i > 0 { assert Follows(ts[i - 1], ts[i - 1 + 1]); }
    }
  }

  /** The evaluator inverts printing: whatever the blanks between the tokens, the text of
      a tree is consumed exactly and evaluates to the tree's value. */
  lemma {:induction false} EvaluatesPrinted(ms: seq<Macro>, t: Tree, gaps: seq<string>, tail: string, nest: nat)
    requires GoodTree(t) && |gaps| == |Tokens(t, 1)| && (forall i :: 0 <= i < |gaps| ==> AllBlank(gaps[i])) && AllBlank(tail)
    ensures var s := Text(Tokens(t, 1), gaps) + tail;
      Expr(ms, s, 0, 1, nest) == At(Value(t, ms, nest), |s| - |tail|) && (Holds(ms, s, nest) <==> Value(t, ms, nest) != 0)
  {
    hide Text, Expr, Operand, Value, AllBlank, Stands, Stops, Chained;
    var ts := Tokens(t, 1);
    var s := Text(ts, gaps) + tail;
    TreeOperand(t, 1);
    AllPrintable(ts);
    assert s[0..] == s;
    OperandChained(ts);
    TextReads(ms, s, 0, ts, gaps, tail, nest);
    var q := |s| - |tail|;
    assert s[q..] == tail;
    EndOfText(ms, s, q, tail, nest);
    Climb(ms, s, 0, t, 1, 1, q, nest);
    StopHere(ms, s, q, Value(t, ms, nest), 1, nest);
    TextNotEmpty(ts, gaps);
  }

  lemma {:induction false} OperandChained(ts: seq<Token>)
    requires Operand(ts)
    ensures Chained(ts)
  {
  }

  lemma {:induction false} TextNotEmpty(ts: seq<Token>, gaps: seq<string>)
    requires Operand(ts) && |gaps| == |ts|
    ensures Text(ts, gaps) != ""
  {
    hide Chained;
    if ts[0].Word? { WordStart(ts[0].a); }
  }

  /** A name whose macro is the text of a tree has the value of that tree. */
  lemma {:induction false} MacroMeans(ms: seq<Macro>, name: string, t: Tree, gaps: seq<string>, tail: string, nest: nat)
    requires GoodTree(t) && |gaps| == |Tokens(t, 1)| && (forall i :: 0 <= i < |gaps| ==> AllBlank(gaps[i])) && AllBlank(tail)
    requires Lookup(ms, name) == Has(Text(Tokens(t, 1), gaps) + tail)
    ensures MacroValue(ms, name, nest + 1) == Value(t, ms, nest)
  {
    hide Text, Expr, Operand, Value, Tokens;
    EvaluatesPrinted(ms, t, gaps, tail, nest);
    TreeOperand(t, 1);
    TextNotEmpty(Tokens(t, 1), gaps);
  }
}
