/** The expressions of #if: a lexer over characters and a precedence-climbing
    evaluator, as functions of the position.  IfEvaluator.dfy has the program that
    computes them with loops. */
module IfExpression {
  import opened Words

  datatype Kind = End | Number | Open | Close | Plus | Minus | Star | Slash | Percent | Amper | Bar | Caret | Tilde | Not
    | Eq | Ne | Lt | Gt | Le | Ge | And | Or | Shl | Shr

  /** How tightly a binary operator binds; -1 for everything else. */
  function Prec(k: Kind): int
  {
    match k
    case Or => 1
    case And => 2
    case Bar => 3
    case Caret => 4
    case Amper => 5
    case Eq => 6 case Ne => 6
    case Lt => 7 case Gt => 7 case Le => 7 case Ge => 7
    case Shl => 8 case Shr => 8
    case Plus => 9 case Minus => 9
    case Star => 10 case Slash => 10 case Percent => 10
    case _ => -1
  }

  function Truth(b: bool): int { if b then 1 else 0 }

  /** A binary operator on long; shift counts are taken modulo 64, as the processor does. */
  function Apply(a: int, op: Kind, b: int): int
  {
    match op
    case Plus => S64(a + b)
    case Minus => S64(a - b)
    case Star => S64(a * b)
    case Slash => if b != 0 then S64(TruncDiv(a, b)) else 0
    case Percent => if b != 0 then TruncMod(a, b) else 0
    case Amper => S64(And64(a, b))
    case Bar => S64(Or64(a, b))
    case Caret => S64(Xor64(a, b))
    case And => Truth(a != 0 && b != 0)
    case Or => Truth(a != 0 || b != 0)
    case Eq => Truth(a == b)
    case Ne => Truth(a != b)
    case Lt => Truth(a < b)
    case Gt => Truth(a > b)
    case Le => Truth(a <= b)
    case Ge => Truth(a >= b)
    case Shl => S64(a * Pow2(b % 64))
    case Shr => a / Pow2(b % 64)
    case _ => 0
  }

  /** A unary operator. */
  function ApplyUnary(op: Kind, a: int): int
  {
    match op
    case Minus => S64(-a)
    case Tilde => S64(-a - 1)
    case Not => Truth(a == 0)
    case _ => a
  }

  predicate IsUnary(k: Kind) { k == Plus || k == Minus || k == Tilde || k == Not }

  // ----- Characters -----

  predicate IsBlank(c: char) { c == ' ' || c == '\t' || c == '\n' || c == '\r' }

  predicate IsDigit(c: char) { '0' <= c <= '9' }

  predicate IsLetter(c: char) { ('a' <= c <= 'z') || ('A' <= c <= 'Z') || c == '_' }

  predicate IsIdChar(c: char) { IsLetter(c) || IsDigit(c) }

  predicate IsSuffix(c: char) { c == 'u' || c == 'U' || c == 'l' || c == 'L' }

  /** The value of a digit in a base, or -1. */
  function DigitValue(c: char, base: int): int
  {
    var v := if '0' <= c <= '9' then c as int - '0' as int
             else if 'a' <= c <= 'f' then c as int - 'a' as int + 10
             else if 'A' <= c <= 'F' then c as int - 'A' as int + 10 else -1;
    if v < base then v else -1
  }

  function SkipBlanks(s: string, pos: nat): (p: nat)
    requires pos <= |s|
    ensures pos <= p <= |s| && (p < |s| ==> !IsBlank(s[p]))
    decreases |s| - pos
  {
    if pos < |s| && IsBlank(s[pos]) then SkipBlanks(s, pos + 1) else pos
  }

  function SkipSuffix(s: string, pos: nat): (p: nat)
    requires pos <= |s|
    ensures pos <= p <= |s|
    decreases |s| - pos
  {
    if pos < |s| && IsSuffix(s[pos]) then SkipSuffix(s, pos + 1) else pos
  }

  function IdEnd(s: string, pos: nat): (p: nat)
    requires pos <= |s|
    ensures pos <= p <= |s| && (p < |s| ==> !IsIdChar(s[p])) && (pos < |s| && IsIdChar(s[pos]) ==> p > pos)
    decreases |s| - pos
  {
    if pos < |s| && IsIdChar(s[pos]) then IdEnd(s, pos + 1) else pos
  }

  /** A value and the position behind it. */
  datatype At = At(val: int, pos: nat)

  /** Digits from pos on, behind a value that has been read already. */
  function Digits(s: string, pos: nat, base: int, acc: int): (r: At)
    requires pos <= |s|
    ensures pos <= r.pos <= |s|
    decreases |s| - pos
  {
    if pos < |s| && DigitValue(s[pos], base) >= 0 then Digits(s, pos + 1, base, S64(acc * base + DigitValue(s[pos], base)))
    else At(acc, pos)
  }

  /** A number: hexadecimal, octal or decimal, with suffix letters. */
  function Numeral(s: string, pos: nat): (r: At)
    requires pos < |s| && IsDigit(s[pos])
    ensures pos < r.pos <= |s|
  {
    var d := if s[pos] == '0' && pos + 1 < |s| && (s[pos + 1] == 'x' || s[pos + 1] == 'X') then Digits(s, pos + 2, 16, 0)
             else if s[pos] == '0' && pos + 1 < |s| && DigitValue(s[pos + 1], 8) >= 0 then Digits(s, pos + 1, 8, 0)
             else Digits(s, pos + 1, 10, DigitValue(s[pos], 10));
    At(d.val, SkipSuffix(s, d.pos))
  }

  function Escaped(c: char): int
  {
    match c
    case 'n' => 10
    case 't' => 9
    case 'r' => 13
    case '0' => 0
    case _ => CharValue(c)
  }

  /** A char is a signed byte. */
  function CharValue(c: char): int { S8(c as int) }

  /** A character constant, from its quote on. */
  function Quoted(s: string, pos: nat): (r: At)
    requires pos < |s|
    ensures pos < r.pos <= |s|
  {
    var p := pos + 1;
    var d := if p < |s| && s[p] == '\\' then
               (if p + 1 < |s| then At(Escaped(s[p + 1]), p + 2) else At(0, p + 1))
             else if p < |s| then At(CharValue(s[p]), p + 1) else At(0, p);
    if d.pos < |s| && s[d.pos] == '\'' then At(d.val, d.pos + 1) else d
  }

  // ----- Macros -----

  datatype Macro = Macro(name: string, text: string)

  datatype Found = Missing | Has(text: string)

  /** The first macro of that name. */
  function Lookup(ms: seq<Macro>, name: string): Found
  {
    if ms == [] then Missing else if ms[0].name == name then Has(ms[0].text) else Lookup(ms[1..], name)
  }

  /** What follows the word defined: a name, perhaps in parentheses. */
  function DefinedTest(ms: seq<Macro>, s: string, pos: nat): (r: At)
    requires pos <= |s|
    ensures pos <= r.pos <= |s|
  {
    var p := SkipBlanks(s, pos);
    var paren := p < |s| && s[p] == '(';
    var q := if paren then SkipBlanks(s, p + 1) else p;
    var e := IdEnd(s, q);
    var v := if e > q then Truth(Lookup(ms, s[q..e]).Has?) else 0;
    if !paren then At(v, e) else
      var c := SkipBlanks(s, e);
      At(v, if c < |s| && s[c] == ')' then c + 1 else c)
  }

  // ----- Tokens -----

  datatype Lexed = Lexed(kind: Kind, val: int, pos: nat)

  function Second(s: string, pos: nat, c: char, two: Kind, one: Lexed): Lexed
  {
    if pos + 1 < |s| && s[pos + 1] == c then Lexed(two, 0, pos + 2) else one
  }

  /** An operator or a parenthesis; End for anything else. */
  function Symbol(s: string, pos: nat): (r: Lexed)
    requires pos < |s|
    ensures pos < r.pos <= |s| && r.val == 0 && r.kind != Number
  {
    var one := (k: Kind) => Lexed(k, 0, pos + 1);
    match s[pos]
    case '(' => one(Open)
    case ')' => one(Close)
    case '+' => one(Plus)
    case '-' => one(Minus)
    case '*' => one(Star)
    case '/' => one(Slash)
    case '%' => one(Percent)
    case '&' => Second(s, pos, '&', And, one(Amper))
    case '|' => Second(s, pos, '|', Or, one(Bar))
    case '^' => one(Caret)
    case '~' => one(Tilde)
    case '!' => Second(s, pos, '=', Ne, one(Not))
    case '=' => Second(s, pos, '=', Eq, one(End))
    case '<' => Second(s, pos, '<', Shl, Second(s, pos, '=', Le, one(Lt)))
    case '>' => Second(s, pos, '>', Shr, Second(s, pos, '=', Ge, one(Gt)))
    case _ => one(End)
  }

  /** The next token.  The value of a macro is the value of its text; macros may nest
      that deep (nest), deeper ones count as 0. */
  function Next(ms: seq<Macro>, s: string, pos: nat, nest: nat): (r: Lexed)
    requires pos <= |s|
    ensures pos <= r.pos <= |s| && (r.kind != End ==> pos < r.pos)
    decreases nest, |s| - pos, 0
  {
    var p := SkipBlanks(s, pos);
    if p >= |s| then Lexed(End, 0, p)
    else if IsDigit(s[p]) then var d := Numeral(s, p); Lexed(Number, d.val, d.pos)
    else if s[p] == '\'' then var d := Quoted(s, p); Lexed(Number, d.val, d.pos)
    else if IsLetter(s[p]) then
      var e := IdEnd(s, p);
      if s[p..e] == "defined" then var d := DefinedTest(ms, s, e); Lexed(Number, d.val, d.pos)
      else Lexed(Number, MacroValue(ms, s[p..e], nest), e)
    else Symbol(s, p)
  }

  /** The value of a name: that of its macro's text, or 0. */
  function MacroValue(ms: seq<Macro>, name: string, nest: nat): int
    decreases nest, 0
  {
    match Lookup(ms, name)
    case Has(text) => if text == "" || nest == 0 then 0 else Expr(ms, text, 0, 1, nest - 1).val
    case Missing => 0
  }

  // ----- Expressions -----

  /** A number, a parenthesised expression (the closing parenthesis may be missing) or
      a unary operator with its operand; 0 without moving if there is none of them. */
  function Primary(ms: seq<Macro>, s: string, pos: nat, nest: nat): (r: At)
    requires pos <= |s|
    ensures pos <= r.pos <= |s|
    decreases nest, |s| - pos, 1
  {
    var t := Next(ms, s, pos, nest);
    if t.kind == Number then At(t.val, t.pos)
    else if t.kind == Open then
      var e := Expr(ms, s, t.pos, 1, nest);
      var c := Next(ms, s, e.pos, nest);
      if c.kind == Close then At(e.val, c.pos) else e
    else if IsUnary(t.kind) then
      var e := Primary(ms, s, t.pos, nest);
      At(ApplyUnary(t.kind, e.val), e.pos)
    else At(0, pos)
  }

  /** A primary and all the operators behind it that bind at least as tightly as min. */
  function Expr(ms: seq<Macro>, s: string, pos: nat, min: int, nest: nat): (r: At)
    requires pos <= |s| && min >= 1
    ensures pos <= r.pos <= |s|
    decreases nest, |s| - pos, 3
  {
    var left := Primary(ms, s, pos, nest);
    Rest(ms, s, left.pos, left.val, min, nest)
  }

  function Rest(ms: seq<Macro>, s: string, pos: nat, left: int, min: int, nest: nat): (r: At)
    requires pos <= |s| && min >= 1
    ensures pos <= r.pos <= |s|
    decreases nest, |s| - pos, 2
  {
    var t := Next(ms, s, pos, nest);
    var prec := Prec(t.kind);
    if prec < min then At(left, pos)
    else
      var right := Expr(ms, s, t.pos, prec + 1, nest);
      Rest(ms, s, right.pos, Apply(left, t.kind, right.val), min, nest)
  }

  /** The truth of an #if line. */
  function Holds(ms: seq<Macro>, s: string, nest: nat): bool { s != "" && Expr(ms, s, 0, 1, nest).val != 0 }
}
