/** The program that evaluates #if lines: a lexer and a precedence-climbing parser with
    loops over a cursor, computing the functions of IfExpression.dfy. */
module IfEvaluator {
  import opened Words
  import opened IfExpression

  method SkipWhite(s: string, pos: nat) returns (p: nat)
    requires pos <= |s|
    ensures p == SkipBlanks(s, pos)
  {
    p := pos;
    while p < |s| && IsBlank(s[p])
      invariant p <= |s| && SkipBlanks(s, pos) == SkipBlanks(s, p)
    {
      p := p + 1;
    }
  }

  method EndOfName(s: string, pos: nat) returns (p: nat)
    requires pos <= |s|
    ensures p == IdEnd(s, pos)
  {
    p := pos;
    while p < |s| && IsIdChar(s[p])
      invariant p <= |s| && IdEnd(s, pos) == IdEnd(s, p)
    {
      p := p + 1;
    }
  }

  method ReadDigits(s: string, pos: nat, base: int, acc: int) returns (val: int, p: nat)
    requires pos <= |s|
    ensures At(val, p) == Digits(s, pos, base, acc)
  {
    val, p := acc, pos;
    while p < |s| && DigitValue(s[p], base) >= 0
      invariant p <= |s| && Digits(s, pos, base, acc) == Digits(s, p, base, val)
    {
      val := S64(val * base + DigitValue(s[p], base));
      p := p + 1;
    }
  }

  method ReadNumeral(s: string, pos: nat) returns (val: int, p: nat)
    requires pos < |s| && IsDigit(s[pos])
    ensures At(val, p) == Numeral(s, pos)
  {
    if s[pos] == '0' && pos + 1 < |s| && (s[pos + 1] == 'x' || s[pos + 1] == 'X') {
      val, p := ReadDigits(s, pos + 2, 16, 0);
    } else if s[pos] == '0' && pos + 1 < |s| && '0' <= s[pos + 1] <= '7' {
      val, p := ReadDigits(s, pos + 1, 8, 0);
    } else {
      val, p := ReadDigits(s, pos + 1, 10, (s[pos] - '0') as int);
    }
    ghost var start := p;
    while p < |s| && IsSuffix(s[p])
      invariant start <= p <= |s| && SkipSuffix(s, start) == SkipSuffix(s, p)
    {
      p := p + 1;
    }
  }

  /** The first macro with that name. */
  method FindMacro(ms: seq<Macro>, name: string) returns (found: bool, i: nat)
    ensures found ==> i < |ms| && Lookup(ms, name) == Has(ms[i].text)
    ensures !found ==> Lookup(ms, name) == Missing
  {
    i := 0;
    assert ms[0..] == ms;
    while i < |ms|
      invariant i <= |ms| && Lookup(ms, name) == Lookup(ms[i..], name)
    {
      assert ms[i..][1..] == ms[i + 1..];
      if ms[i].name == name { return true, i; }
      i := i + 1;
    }
    found := false;
  }

  method ReadDefined(ms: seq<Macro>, s: string, pos: nat) returns (val: int, p: nat)
    requires pos <= |s|
    ensures At(val, p) == DefinedTest(ms, s, pos)
  {
    hide SkipBlanks, IdEnd, Lookup;
    p := SkipWhite(s, pos);
    var paren := p < |s| && s[p] == '(';
    if paren { p := SkipWhite(s, p + 1); }
    var start := p;
    p := EndOfName(s, p);
    val := 0;
    if p > start {
      var found, _ := FindMacro(ms, s[start..p]);
      val := if found then 1 else 0;
    }
    if paren {
      p := SkipWhite(s, p);
      if p < |s| && s[p] == ')' { p := p + 1; }
    }
  }

  method NextToken(ms: seq<Macro>, s: string, pos: nat, nest: nat) returns (t: Lexed)
    requires pos <= |s|
    ensures t == Next(ms, s, pos, nest)
    decreases nest, |s| - pos, 0
  {
    hide SkipBlanks, IdEnd, Lookup, Numeral, Symbol, Quoted, DefinedTest;
    var p := SkipWhite(s, pos);
    if p >= |s| { return Lexed(End, 0, p); }
    var val, q;
    if IsDigit(s[p]) {
      val, q := ReadNumeral(s, p);
      return Lexed(Number, val, q);
    }
    if s[p] == '\'' {
      var d := Quoted(s, p);
      return Lexed(Number, d.val, d.pos);
    }
    if IsLetter(s[p]) {
      q := EndOfName(s, p);
      if s[p..q] == "defined" {
        val, q := ReadDefined(ms, s, q);
        return Lexed(Number, val, q);
      }
      var found, i := FindMacro(ms, s[p..q]);
      val := 0;
      if found && ms[i].text != "" && nest > 0 {
        var end;
        val, end := ParseExpr(ms, ms[i].text, 0, 1, nest - 1);
      }
      return Lexed(Number, val, q);
    }
    t := Symbol(s, p);
  }

  method ParsePrimary(ms: seq<Macro>, s: string, pos: nat, nest: nat) returns (val: int, p: nat)
    requires pos <= |s|
    ensures At(val, p) == Primary(ms, s, pos, nest)
    decreases nest, |s| - pos, 1
  {
    hide Next, Expr;
    var t := NextToken(ms, s, pos, nest);
    if t.kind == Number { return t.val, t.pos; }
    if t.kind == Open {
      val, p := ParseExpr(ms, s, t.pos, 1, nest);
      var c := NextToken(ms, s, p, nest);
      if c.kind == Close { p := c.pos; }
      return;
    }
    if t.kind == Plus || t.kind == Minus || t.kind == Tilde || t.kind == Not {
      val, p := ParsePrimary(ms, s, t.pos, nest);
      val := ApplyUnary(t.kind, val);
      return;
    }
    return 0, pos;
  }

  method ParseExpr(ms: seq<Macro>, s: string, pos: nat, min: int, nest: nat) returns (val: int, p: nat)
    requires pos <= |s| && min >= 1
    ensures At(val, p) == Expr(ms, s, pos, min, nest)
    decreases nest, |s| - pos, 2
  {
    hide Next, Primary, Apply;
    val, p := ParsePrimary(ms, s, pos, nest);
    while true
      invariant pos <= p <= |s| && Expr(ms, s, pos, min, nest) == Rest(ms, s, p, val, min, nest)
      decreases |s| - p
    {
      var t := NextToken(ms, s, p, nest);
      var prec := Prec(t.kind);
      if prec < min { return; }
      var right;
      right, p := ParseExpr(ms, s, t.pos, prec + 1, nest);
      val := Apply(val, t.kind, right);
    }
  }

  /** Whether the #if line holds. */
  method IfEval(ms: seq<Macro>, s: string, nest: nat) returns (r: int)
    ensures r == 1 || r == 0
    ensures r == 1 <==> Holds(ms, s, nest)
  {
    if |s| <= 0 { return 0; }
    var val, p := ParseExpr(ms, s, 0, 1, nest);
    r := if val != 0 then 1 else 0;
  }
}
