/** Putting the arguments of a call into the replacement text of a function macro, with
    string operators, pasting and variadic arguments, and what plain parameters become. */
module Substitution {
  import opened IfExpression
  import opened Comments
  import opened DirectiveReader
  import opened MacroCalls
  import E = IfEvaluator
  import I = IfPrinting

  const VA_ARGS: string := "__VA_ARGS__"

  // ----- The pieces -----

  /** What stands for an argument: its expansion, or its text if that is empty. */
  function Used(raw: string, expanded: string): string { if expanded != "" then expanded else raw }

  /** The arguments behind the named ones, from number i on. */
  function Rest(f: FuncMacro, raws: seq<string>, exps: seq<string>, i: nat): string
    requires |raws| == |exps|
    decreases |raws| - i
  {
    if i >= |raws| then "" else (if i > |f.params| then "," else "") + (Used(raws[i], exps[i]) + Rest(f, raws, exps, i + 1))
  }

  /** The first parameter of that name, or the number of parameters. */
  function ParamIndex(params: seq<string>, name: string): (i: nat)
    ensures i <= |params| && (i < |params| ==> params[i] == name)
    ensures forall j :: 0 <= j < i ==> params[j] != name
  {
    if params == [] || params[0] == name then 0 else 1 + ParamIndex(params[1..], name)
  }

  /** A character of a string literal. */
  function Escaped(c: char): string { if c == '\\' || c == '"' then ['\\', c] else [c] }

  function Escape(t: string): string { if t == "" then "" else Escape(t[..|t| - 1]) + Escaped(t[|t| - 1]) }

  function Quoted(t: string): string { "\"" + Escape(t) + "\"" }

  predicate VaAt(t: string, i: nat) { i + 11 <= |t| && t[i..i + 11] == VA_ARGS }

  predicate PasteAt(t: string, i: nat) { i + 1 < |t| && t[i] == '#' && t[i + 1] == '#' }

  /** Behind the comma at i, a paste operator and __VA_ARGS__; 0 if they do not follow. */
  function VaComma(t: string, i: nat): (n: nat)
    requires i < |t|
    ensures n == 0 || i < n <= |t|
  {
    var a := AfterSpaces(t, i + 1);
    if !PasteAt(t, a) then 0
    else
      var b := AfterSpaces(t, a + 2);
      if VaAt(t, b) then b + 11 else 0
  }

  /** Without the spaces at the end. */
  function Cut(t: string): string
  {
    if t != "" && (t[|t| - 1] == ' ' || t[|t| - 1] == '\t') then Cut(t[..|t| - 1]) else t
  }

  /** One step over the replacement text: where it ends, and the text built so far. */
  datatype Step = Step(end: nat, temp: string)

  /** The string operator at i. */
  function QuoteStep(f: FuncMacro, raws: seq<string>, i: nat, temp: string): (r: Step)
    requires i < |f.replacement|
    ensures i < r.end <= |f.replacement|
  {
    var t := f.replacement;
    var a := AfterSpaces(t, i + 1);
    var e := IdEnd(t, a);
    var p := ParamIndex(f.params, t[a..e]);
    Step(e, if e > a && p < |f.params| && p < |raws| then temp + Quoted(raws[p]) else temp)
  }

  /** A name in the replacement text. */
  function NameStep(f: FuncMacro, raws: seq<string>, exps: seq<string>, i: nat, temp: string): (r: Step)
    requires i < |f.replacement| && IsIdChar(f.replacement[i]) && |raws| == |exps|
    ensures i < r.end <= |f.replacement|
  {
    var e := IdEnd(f.replacement, i);
    var name := f.replacement[i..e];
    var p := ParamIndex(f.params, name);
    Step(e, temp + if p < |f.params| && p < |raws| then Used(raws[p], exps[p]) else name)
  }

  function NextStep(f: FuncMacro, raws: seq<string>, exps: seq<string>, i: nat, temp: string): (r: Step)
    requires i < |f.replacement| && |raws| == |exps|
    ensures i < r.end <= |f.replacement|
  {
    var t := f.replacement;
    if t[i] == '"' then Step(StringEnd(t, i + 1), temp + t[i..StringEnd(t, i + 1)])
    else if t[i] == '\'' then Step(CharacterEnd(t, i), temp + t[i..CharacterEnd(t, i)])
    else if f.variadic && t[i] == ',' then
      if VaComma(t, i) == 0 then Step(i + 1, temp + ",")
      else Step(VaComma(t, i), if |raws| == |f.params| then temp else temp + "," + Rest(f, raws, exps, |f.params|))
    else if f.variadic && VaAt(t, i) then Step(i + 11, temp + Rest(f, raws, exps, |f.params|))
    else if t[i] == '#' && i + 1 < |t| && t[i + 1] != '#' then QuoteStep(f, raws, i, temp)
    else if PasteAt(t, i) then Step(AfterSpaces(t, i + 2), Cut(temp))
    else if IsIdChar(t[i]) then NameStep(f, raws, exps, i, temp)
    else Step(i + 1, temp + [t[i]])
  }

  function From(f: FuncMacro, raws: seq<string>, exps: seq<string>, i: nat, temp: string): string
    requires i <= |f.replacement| && |raws| == |exps|
    decreases |f.replacement| - i
  {
    if i == |f.replacement| then temp
    else
      var s := NextStep(f, raws, exps, i, temp);
      From(f, raws, exps, s.end, s.temp)
  }

  /** The replacement text with the arguments in it. */
  function Substituted(f: FuncMacro, raws: seq<string>, exps: seq<string>): string
    requires |raws| == |exps|
  {
    From(f, raws, exps, 0, "")
  }

  // ----- Plain parameters -----

  /** A replacement text without operators: parameters, other names, other characters and
      string literals. */
  datatype Part = Parameter(j: nat) | Word(w: string) | Mark(c: char) | Text(t: string)

  function PartText(params: seq<string>, x: Part): string
  {
    match x
    case Parameter(j) => if j < |params| then params[j] else ""
    case Word(w) => w
    case Mark(c) => [c]
    case Text(t) => t
  }

  function PartsText(params: seq<string>, xs: seq<Part>): string
  {
    if xs == [] then "" else PartText(params, xs[0]) + PartsText(params, xs[1..])
  }

  predicate IsWord(w: string) { w != "" && forall i :: 0 <= i < |w| ==> IsIdChar(w[i]) }

  predicate PartOk(params: seq<string>, x: Part)
  {
    match x
    case Parameter(j) => j < |params|
    case Word(w) => IsWord(w) && w !in params
    case Mark(c) => !IsIdChar(c) && c != '"' && c != '\'' && c != '#'
    case Text(t) => |t| >= 2 && t[0] == '"' && Ends(t, 1)
  }

  predicate IsNamePart(x: Part) { x.Parameter? || x.Word? }

  /** Parameters have different names, and two names do not run into each other. */
  predicate PlainParts(params: seq<string>, xs: seq<Part>)
  {
    && (forall i, j :: 0 <= i < j < |params| ==> params[i] != params[j])
    && (forall i :: 0 <= i < |params| ==> IsWord(params[i]))
    && (forall k :: 0 <= k < |xs| ==> PartOk(params, xs[k]))
    && forall k :: 0 <= k < |xs| - 1 ==> !(IsNamePart(xs[k]) && IsNamePart(xs[k + 1]))
  }

  /** Every parameter that has an argument stands for it. */
  function Filled(params: seq<string>, xs: seq<Part>, vals: seq<string>): string
  {
    if xs == [] then ""
    else (if xs[0].Parameter? && xs[0].j < |vals| then vals[xs[0].j] else PartText(params, xs[0])) + Filled(params, xs[1..], vals)
  }

  function UsedAll(raws: seq<string>, exps: seq<string>): (r: seq<string>)
    requires |raws| == |exps|
    ensures |r| == |raws|
  {
    seq(|raws|, k requires 0 <= k < |raws| => Used(raws[k], exps[k]))
  }

  lemma {:induction false} ParamAt(params: seq<string>, j: nat)
    requires j < |params| && forall i, k :: 0 <= i < k < |params| ==> params[i] != params[k]
    ensures ParamIndex(params, params[j]) == j
  {
    assert forall k :: 0 <= k < j ==> params[k] != params[j];
  }

  /** A word in the text. */
  lemma {:induction false} WordAt(t: string, i: nat, w: string, rest: string)
    requires IsWord(w) && i <= |t| && t[i..] == w + rest && (rest != "" ==> !IsIdChar(rest[0]))
    ensures i + |w| <= |t| && IdEnd(t, i) == i + |w| && t[i..i + |w|] == w && t[i + |w|..] == rest
    ensures t[i] == w[0]
  {
    assert t[i] == t[i..][0];
    I.NameEnds(t, i, w, rest);
  }

  /** A name that does not start like the one for trailing arguments. */
  predicate VaFree(params: seq<string>, x: Part) { IsNamePart(x) ==> !(VA_ARGS <= PartText(params, x)) }

  /** The trailing arguments do not stand where a name does. */
  lemma {:induction false} NotVa(t: string, i: nat, w: string, rest: string)
    requires i <= |t| && t[i..] == w + rest
    ensures VaAt(t, i) ==> VA_ARGS <= w || (rest != "" && IsIdChar(rest[0]))
  {
    if VaAt(t, i) {
      assert t[i..][..11] == VA_ARGS;
      if |w| >= 11 {
        assert w[..11] == (w + rest)[..11] == VA_ARGS;
      } else {
        VaWord(|w|);
        assert VA_ARGS[|w|] == (w + rest)[|w|] == rest[0];
      }
    }
  }

  lemma {:induction false} NoVaHere(t: string, i: nat)
    requires i < |t|
    ensures VaAt(t, i) ==> t[i] == '_'
  {
    if VaAt(t, i) { assert t[i] == t[i..i + 11][0] == VA_ARGS[0]; }
  }

  lemma {:induction false} VaWord(j: nat)
    requires j < 11
    ensures IsIdChar(VA_ARGS[j])
  {
  }

  lemma {:induction false} PartStep(f: FuncMacro, raws: seq<string>, exps: seq<string>, i: nat, temp: string, x: Part, rest: string)
    requires |raws| == |exps| && i <= |f.replacement| && f.replacement[i..] == PartText(f.params, x) + rest
    requires f.variadic ==> VaFree(f.params, x) && (x == Mark(',') && i < |f.replacement| ==> VaComma(f.replacement, i) == 0)
    requires PlainParts(f.params, [x]) && (IsNamePart(x) && rest != "" ==> !IsIdChar(rest[0]))
    ensures i + |PartText(f.params, x)| <= |f.replacement| && f.replacement[i + |PartText(f.params, x)|..] == rest
    ensures i < |f.replacement|
    ensures NextStep(f, raws, exps, i, temp) == Step(i + |PartText(f.params, x)|,
      temp + if x.Parameter? && x.j < |raws| then Used(raws[x.j], exps[x.j]) else PartText(f.params, x))
  {
    hide IdEnd, AfterSpaces, Ends, StringEnd, CharacterEnd, ParamIndex, Used, VaAt, VaComma;
    var t, p := f.replacement, PartText(f.params, x);
    assert PartOk(f.params, x) by { assert [x][0] == x; }
    assert t[i..][|p|..] == rest;
    if IsNamePart(x) { if f.variadic { NotVa(t, i, p, rest); } } else { NoVaHere(t, i); }
    match x
    case Parameter(j) =>
      WordAt(t, i, p, rest);
      ParamAt(f.params, j);
      NameIsWord(p);
    case Word(w) =>
      WordAt(t, i, p, rest);
      NameIsWord(p);
      NotParam(f.params, w);
    case Mark(c) => assert t[i] == t[i..][0] == c;
    case Text(u) =>
      assert t[i] == t[i..][0] == '"';
      assert t[i..i + |u|] == t[i..][..|u|] == u;
      LiteralPassed(t, i, u, 1);
  }

  lemma {:induction false} NameIsWord(w: string)
    requires IsWord(w)
    ensures IsIdChar(w[0]) && w[0] != '"' && w[0] != '\'' && w[0] != '#'
  {
  }

  lemma {:induction false} NotParam(params: seq<string>, w: string)
    requires w !in params
    ensures ParamIndex(params, w) == |params|
  {
  }

  lemma {:induction false} PartsFrom(f: FuncMacro, raws: seq<string>, exps: seq<string>, i: nat, temp: string, xs: seq<Part>)
    requires |raws| == |exps| && !f.variadic && i <= |f.replacement| && f.replacement[i..] == PartsText(f.params, xs)
    requires PlainParts(f.params, xs)
    ensures From(f, raws, exps, i, temp) == temp + Filled(f.params, xs, UsedAll(raws, exps))
    decreases |xs|
  {
    hide NextStep, PartText, PartOk, Used;
    if xs == [] {
      assert f.replacement[i..] == "";
      assert temp + "" == temp;
    } else {
      var x, rest := xs[0], PartsText(f.params, xs[1..]);
      SubParts(f.params, xs);
      if IsNamePart(x) { NextStart(f.params, xs); }
      PartStep(f, raws, exps, i, temp, x, rest);
      var s := NextStep(f, raws, exps, i, temp);
      PartsFrom(f, raws, exps, s.end, s.temp, xs[1..]);
      var v := if x.Parameter? && x.j < |raws| then Used(raws[x.j], exps[x.j]) else PartText(f.params, x);
      assert temp + v + Filled(f.params, xs[1..], UsedAll(raws, exps)) == temp + (v + Filled(f.params, xs[1..], UsedAll(raws, exps)));
    }
  }

  lemma {:induction false} SubParts(params: seq<string>, xs: seq<Part>)
    requires xs != [] && PlainParts(params, xs)
    ensures PlainParts(params, [xs[0]]) && PlainParts(params, xs[1..])
  {
    hide PartOk, IsNamePart, IsWord;
    assert forall k :: 0 <= k < |xs| - 1 ==> xs[1..][k] == xs[k + 1];
    forall k | 0 <= k < |xs[1..]| ensures PartOk(params, xs[1..][k]) { assert xs[1..][k] == xs[k + 1]; }
    forall k | 0 <= k < |xs[1..]| - 1 ensures !(IsNamePart(xs[1..][k]) && IsNamePart(xs[1..][k + 1])) {
      assert xs[1..][k] == xs[k + 1] && xs[1..][k + 1] == xs[k + 2];
    }
  }

  /** What follows a name does not go on with it. */
  lemma {:induction false} NextStart(params: seq<string>, xs: seq<Part>)
    requires xs != [] && PlainParts(params, xs) && IsNamePart(xs[0])
    ensures var rest := PartsText(params, xs[1..]); rest != "" ==> !IsIdChar(rest[0])
  {
    if |xs| > 1 {
      assert !IsNamePart(xs[1]) && PartOk(params, xs[1]);
      var t := PartText(params, xs[1]);
      assert xs[1..][0] == xs[1];
      assert PartsText(params, xs[1..])[0] == t[0];
    }
  }

  /** A replacement text without operators becomes the text with each parameter replaced by
      its argument, expanded. */
  lemma {:induction false} PlainSubstituted(f: FuncMacro, raws: seq<string>, exps: seq<string>, xs: seq<Part>)
    requires |raws| == |exps| && !f.variadic && f.replacement == PartsText(f.params, xs) && PlainParts(f.params, xs)
    ensures Substituted(f, raws, exps) == Filled(f.params, xs, UsedAll(raws, exps))
  {
    hide From, PartsText, Filled;
    assert f.replacement[0..] == f.replacement;
    PartsFrom(f, raws, exps, 0, "", xs);
    assert "" + Filled(f.params, xs, UsedAll(raws, exps)) == Filled(f.params, xs, UsedAll(raws, exps));
  }

  // ----- The program -----

  lemma {:induction false} RestFirst(f: FuncMacro, raws: seq<string>, exps: seq<string>, i: nat)
    requires |raws| == |exps| && i < |raws|
    ensures Rest(f, raws, exps, i) == (if i > |f.params| then "," else "") + (Used(raws[i], exps[i]) + Rest(f, raws, exps, i + 1))
  {
  }

  lemma {:induction false} Joins(r: string, a: string, b: string, c: string)
    ensures r + (a + (b + c)) == r + a + b + c
  {
  }

  /** Variadic arguments with commas between them. */
  method VariadicText(f: FuncMacro, raws: seq<string>, exps: seq<string>) returns (r: string)
    requires |raws| == |exps|
    ensures r == Rest(f, raws, exps, |f.params|)
  {
    hide Rest;
    r := "";
    var i := |f.params|;
    assert "" + Rest(f, raws, exps, i) == Rest(f, raws, exps, i);
    while i < |raws|
      invariant r + Rest(f, raws, exps, i) == Rest(f, raws, exps, |f.params|)
      decreases |raws| - i
    {
      RestFirst(f, raws, exps, i);
      Joins(r, if i > |f.params| then "," else "", Used(raws[i], exps[i]), Rest(f, raws, exps, i + 1));
      if i > |f.params| { r := r + ","; } else { r := r + ""; }
      r := r + if exps[i] != "" then exps[i] else raws[i];
      i := i + 1;
    }
    NoRest(f, raws, exps, i);
    assert r + "" == r;
  }

  lemma {:induction false} NoRest(f: FuncMacro, raws: seq<string>, exps: seq<string>, i: nat)
    requires |raws| == |exps| && i >= |raws|
    ensures Rest(f, raws, exps, i) == ""
  {
  }

  method FindParam(params: seq<string>, name: string) returns (i: nat)
    ensures i == ParamIndex(params, name)
  {
    i := 0;
    while i < |params|
      invariant i <= |params| && forall j :: 0 <= j < i ==> params[j] != name
    {
      if params[i] == name { return; }
      i := i + 1;
    }
  }

  method QuoteText(t: string) returns (r: string)
    ensures r == Quoted(t)
  {
    r := "\"";
    var i := 0;
    while i < |t|
      invariant i <= |t| && r == "\"" + Escape(t[..i])
    {
      assert t[..i + 1][..i] == t[..i];
      if t[i] == '\\' || t[i] == '"' { r := r + ['\\', t[i]]; } else { r := r + [t[i]]; }
      i := i + 1;
    }
    assert t[..i] == t;
    r := r + "\"";
  }

  method SkipSpaces(t: string, i: nat) returns (p: nat)
    requires i <= |t|
    ensures p == AfterSpaces(t, i)
  {
    p := i;
    while p < |t| && (t[p] == ' ' || t[p] == '\t')
      invariant i <= p <= |t| && AfterSpaces(t, p) == AfterSpaces(t, i)
    {
      p := p + 1;
    }
  }

  method CutSpaces(t: string) returns (r: string)
    ensures r == Cut(t)
  {
    r := t;
    while r != "" && (r[|r| - 1] == ' ' || r[|r| - 1] == '\t')
      invariant Cut(r) == Cut(t)
      decreases |r|
    {
      r := r[..|r| - 1];
    }
  }

  method FindVaComma(t: string, i: nat) returns (n: nat)
    requires i < |t|
    ensures n == VaComma(t, i)
  {
    var a := SkipSpaces(t, i + 1);
    n := 0;
    if a + 1 < |t| && t[a] == '#' && t[a + 1] == '#' {
      var b := SkipSpaces(t, a + 2);
      if b + 11 <= |t| && t[b..b + 11] == VA_ARGS { n := b + 11; }
    }
  }

  /** A comma of a variadic macro, and what may follow it. */
  method PutComma(f: FuncMacro, raws: seq<string>, exps: seq<string>, i: nat, temp: string) returns (r: Step)
    requires |raws| == |exps| && i < |f.replacement| && f.variadic && f.replacement[i] == ','
    ensures r == NextStep(f, raws, exps, i, temp)
  {
    hide VaComma, Rest;
    var n := FindVaComma(f.replacement, i);
    if n == 0 { return Step(i + 1, temp + ","); }
    if |raws| == |f.params| { return Step(n, temp); }
    var v := VariadicText(f, raws, exps);
    r := Step(n, temp + "," + v);
  }

  /** The string operator: the argument as it was written. */
  method PutQuoted(f: FuncMacro, raws: seq<string>, i: nat, temp: string) returns (r: Step)
    requires i < |f.replacement|
    ensures r == QuoteStep(f, raws, i, temp)
  {
    hide AfterSpaces, IdEnd, Quoted, ParamIndex;
    var t := f.replacement;
    var a := SkipSpaces(t, i + 1);
    var e := E.EndOfName(t, a);
    r := Step(e, temp);
    if e > a {
      var p := FindParam(f.params, t[a..e]);
      if p < |f.params| && p < |raws| {
        var q := QuoteText(raws[p]);
        r := Step(e, temp + q);
      }
    }
  }

  /** A parameter stands for its expanded argument; another name stays. */
  method PutName(f: FuncMacro, raws: seq<string>, exps: seq<string>, i: nat, temp: string) returns (r: Step)
    requires |raws| == |exps| && i < |f.replacement| && IsIdChar(f.replacement[i])
    ensures r == NameStep(f, raws, exps, i, temp)
  {
    hide IdEnd, ParamIndex;
    var t := f.replacement;
    var e := E.EndOfName(t, i);
    var p := FindParam(f.params, t[i..e]);
    if p < |f.params| && p < |raws| {
      r := Step(e, temp + if exps[p] != "" then exps[p] else raws[p]);
    } else {
      r := Step(e, temp + t[i..e]);
    }
  }

  /** A literal, a comma, an operator, a name or another character. */
  method PutNext(f: FuncMacro, raws: seq<string>, exps: seq<string>, i: nat, temp: string) returns (r: Step)
    requires |raws| == |exps| && i < |f.replacement|
    ensures r == NextStep(f, raws, exps, i, temp)
  {
    hide QuoteStep, NameStep, VaComma, Rest, AfterSpaces, Cut, StringEnd, CharacterEnd, IsIdChar;
    var t := f.replacement;
    if t[i] == '"' {
      var e := PastString(t, i);
      r := Step(e, temp + t[i..e]);
    } else if t[i] == '\'' {
      var e := PastCharacter(t, i);
      r := Step(e, temp + t[i..e]);
    } else if f.variadic && t[i] == ',' {
      r := PutComma(f, raws, exps, i, temp);
    } else if f.variadic && i + 11 <= |t| && t[i..i + 11] == VA_ARGS {
      var v := VariadicText(f, raws, exps);
      r := Step(i + 11, temp + v);
    } else if t[i] == '#' && i + 1 < |t| && t[i + 1] != '#' {
      r := PutQuoted(f, raws, i, temp);
    } else if i + 1 < |t| && t[i] == '#' && t[i + 1] == '#' {
      var cut := CutSpaces(temp);
      var e := SkipSpaces(t, i + 2);
      r := Step(e, cut);
    } else if IsIdChar(t[i]) {
      r := PutName(f, raws, exps, i, temp);
    } else {
      r := Step(i + 1, temp + [t[i]]);
    }
  }

  /** The replacement text, piece by piece. */
  method Substitute(f: FuncMacro, raws: seq<string>, exps: seq<string>) returns (temp: string)
    requires |raws| == |exps|
    ensures temp == Substituted(f, raws, exps)
  {
    hide NextStep;
    temp := "";
    var i := 0;
    while i < |f.replacement|
      invariant i <= |f.replacement| && From(f, raws, exps, i, temp) == Substituted(f, raws, exps)
    {
      var s := PutNext(f, raws, exps, i, temp);
      i, temp := s.end, s.temp;
    }
  }
}
