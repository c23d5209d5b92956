/** What the scanner of the preprocessor makes of a text, with its directive lines, object
    macros and calls of function macros, and the theorem that a printed text with
    conditionals reads as its lines. */
module Directives {
  import opened IfExpression
  import opened Conditionals
  import opened DirectiveReader
  import opened Texts
  import I = IfPrinting
  import C = Comments
  import M = MacroCalls
  import S = Substitution

  const MAX_NESTING: nat := 32

  // ----- Directive lines -----

  predicate StartsWith(s: string, i: nat, le: nat, word: string)
    requires i <= le <= |s|
  {
    i + |word| <= le && s[i..i + |word|] == word
  }

  predicate IsSpace(c: char) { c == ' ' || c == '\t' }

  function PastSpaces(s: string, i: nat, le: nat): (p: nat)
    requires i <= le <= |s|
    ensures i <= p <= le
    decreases le - i
  {
    if i < le && IsSpace(s[i]) then PastSpaces(s, i + 1, le) else i
  }

  /** Whether s[cw..le], which is neither an else nor an endif, opens a conditional. */
  predicate Opens(s: string, cw: nat, le: nat)
    requires cw <= le <= |s|
  {
    StartsWith(s, cw, le, "if") && cw + 3 <= le
  }

  /** The test of a line that opens a conditional. */
  function TestOf(s: string, cw: nat, le: nat): Test
    requires cw + 2 <= le <= |s|
  {
    if StartsWith(s, cw, le, "ifdef") && cw + 6 <= le then IfDef(NameAt(s, cw + 5, le))
    else if StartsWith(s, cw, le, "ifndef") && cw + 7 <= le then IfNDef(NameAt(s, cw + 6, le))
    else If(s[SkipBlanks(s[..le], cw + 2)..le])
  }

  /** The name behind spaces, or the empty string. */
  function NameAt(s: string, i: nat, le: nat): string
    requires i <= le <= |s|
  {
    var at := PastSpaces(s, i, le);
    s[at..IdEnd(s[..le], at)]
  }

  /** A printed directive reads as its test, whatever the spaces and whatever follows. */
  lemma {:induction false} NameReads(s: string, i: nat, le: nat, gap: string, name: string, rest: string)
    requires i <= le <= |s| && s[i..le] == gap + (name + rest) && (forall k :: 0 <= k < |gap| ==> IsSpace(gap[k]))
    requires I.IsName(name) && (rest != "" ==> !IsIdChar(rest[0]))
    ensures NameAt(s, i, le) == name
    decreases |gap|
  {
    hide IdEnd;
    if gap == "" {
      assert s[i..le] == name + rest && s[i] == (name + rest)[0] == name[0];
      assert PastSpaces(s, i, le) == i;
      assert s[..le][i..] == s[i..le];
      I.NameEnds(s[..le], i, name, rest);
    } else {
      assert s[i] == s[i..le][0] == gap[0];
      assert s[i + 1..le] == s[i..le][1..] == gap[1..] + (name + rest);
      NameReads(s, i + 1, le, gap[1..], name, rest);
    }
  }

  lemma {:induction false} IfDefReads(s: string, cw: nat, le: nat, negated: bool, gap: string, name: string, rest: string)
    requires cw <= le <= |s| && s[cw..le] == (if negated then "ifndef" else "ifdef") + (gap + (name + rest))
    requires gap != "" && (forall k :: 0 <= k < |gap| ==> IsSpace(gap[k]))
    requires I.IsName(name) && (rest != "" ==> !IsIdChar(rest[0]))
    ensures Opens(s, cw, le) && TestOf(s, cw, le) == if negated then IfNDef(name) else IfDef(name)
  {
    hide NameAt;
    var word := if negated then "ifndef" else "ifdef";
    var t, tail := s[cw..le], gap + (name + rest);
    assert t[..|word|] == word && t[|word|..] == tail;
    assert s[cw..cw + |word|] == t[..|word|];
    assert s[cw + |word|..le] == t[|word|..];
    NameReads(s, cw + |word|, le, gap, name, rest);
    assert word[..2] == "if" && s[cw..cw + 2] == "if";
    if negated { assert s[cw..cw + 5] == word[..5] == "ifnde"; }
  }

  /** The end of a directive: a newline that is not continued. */
  function DirectiveEnd(s: string, i: nat): (le: nat)
    requires i <= |s|
    ensures i <= le <= |s| && (i < |s| && s[i] != '\n' ==> i < le)
    decreases |s| - i
  {
    if i >= |s| || s[i] == '\n' then i
    else if s[i] == '\\' then
      var nl := if i + 1 < |s| && s[i + 1] == '\r' then i + 2 else i + 1;
      DirectiveEnd(s, if nl < |s| && s[nl] == '\n' then nl + 1 else i + 1)
    else DirectiveEnd(s, i + 1)
  }

  /** Behind the newline at le, if there is one. */
  function BehindLine(s: string, le: nat): (i: nat)
    requires le <= |s|
    ensures le <= i <= |s|
  {
    if le < |s| && s[le] == '\n' then le + 1 else le
  }

  /** Behind the next newline. */
  function NextLine(s: string, i: nat): (j: nat)
    requires i < |s|
    ensures i < j <= |s|
    decreases |s| - i
  {
    if s[i] == '\n' || i + 1 == |s| then i + 1 else NextLine(s, i + 1)
  }

  /** Only blanks stand before position i on its line. */
  predicate AtLineStart(s: string, i: nat)
    requires i <= |s|
  {
    if i > 0 && IsSpace(s[i - 1]) then AtLineStart(s, i - 1) else i == 0 || s[i - 1] == '\n' || s[i - 1] == '\r'
  }

  // ----- Scanning -----

  const MAX_STACK: nat := 256
  const MAX_INCLUDE: nat := 32

  /** The function macros, how deep macros may nest in #if, the numbers of the function
      macros that are being expanded, the files that can be included, and the line. */
  datatype Setting = Setting(funcs: seq<FuncMacro>, nest: nat, stack: seq<nat>, files: map<string, string>, line: nat)

  /** One pass of the scanner: the position behind it, what it defines and emits; Beyond
      if the program ends with an error. */
  datatype Pass = Pass(i: nat, known: Setting, macros: seq<Macro>, cond: Cond, out: string) | Beyond

  /** A text of its own starts at line 1. */
  function Fresh(k: Setting): Setting { k.(line := 1) }

  /** Behind s[..i] the next line begins if that ends with a newline. */
  function Counting(k: Setting, s: string, i: nat): Setting
    requires 0 < i <= |s|
  {
    if s[i - 1] == '\n' then k.(line := k.line + 1) else k
  }

  /** One line further down. */
  function Below(k: Setting): Setting { k.(line := k.line + 1) }

  /** A number in decimal. */
  function Decimal(n: nat): string
  {
    if n < 10 then [(n as char + '0')] else Decimal(n / 10) + [(n % 10) as char + '0']
  }

  /** The first function macro of that name, or their number. */
  function FunctionIndex(funcs: seq<FuncMacro>, name: string): (fi: nat)
    ensures fi <= |funcs| && (fi < |funcs| ==> funcs[fi].name == name)
    ensures forall j :: 0 <= j < fi ==> funcs[j].name != name
  {
    if funcs == [] || funcs[0].name == name then 0 else 1 + FunctionIndex(funcs[1..], name)
  }

  /** A directive whose # is at i. */
  function DirectivePass(k: Setting, s: string, i: nat, ms: seq<Macro>, c: Cond, depth: nat): (r: Pass)
    requires i < |s| && s[i] == '#'
    ensures r.Pass? ==> i < r.i <= |s|
    decreases Levels(depth), |s| - i, 0
  {
    var le := DirectiveEnd(s, i);
    var cw, next := PastSpaces(s, i + 1, le), BehindLine(s, le);
    var k1 := Counting(k, s, next);
    if StartsWith(s, cw, le, "else") then Pass(next, k1, ms, OnElse(c), "")
    else if StartsWith(s, cw, le, "endif") then Pass(next, k1, ms, OnEndif(c), "")
    else if Opens(s, cw, le) then
      if |c.emit| >= MAX_NESTING then Beyond
      else Pass(next, k1, ms, OnIf(c, Chosen(ms, TestOf(s, cw, le), c.skip > 0, k.nest)), "")
    else if c.skip > 0 then Pass(next, k1, ms, c, "")
    else match ActPass(Fresh(k), ReadDirective(s[i..le]), ms, c, depth)
      case Beyond => Beyond
      case Pass(_, k2, ms2, c2, o) => Pass(next, k1.(funcs := k2.funcs), ms2, c2, o)
  }

  /** What a directive other than a conditional does. */
  function ActPass(k: Setting, d: Directive, ms: seq<Macro>, c: Cond, depth: nat): Pass
    decreases Levels(depth), 0, 6
  {
    match d
    case DefineObject(m) => Pass(0, k, ms + [m], c, "")
    case DefineFunction(f) => Pass(0, k.(funcs := k.funcs + [f]), ms, c, "")
    case Remove(n) => Pass(0, k, Undefined(ms, n, 0), c, "")
    case Include(name) => IncludePass(k, name, ms, c, depth)
    case TooMany => Beyond
    case Endless => Beyond
    case _ => Pass(0, k, ms, c, "")
  }

  /** An included file is scanned without its comments, one level deeper; nothing is
      included below level 32, and a file that is not there adds nothing. */
  function IncludePass(k: Setting, name: string, ms: seq<Macro>, c: Cond, depth: nat): Pass
    decreases Levels(depth), 0, 5
  {
    if name in k.files && depth < MAX_INCLUDE then Scan(k, C.Stripped(k.files[name]), 0, ms, c, depth + 1)
    else Pass(0, k, ms, c, "")
  }

  /** The expanded arguments, and the state behind them. */
  datatype Expanded = Texts(texts: seq<string>, funcs: seq<FuncMacro>, macros: seq<Macro>, cond: Cond) | NoTexts

  /** Each argument is scanned by itself, one level deeper. */
  function ArgumentsPass(k: Setting, texts: seq<string>, ms: seq<Macro>, c: Cond, depth: nat, bound: nat): (r: Expanded)
    requires forall t :: t in texts ==> |t| < bound
    ensures r.Texts? ==> |r.texts| == |texts|
    decreases Levels(depth), bound, 3, |texts|
  {
    if texts == [] then Expanded.Texts([], k.funcs, ms, c)
    else match Scan(k, texts[0], 0, ms, c, depth + 1)
      case Beyond => NoTexts
      case Pass(_, k1, ms1, c1, o) => (
        match ArgumentsPass(k.(funcs := k1.funcs), texts[1..], ms1, c1, depth, bound)
        case NoTexts => NoTexts
        case Texts(os, fs2, ms2, c2) => Expanded.Texts([o] + os, fs2, ms2, c2))
  }

  /** A call of function macro fi whose opening parenthesis is at open: the arguments are
      expanded and put into the replacement text, which is scanned in turn, both while fi
      is on the stack. */
  function CallPass(k: Setting, s: string, open: nat, fi: nat, ms: seq<Macro>, c: Cond, depth: nat): (r: Pass)
    requires open < |s| && fi < |k.funcs|
    ensures r.Pass? ==> open <= r.i <= |s|
    decreases Levels(depth), |s| - open, 4
  {
    match M.Split(s, open + 1, 1, open + 1, [])
    case TooMany => Beyond
    case Unclosed => Pass(open, k, ms, c, "")
    case Args(spans, close) =>
      M.SplitInside(s, open + 1, 1, open + 1, [], open + 1);
      ExpandPass(k, s, open, M.ArgumentTexts(s, spans, open + 1, close), close, fi, ms, c, depth)
  }

  /** The arguments of a call and what it stands for. */
  function ExpandPass(k: Setting, s: string, open: nat, raws: seq<string>, close: nat, fi: nat, ms: seq<Macro>, c: Cond,
                      depth: nat): (r: Pass)
    requires open < close < |s| && fi < |k.funcs| && forall t :: t in raws ==> |t| < |s| - open
    ensures r.Pass? ==> close < r.i <= |s|
    decreases Levels(depth), |s| - open, 3, |raws| + 1
  {
    var inner := Fresh(k.(stack := k.stack + [fi]));
    if |k.stack| >= MAX_STACK then Beyond
    else match ArgumentsPass(inner, raws, ms, c, depth, |s| - open)
      case NoTexts => Beyond
      case Texts(exps, fs1, ms1, c1) =>
        var temp := S.Substituted(k.funcs[fi], raws, exps);
        if temp == "" || depth >= MAX_LEVEL then Pass(close + 1, k.(funcs := fs1), ms1, c1, temp)
        else match Scan(inner.(funcs := fs1), temp, 0, ms1, c1, depth + 1)
          case Beyond => Beyond
          case Pass(_, k2, ms2, c2, o) => FollowPass(k.(funcs := k2.funcs), s, close, o, ms2, c2, depth)
  }

  /** Where the argument list ends that makes a call of the text in front of it: behind the
      closing parenthesis, or 0 if the text is not the name of another function macro. */
  function FollowEnd(k: Setting, s: string, close: nat, result: string): (e: nat)
    requires close < |s|
    ensures e == 0 || close + 1 < e <= |s|
  {
    var at := SkipBlanks(result, 0);
    var end := IdEnd(result, at);
    var fi := FunctionIndex(k.funcs, result[at..end]);
    if end > at && close + 1 < |s| && s[close + 1] == '(' && fi < |k.funcs| && fi !in k.stack
      && M.CloseOf(s, close + 2, 1) < |s| then M.CloseOf(s, close + 2, 1) + 1
    else 0
  }

  /** The scanned replacement goes out, or is scanned once more with the argument list that
      follows the call. */
  function FollowPass(k: Setting, s: string, close: nat, result: string, ms: seq<Macro>, c: Cond, depth: nat): (r: Pass)
    requires close < |s| && depth < MAX_LEVEL
    ensures r.Pass? ==> close < r.i <= |s|
    decreases Levels(depth), |s| - close, 4
  {
    var e := FollowEnd(k, s, close, result);
    if e == 0 then Pass(close + 1, k, ms, c, result)
    else match Scan(Fresh(k), result + s[close + 1..e], 0, ms, c, depth + 1)
      case Beyond => Beyond
      case Pass(_, k1, ms1, c1, o) => Pass(e, k.(funcs := k1.funcs), ms1, c1, o)
  }

  /** A name: the line number; an object macro, replaced by what its value scans to, one
      level deeper; a call of a function macro that is not being expanded; or itself. */
  function NamePass(k: Setting, s: string, i: nat, ms: seq<Macro>, c: Cond, depth: nat): (r: Pass)
    requires i < |s| && IsLetter(s[i])
    ensures r.Pass? ==> i < r.i <= |s|
    decreases Levels(depth), |s| - i, 0
  {
    var e := IdEnd(s, i);
    var name := s[i..e];
    if name == "__LINE__" then Pass(e, k, ms, c, Decimal(k.line))
    else match Lookup(ms, name)
      case Missing =>
        var fi := FunctionIndex(k.funcs, name);
        if e < |s| && s[e] == '(' && fi < |k.funcs| && fi !in k.stack then CallPass(k, s, e, fi, ms, c, depth)
        else Pass(e, k, ms, c, name)
      case Has(text) =>
        if text == "" || depth >= MAX_LEVEL then Pass(e, k, ms, c, text)
        else match Scan(Fresh(k), text, 0, ms, c, depth + 1)
          case Beyond => Beyond
          case Pass(_, k1, ms1, c1, o) => Pass(e, k.(funcs := k1.funcs), ms1, c1, o)
  }

  function OnePass(k: Setting, s: string, i: nat, ms: seq<Macro>, c: Cond, depth: nat): (r: Pass)
    requires i < |s|
    ensures r.Pass? ==> i < r.i <= |s|
    decreases Levels(depth), |s| - i, 1
  {
    if c.skip > 0 && s[i] != '#' then Pass(NextLine(s, i), Counting(k, s, NextLine(s, i)), ms, c, "")
    else if s[i] == '#' && AtLineStart(s, i) then DirectivePass(k, s, i, ms, c, depth)
    else if s[i] == '"' then Pass(C.StringEnd(s, i + 1), k, ms, c, s[i..C.StringEnd(s, i + 1)])
    else if IsLetter(s[i]) then NamePass(k, s, i, ms, c, depth)
    else Pass(i + 1, Counting(k, s, i + 1), ms, c, if s[i] == '\r' then "" else [s[i]])
  }

  /** All passes from position i on. */
  function Scan(k: Setting, s: string, i: nat, ms: seq<Macro>, c: Cond, depth: nat): Pass
    requires i <= |s|
    decreases Levels(depth), |s| - i, 2
  {
    if i == |s| then Pass(i, k, ms, c, "")
    else match OnePass(k, s, i, ms, c, depth)
      case Beyond => Beyond
      case Pass(j, k1, ms1, c1, o1) => (
        match Scan(k1, s, j, ms1, c1, depth)
        case Beyond => Beyond
        case Pass(e, k2, ms2, c2, o2) => Pass(e, k2, ms2, c2, o1 + o2))
  }

  // ----- Printed lines -----

  function LineText(l: Line): string
  {
    match l
    case Text(t) => t
    case Define(n, v) => "#define " + (n + " " + v)
    case Undef(n) => "#undef " + n
    case IfLine(IfDef(n)) => "#ifdef " + n
    case IfLine(IfNDef(n)) => "#ifndef " + n
    case IfLine(If(e)) => "#if " + e
    case ElseLine => "#else"
    case EndifLine => "#endif"
  }

  function Printed(ls: seq<Line>): string
  {
    if ls == [] then "" else LineText(ls[0]) + "\n" + Printed(ls[1..])
  }

  /** Emitted text lines. */
  function Shown(ts: seq<string>): string
  {
    if ts == [] then "" else Shown(ts[..|ts| - 1]) + ts[|ts| - 1] + "\n"
  }

  /** Text of one line without strings and without the banned names. */
  predicate Clean(t: string, banned: set<string>)
    decreases |t|
  {
    if t == "" then true
    else
      (if IsLetter(t[0]) then t[..FirstPiece(t)] !in banned else t[0] !in ['#', '"', '\n', '\r'])
      && Clean(t[FirstPiece(t)..], banned)
  }

  predicate GoodLine(l: Line, banned: set<string>)
  {
    match l
    case Text(t) => Clean(t, banned)
    case Define(n, v) => I.IsName(n) && OneLine(v) && GoodValue(v) && Clean(v, banned)
    case Undef(n) => I.IsName(n) && |n| <= MAX_NAME
    case IfLine(IfDef(n)) => I.IsName(n)
    case IfLine(IfNDef(n)) => I.IsName(n)
    case IfLine(If(e)) => OneLine(e) && (e != "" ==> !IsBlank(e[0]))
    case _ => true
  }

  /** The conditionals of ls never nest more than the limit, from depth d on. */
  predicate Nests(ls: seq<Line>, d: nat)
    decreases |ls|
  {
    if ls == [] then true
    else match ls[0]
      case IfLine(_) => d < MAX_NESTING && Nests(ls[1..], d + 1)
      case EndifLine => Nests(ls[1..], if d > 0 then d - 1 else 0)
      case _ => Nests(ls[1..], d)
  }

  /** The names of function macros that are not being expanded are banned, and the values
      of object macros are clean. */
  ghost predicate Knows(k: Setting, ms: seq<Macro>, banned: set<string>)
  {
    && "__LINE__" in banned
    && (forall n :: FunctionIndex(k.funcs, n) < |k.funcs| && FunctionIndex(k.funcs, n) !in k.stack ==> n in banned)
    && forall m :: m in ms && m.name !in banned ==> Clean(m.text, banned)
  }

  lemma {:induction false} KnowsFresh(k: Setting, ms: seq<Macro>, banned: set<string>)
    requires Knows(k, ms, banned)
    ensures Knows(Fresh(k), ms, banned) && Knows(Below(k), ms, banned)
  {
    hide Clean;
  }

  /** A name at the end of a text does not go on behind it. */
  predicate Breaks(t: string, rest: string) { t == "" || rest == "" || !IsIdChar(t[|t| - 1]) || !IsIdChar(rest[0]) }

  // ----- Reading what was printed -----

  function With(o: string, r: Pass): Pass { if r.Pass? then r.(out := o + r.out) else Beyond }

  lemma {:induction false} ScanStep(k: Setting, s: string, i: nat, ms: seq<Macro>, c: Cond, depth: nat)
    requires i < |s| && OnePass(k, s, i, ms, c, depth).Pass?
    ensures var p := OnePass(k, s, i, ms, c, depth); Scan(k, s, i, ms, c, depth) == With(p.out, Scan(p.known, s, p.i, p.macros, p.cond, depth))
  {
    hide OnePass;
  }

  lemma {:induction false} WithTwice(a: string, b: string, r: Pass)
    ensures With(a, With(b, r)) == With(a + b, r)
  {
    if r.Pass? { assert a + (b + r.out) == a + b + r.out; }
  }

  lemma {:induction false} WithNothing(r: Pass)
    ensures With("", r) == r
  {
    if r.Pass? { assert "" + r.out == r.out; }
  }

  lemma {:induction false} NothingScanned(r: Pass)
    ensures r == With("", r)
  {
    WithNothing(r);
  }

  /** The next pass of a scan that has emitted done. */
  lemma {:induction false} PassFirst(k: Setting, s: string, i: nat, ms: seq<Macro>, c: Cond, done: string, depth: nat)
    requires i < |s|
    ensures var p := OnePass(k, s, i, ms, c, depth);
      With(done, Scan(k, s, i, ms, c, depth)) ==
        if p.Beyond? then Beyond else With(done + p.out, Scan(p.known, s, p.i, p.macros, p.cond, depth))
  {
    hide OnePass;
    var p := OnePass(k, s, i, ms, c, depth);
    if p.Pass? {
      ScanStep(k, s, i, ms, c, depth);
      WithTwice(done, p.out, Scan(p.known, s, p.i, p.macros, p.cond, depth));
    }
  }

  lemma {:induction false} SkippedPass(k: Setting, s: string, i: nat, ms: seq<Macro>, c: Cond, depth: nat)
    requires i < |s| && c.skip > 0 && s[i] != '#'
    ensures OnePass(k, s, i, ms, c, depth) == Pass(NextLine(s, i), Counting(k, s, NextLine(s, i)), ms, c, "")
  {
  }

  lemma {:induction false} HashPass(k: Setting, s: string, i: nat, ms: seq<Macro>, c: Cond, depth: nat)
    requires i < |s| && s[i] == '#' && AtLineStart(s, i)
    ensures OnePass(k, s, i, ms, c, depth) == DirectivePass(k, s, i, ms, c, depth)
  {
    hide DirectivePass, AtLineStart;
  }

  /** The characters of a name. */
  lemma {:induction false} NameChars(t: string, i: nat)
    requires i <= |t|
    ensures forall j :: i <= j < IdEnd(t, i) ==> IsIdChar(t[j])
    decreases |t| - i
  {
    if i < |t| && IsIdChar(t[i]) { NameChars(t, i + 1); }
  }

  /** Clean text is emitted with its object macros expanded. */
  lemma {:induction false} CleanScan(k: Setting, s: string, i: nat, t: string, rest: string, ms: seq<Macro>, c: Cond,
                                     banned: set<string>, depth: nat)
    requires i <= |s| && s[i..] == t + rest && Breaks(t, rest)
    requires Clean(t, banned) && Knows(k, ms, banned) && c.skip == 0
    ensures i + |t| <= |s| && Scan(k, s, i, ms, c, depth) == With(Expand(ms, t, depth), Scan(k, s, i + |t|, ms, c, depth))
    decreases Levels(depth), |t|
  {
    hide OnePass, Clean, Knows, Scan, Expand, Lookup;
    Past(s, i, t, rest);
    if t == "" {
      ExpandNothing(ms, depth);
      WithNothing(Scan(k, s, i, ms, c, depth));
    } else {
      var e := FirstPiece(t);
      var a, b := t[..e], t[e..];
      var r := if IsLetter(t[0]) then Lookup(ms, a) else Missing;
      CleanPieces(t, banned);
      if r.Has? { ValueClean(k, ms, a, banned); }
      if r.Has? && r.text != "" && depth < MAX_LEVEL {
        assert r.text[0..] == r.text + "";
        KnowsFresh(k, ms, banned);
        CleanScan(Fresh(k), r.text, 0, r.text, "", ms, c, banned, depth + 1);
        ScanEnds(Fresh(k), r.text, ms, c, depth + 1);
      }
      BreaksOn(t, rest);
      FirstPass(k, s, i, t, rest, ms, c, banned, depth);
      ScanStep(k, s, i, ms, c, depth);
      Regrouped(a, b, rest);
      Past(s, i, a, b + rest);
      CleanScan(k, s, i + e, b, rest, ms, c, banned, depth);
      ExpandNext(ms, t, depth);
      WithTwice(PieceOut(ms, t, depth), Expand(ms, b, depth), Scan(k, s, i + |t|, ms, c, depth));
    }
  }

  /** Behind the first piece. */
  lemma {:induction false} BreaksOn(t: string, rest: string)
    requires t != "" && Breaks(t, rest)
    ensures Breaks(t[FirstPiece(t)..], rest)
    ensures IsLetter(t[0]) && FirstPiece(t) == |t| && rest != "" ==> !IsIdChar(rest[0])
  {
    var b := t[FirstPiece(t)..];
    if b != "" { assert b[|b| - 1] == t[|t| - 1]; }
    if IsLetter(t[0]) && FirstPiece(t) == |t| { NameChars(t, 0); }
  }

  /** What the first piece of a text becomes. */
  function PieceOut(ms: seq<Macro>, t: string, depth: nat): string
    requires t != ""
  {
    var e := FirstPiece(t);
    match if IsLetter(t[0]) then Lookup(ms, t[..e]) else Missing
    case Missing => t[..e]
    case Has(text) => if depth >= MAX_LEVEL then text else Expand(ms, text, depth + 1)
  }

  lemma {:induction false} ExpandNothing(ms: seq<Macro>, depth: nat)
    ensures Expand(ms, "", depth) == ""
  {
  }

  lemma {:induction false} ExpandNext(ms: seq<Macro>, t: string, depth: nat)
    requires t != ""
    ensures Expand(ms, t, depth) == PieceOut(ms, t, depth) + Expand(ms, t[FirstPiece(t)..], depth)
  {
    hide FirstPiece, Lookup;
  }

  lemma {:induction false} CleanPieces(t: string, banned: set<string>)
    requires t != "" && Clean(t, banned)
    ensures Clean(t[FirstPiece(t)..], banned)
    ensures if IsLetter(t[0]) then t[..FirstPiece(t)] !in banned else t[0] !in ['#', '"', '\n', '\r']
  {
  }

  lemma {:induction false} ValueClean(k: Setting, ms: seq<Macro>, name: string, banned: set<string>)
    requires Knows(k, ms, banned) && name !in banned
    ensures Lookup(ms, name).Has? ==> Clean(Lookup(ms, name).text, banned)
    decreases |ms|
  {
    hide Clean;
    if ms != [] && ms[0].name != name {
      assert forall m :: m in ms[1..] ==> m in ms;
      ValueClean(k, ms[1..], name, banned);
    }
  }

  lemma {:induction false} ScanEnds(k: Setting, s: string, ms: seq<Macro>, c: Cond, depth: nat)
    ensures Scan(k, s, |s|, ms, c, depth) == Pass(|s|, k, ms, c, "")
  {
  }

  lemma {:induction false} Regrouped(a: string, b: string, c: string)
    ensures a + b + c == a + (b + c)
  {
  }

  /** The pass over the first piece of clean text. */
  lemma {:induction false} FirstPass(k: Setting, s: string, i: nat, t: string, rest: string, ms: seq<Macro>, c: Cond,
                                     banned: set<string>, depth: nat)
    requires t != "" && i < |s| && s[i..] == t + rest && Breaks(t, rest)
    requires Clean(t, banned) && Knows(k, ms, banned) && c.skip == 0
    requires var r := if IsLetter(t[0]) then Lookup(ms, t[..FirstPiece(t)]) else Missing;
      r.Has? && r.text != "" && depth < MAX_LEVEL ==>
        Scan(Fresh(k), r.text, 0, ms, c, depth + 1) == With(Expand(ms, r.text, depth + 1), Pass(|r.text|, Fresh(k), ms, c, ""))
    ensures OnePass(k, s, i, ms, c, depth) == Pass(i + FirstPiece(t), k, ms, c, PieceOut(ms, t, depth))
  {
    hide Scan, Expand, Lookup, IdEnd, Knows, Clean, AtLineStart, NamePass, C.StringEnd, NextLine, DirectivePass, FunctionIndex;
    var e := FirstPiece(t);
    var a, b := t[..e], t[e..];
    CleanPieces(t, banned);
    assert t == a + b;
    Regrouped(a, b, rest);
    Past(s, i, a, b + rest);
    if IsLetter(t[0]) {
      NameChars(t, 0);
      BreaksOn(t, rest);
      IdEndStops(t);
      I.NameEnds(s, i, a, b + rest);
      NameIs(k, s, i, t, ms, c, banned, depth);
    }
  }

  lemma {:induction false} NameIs(k: Setting, s: string, i: nat, t: string, ms: seq<Macro>, c: Cond, banned: set<string>, depth: nat)
    requires t != "" && IsLetter(t[0]) && i < |s| && IsLetter(s[i]) && IdEnd(s, i) == i + FirstPiece(t)
    requires i + FirstPiece(t) <= |s| && s[i..i + FirstPiece(t)] == t[..FirstPiece(t)]
    requires t[..FirstPiece(t)] !in banned && Knows(k, ms, banned)
    requires var r := Lookup(ms, t[..FirstPiece(t)]);
      r.Has? && r.text != "" && depth < MAX_LEVEL ==>
        Scan(Fresh(k), r.text, 0, ms, c, depth + 1) == With(Expand(ms, r.text, depth + 1), Pass(|r.text|, Fresh(k), ms, c, ""))
    ensures NamePass(k, s, i, ms, c, depth) == Pass(i + FirstPiece(t), k, ms, c, PieceOut(ms, t, depth))
  {
    hide Scan, Expand, Lookup, IdEnd, Knows, FunctionIndex, FirstPiece, CallPass;
    NotBanned(k, ms, t[..FirstPiece(t)], banned);
    ExpandNothing(ms, depth + 1);
    var r := Lookup(ms, t[..FirstPiece(t)]);
    if r.Has? { assert Expand(ms, r.text, depth + 1) + "" == Expand(ms, r.text, depth + 1); }
  }

  lemma {:induction false} IdEndStops(t: string)
    requires t != "" && IsLetter(t[0])
    ensures var e := IdEnd(t, 0); e < |t| ==> !IsIdChar(t[e])
  {
  }

  lemma {:induction false} NotBanned(k: Setting, ms: seq<Macro>, name: string, banned: set<string>)
    requires Knows(k, ms, banned) && name !in banned
    ensures name != "__LINE__" && (FunctionIndex(k.funcs, name) == |k.funcs| || FunctionIndex(k.funcs, name) in k.stack)
  {
  }

  lemma {:induction false} NoNewline(t: string, banned: set<string>)
    requires Clean(t, banned)
    ensures '\n' !in t && (t != "" ==> t[0] != '#')
    decreases |t|
  {
    if t != "" {
      var e := if IsLetter(t[0]) then IdEnd(t, 0) else 1;
      if IsLetter(t[0]) { NameChars(t, 0); }
      NoNewline(t[e..], banned);
      assert t == t[..e] + t[e..];
    }
  }

  lemma {:induction false} LineSkipped(s: string, i: nat, t: string, rest: string)
    requires i <= |s| && s[i..] == t + ("\n" + rest) && '\n' !in t
    ensures i < |s| && NextLine(s, i) == i + |t| + 1
    decreases |t|
  {
    Past(s, i, t, "\n" + rest);
    if t != "" {
      assert s[i] == t[0];
      assert s[i + 1..] == t[1..] + ("\n" + rest) by { assert s[i..][1..] == (t + ("\n" + rest))[1..]; }
      LineSkipped(s, i + 1, t[1..], rest);
    }
  }

  lemma {:induction false} DirectiveEnds(s: string, i: nat, d: string, rest: string)
    requires i <= |s| && s[i..] == d + ("\n" + rest) && OneLine(d)
    ensures DirectiveEnd(s, i) == i + |d| && BehindLine(s, i + |d|) == i + |d| + 1 && s[i..i + |d|] == d
    decreases |d|
  {
    Past(s, i, d, "\n" + rest);
    if d != "" {
      assert s[i] == d[0];
      assert s[i + 1..] == d[1..] + ("\n" + rest) by { assert s[i..][1..] == (d + ("\n" + rest))[1..]; }
      DirectiveEnds(s, i + 1, d[1..], rest);
    }
  }

  /** A text line. */
  lemma {:induction false} TextLine(k: Setting, s: string, i: nat, t: string, rest: string, ms: seq<Macro>, c: Cond, banned: set<string>, depth: nat)
    requires i <= |s| && s[i..] == t + ("\n" + rest) && Clean(t, banned) && Knows(k, ms, banned)
    ensures i + |t| < |s|
    ensures Scan(k, s, i, ms, c, depth)
      == With(if c.skip > 0 then "" else Expand(ms, t, depth) + "\n", Scan(Below(k), s, i + |t| + 1, ms, c, depth))
  {
    hide Scan, Clean, Knows, Expand;
    Past(s, i, t, "\n" + rest);
    NoNewline(t, banned);
    if c.skip > 0 {
      LineSkipped(s, i, t, rest);
      assert s[i] == (t + ("\n" + rest))[0];
      ScanStep(k, s, i, ms, c, depth);
    } else {
      CleanScan(k, s, i, t, "\n" + rest, ms, c, banned, depth);
      ScanStep(k, s, i + |t|, ms, c, depth);
      WithTwice(Expand(ms, t, depth), "\n", Scan(Below(k), s, i + |t| + 1, ms, c, depth));
    }
  }

  /** A directive line: the word behind # decides. */
  lemma {:induction false} DirectiveLine(k: Setting, s: string, i: nat, l: Line, rest: string, ms: seq<Macro>, c: Cond, banned: set<string>,
                                         depth: nat)
    requires i <= |s| && s[i..] == LineText(l) + ("\n" + rest) && !l.Text? && GoodLine(l, banned) && AtLineStart(s, i)
    requires (l.IfLine? ==> |c.emit| < MAX_NESTING)
    ensures i + |LineText(l)| < |s|
    ensures Scan(k, s, i, ms, c, depth) ==
      var st := Step(State(Content(ms, [], 0), c), l, k.nest);
      Scan(Below(k), s, i + |LineText(l)| + 1, st.content.macros, st.cond, depth)
  {
    hide Scan, GoodLine, DirectiveEnd, AtLineStart, Chosen, Undefined, Step, DirectivePass, LineText;
    var d := LineText(l);
    OneDirectiveLine(l, banned);
    DirectiveEnds(s, i, d, rest);
    Past(s, i, d, "\n" + rest);
    assert s[i] == d[0] == '#';
    DirectiveIs(k, s, i, l, ms, c, banned, depth);
    ScanStep(k, s, i, ms, c, depth);
    var st := Step(State(Content(ms, [], 0), c), l, k.nest);
    WithNothing(Scan(Below(k), s, i + |d| + 1, st.content.macros, st.cond, depth));
  }

  lemma {:induction false} OneDirectiveLine(l: Line, banned: set<string>)
    requires !l.Text? && GoodLine(l, banned)
    ensures var d := LineText(l); OneLine(d) && |d| > 1 && d[0] == '#' && !IsSpace(d[1])
  {
  }

  /** Directive d stands at i, on a line of its own. */
  predicate Stands(s: string, i: nat, d: string)
  {
    && i + |d| < |s| && s[i..i + |d|] == d && s[i] == '#' && |d| > 1 && !IsSpace(d[1])
    && DirectiveEnd(s, i) == i + |d| && BehindLine(s, i + |d|) == i + |d| + 1
  }

  lemma {:induction false} DirectiveBehind(s: string, i: nat, d: string)
    requires Stands(s, i, d)
    ensures PastSpaces(s, i + 1, i + |d|) == i + 1 && s[i + 1..i + |d|] == d[1..]
  {
    assert s[i + 1] == d[1];
  }

  /** What a printed directive does is one step of its line. */
  lemma {:induction false} DirectiveIs(k: Setting, s: string, i: nat, l: Line, ms: seq<Macro>, c: Cond, banned: set<string>, depth: nat)
    requires !l.Text? && Stands(s, i, LineText(l)) && GoodLine(l, banned)
    requires l.IfLine? ==> |c.emit| < MAX_NESTING
    ensures var st := Step(State(Content(ms, [], 0), c), l, k.nest);
      DirectivePass(k, s, i, ms, c, depth) == Pass(i + |LineText(l)| + 1, Below(k), st.content.macros, st.cond, "")
  {
    hide DirectivePass, Stands, GoodLine, Chosen, Undefined;
    match l {
      case ElseLine => ElseIs(k, s, i, ms, c, depth);
      case EndifLine => EndifIs(k, s, i, ms, c, depth);
      case Define(_, _) => DefineIs(k, s, i, l, ms, c, banned, depth);
      case Undef(_) => DefineIs(k, s, i, l, ms, c, banned, depth);
      case IfLine(t) => IfIs(k, s, i, t, ms, c, banned, depth);
    }
  }

  lemma {:induction false} ElseIs(k: Setting, s: string, i: nat, ms: seq<Macro>, c: Cond, depth: nat)
    requires Stands(s, i, "#else")
    ensures DirectivePass(k, s, i, ms, c, depth) == Pass(i + 6, Below(k), ms, OnElse(c), "")
  {
    hide DirectiveEnd, PastSpaces, TestOf, Chosen, OnElse;
    DirectiveBehind(s, i, "#else");
    assert "#else"[1..] == "else" + "";
    WordIs(s, i + 1, i + 5, "else", "");
  }

  lemma {:induction false} EndifIs(k: Setting, s: string, i: nat, ms: seq<Macro>, c: Cond, depth: nat)
    requires Stands(s, i, "#endif")
    ensures DirectivePass(k, s, i, ms, c, depth) == Pass(i + 7, Below(k), ms, OnEndif(c), "")
  {
    hide DirectiveEnd, PastSpaces, TestOf, Chosen, OnEndif;
    DirectiveBehind(s, i, "#endif");
    assert "#endif"[1..] == "endif" + "";
    WordIs(s, i + 1, i + 6, "endif", "");
  }

  lemma {:induction false} DefineIs(k: Setting, s: string, i: nat, l: Line, ms: seq<Macro>, c: Cond, banned: set<string>, depth: nat)
    requires (l.Define? || l.Undef?) && Stands(s, i, LineText(l)) && GoodLine(l, banned)
    ensures var st := Step(State(Content(ms, [], 0), c), l, k.nest);
      DirectivePass(k, s, i, ms, c, depth) == Pass(i + |LineText(l)| + 1, Below(k), st.content.macros, st.cond, "")
  {
    hide DirectiveEnd, PastSpaces, TestOf, Chosen, Undefined, StartsWith, Opens, ReadDirective, Clean;
    var d := LineText(l);
    DirectiveBehind(s, i, d);
    NoConditional(s, i + 1, i + |d|, l);
    if l.Define? { DefineReads(l.name, l.value); } else { UndefReads(l.name); }
  }

  lemma {:induction false} NoConditional(s: string, cw: nat, le: nat, l: Line)
    requires (l.Define? || l.Undef?) && cw <= le <= |s| && s[cw..le] == LineText(l)[1..]
    ensures !StartsWith(s, cw, le, "else") && !StartsWith(s, cw, le, "endif") && !Opens(s, cw, le)
  {
    hide StartsWith;
    var x := if l.Define? then l.name + " " + l.value else l.name;
    if l.Define? {
      DefineTail(x);
      WordIs(s, cw, le, "define", " " + x);
    } else {
      UndefTail(x);
      WordIs(s, cw, le, "undef", " " + x);
    }
  }

  lemma {:induction false} DefineTail(x: string)
    ensures ("#define " + x)[1..] == "define" + (" " + x)
  {
  }

  lemma {:induction false} UndefTail(x: string)
    ensures ("#undef " + x)[1..] == "undef" + (" " + x)
  {
  }

  lemma {:induction false} IfIs(k: Setting, s: string, i: nat, t: Test, ms: seq<Macro>, c: Cond, banned: set<string>, depth: nat)
    requires Stands(s, i, LineText(IfLine(t))) && GoodLine(IfLine(t), banned) && |c.emit| < MAX_NESTING
    ensures DirectivePass(k, s, i, ms, c, depth)
      == Pass(i + |LineText(IfLine(t))| + 1, Below(k), ms, OnIf(c, Chosen(ms, t, c.skip > 0, k.nest)), "")
  {
    hide DirectiveEnd, PastSpaces, TestOf, Chosen, OnIf, StartsWith, Opens;
    var d := LineText(IfLine(t));
    DirectiveBehind(s, i, d);
    TestIs(s, i + 1, i + |d|, t, banned);
  }

  lemma {:induction false} TestIs(s: string, cw: nat, le: nat, t: Test, banned: set<string>)
    requires cw <= le <= |s| && s[cw..le] == LineText(IfLine(t))[1..] && GoodLine(IfLine(t), banned)
    ensures !StartsWith(s, cw, le, "else") && !StartsWith(s, cw, le, "endif") && Opens(s, cw, le) && TestOf(s, cw, le) == t
  {
    hide TestOf, Opens;
    var d := LineText(IfLine(t));
    match t {
      case IfDef(n) =>
        assert d[1..] == "ifdef" + (" " + n) && " " + n == " " + (n + "");
        WordIs(s, cw, le, "ifdef", " " + n);
        IfDefReads(s, cw, le, false, " ", n, "");
      case IfNDef(n) =>
        assert d[1..] == "ifndef" + (" " + n) && " " + n == " " + (n + "");
        WordIs(s, cw, le, "ifndef", " " + n);
        IfDefReads(s, cw, le, true, " ", n, "");
      case If(e) =>
        assert d[1..] == "if" + (" " + e);
        WordIs(s, cw, le, "if", " " + e);
        IfReads(s, cw, le, e);
    }
  }

  lemma {:induction false} StartChar(s: string, cw: nat, le: nat, w: string, j: nat)
    requires cw <= le <= |s| && j < |w|
    ensures StartsWith(s, cw, le, w) ==> s[cw + j] == w[j]
  {
    if StartsWith(s, cw, le, w) { assert s[cw..cw + |w|][j] == w[j]; }
  }

  /** No other word stands where this one stands. */
  lemma {:induction false} WordIs(s: string, cw: nat, le: nat, w: string, rest: string)
    requires cw <= le <= |s| && s[cw..le] == w + rest && |w| >= 2
    ensures StartsWith(s, cw, le, w) && s[cw] == w[0] && s[cw + 1] == w[1]
    ensures StartsWith(s, cw, le, "else") ==> w[0] == 'e' && w[1] == 'l'
    ensures StartsWith(s, cw, le, "endif") ==> w[0] == 'e' && w[1] == 'n'
    ensures StartsWith(s, cw, le, "if") ==> w[0] == 'i' && w[1] == 'f'
  {
    var t := s[cw..le];
    assert t[..|w|] == w && s[cw..cw + |w|] == t[..|w|];
    assert s[cw] == t[0] == w[0] && s[cw + 1] == t[1] == w[1];
    StartChar(s, cw, le, "else", 0); StartChar(s, cw, le, "else", 1);
    StartChar(s, cw, le, "endif", 0); StartChar(s, cw, le, "endif", 1);
    StartChar(s, cw, le, "if", 0); StartChar(s, cw, le, "if", 1);
  }

  lemma {:induction false} IfReads(s: string, cw: nat, le: nat, e: string)
    requires cw <= le <= |s| && s[cw..le] == "if" + (" " + e) && (e != "" ==> !IsBlank(e[0]))
    ensures Opens(s, cw, le) && TestOf(s, cw, le) == If(e)
  {
    var t := s[cw..le];
    assert t[2] == ' ' && s[cw + 2] == t[2];
    assert s[cw..cw + 2] == t[..2] == "if";
    StartChar(s, cw, le, "ifdef", 2); StartChar(s, cw, le, "ifndef", 2);
    assert s[cw + 3..le] == t[3..] == e;
    if e != "" { assert s[cw + 3] == e[0]; }
    assert SkipBlanks(s[..le], cw + 2) == SkipBlanks(s[..le], cw + 3) == cw + 3;
  }

  // ----- Whole texts -----

  function LineOut(l: Line, st: State): string
  {
    if l.Text? && st.cond.skip == 0 then Expand(st.content.macros, l.text, st.content.depth) + "\n" else ""
  }

  lemma {:induction false} OneLineScan(k: Setting, s: string, i: nat, l: Line, rest: string, st: State, banned: set<string>)
    requires i <= |s| && s[i..] == LineText(l) + ("\n" + rest) && GoodLine(l, banned) && AtLineStart(s, i)
    requires Knows(k, st.content.macros, banned) && (l.IfLine? ==> |st.cond.emit| < MAX_NESTING)
    ensures var j, st1 := i + |LineText(l)| + 1, Step(st, l, k.nest);
      && j <= |s| && s[j..] == rest && AtLineStart(s, j) && Knows(Below(k), st1.content.macros, banned)
      && Scan(k, s, i, st.content.macros, st.cond, st.content.depth)
        == With(LineOut(l, st), Scan(Below(k), s, j, st1.content.macros, st1.cond, st1.content.depth))
      && Shown(st1.content.out) == Shown(st.content.out) + LineOut(l, st)
  {
    hide Scan, GoodLine, Chosen, Undefined, Clean, Expand, OnIf, OnElse, OnEndif;
    var d := LineText(l);
    Past(s, i, d, "\n" + rest);
    Past(s, i + |d|, "\n", rest);
    KnowsFresh(k, st.content.macros, banned);
    if l.Text? {
      TextIsClean(l, banned);
      TextLine(k, s, i, d, rest, st.content.macros, st.cond, banned, st.content.depth);
      ShownSnoc(st.content.out, Expand(st.content.macros, d, st.content.depth));
    } else {
      DirectiveLine(k, s, i, l, rest, st.content.macros, st.cond, banned, st.content.depth);
      StepsSame(st, l, k.nest);
      var st1 := Step(st, l, k.nest);
      WithNothing(Scan(Below(k), s, i + |d| + 1, st1.content.macros, st1.cond, st1.content.depth));
      StillKnows(k, st, l, banned);
      KnowsFresh(k, st1.content.macros, banned);
    }
  }

  lemma {:induction false} TextIsClean(l: Line, banned: set<string>)
    requires l.Text? && GoodLine(l, banned)
    ensures Clean(LineText(l), banned)
  {
  }

  lemma {:induction false} ShownSnoc(out: seq<string>, t: string)
    ensures Shown(out + [t]) == Shown(out) + (t + "\n")
  {
    var o := out + [t];
    assert o[..|o| - 1] == out;
    assert Shown(out) + t + "\n" == Shown(out) + (t + "\n");
  }

  /** Directives do not look at what has been emitted. */
  lemma {:induction false} StepsSame(st: State, l: Line, nest: nat)
    requires !l.Text?
    ensures var a, b := Step(State(Content(st.content.macros, [], 0), st.cond), l, nest), Step(st, l, nest);
      a.content.macros == b.content.macros && a.cond == b.cond && b.content.out == st.content.out
  {
    hide Chosen, Undefined;
  }

  lemma {:induction false} StillKnows(k: Setting, st: State, l: Line, banned: set<string>)
    requires Knows(k, st.content.macros, banned) && !l.Text? && GoodLine(l, banned)
    ensures Knows(k, Step(st, l, k.nest).content.macros, banned)
  {
    hide Chosen;
    if l.Undef? { UndefinedLess(st.content.macros, l.name, 0); }
  }

  lemma {:induction false} UndefinedLess(ms: seq<Macro>, name: string, i: nat)
    ensures forall m :: m in Undefined(ms, name, i) ==> m in ms
    decreases |ms| - i
  {
    if i < |ms| && ms[i].name != name { UndefinedLess(ms, name, i + 1); }
  }

  /** Scanning a printed text runs its lines. */
  lemma {:induction false} ScanPrinted(k: Setting, s: string, i: nat, ls: seq<Line>, st: State, banned: set<string>)
    requires i <= |s| && s[i..] == Printed(ls) && AtLineStart(s, i) && (forall l :: l in ls ==> GoodLine(l, banned))
    requires Nests(ls, |st.cond.emit|) && Knows(k, st.content.macros, banned)
    ensures var p, r := Scan(k, s, i, st.content.macros, st.cond, st.content.depth), Run(st, ls, k.nest);
      p.Pass? && p.known == k.(line := k.line + |ls|) && p.macros == r.content.macros && p.cond == r.cond && Shown(r.content.out) == Shown(st.content.out) + p.out
    decreases |ls|
  {
    hide GoodLine, Knows, AtLineStart, Step, Shown, LineText, OnePass;
    if ls == [] {
      assert Shown(st.content.out) + "" == Shown(st.content.out);
    } else {
      var l, rest := ls[0], Printed(ls[1..]);
      assert s[i..] == LineText(l) + ("\n" + rest) by { assert LineText(l) + "\n" + rest == LineText(l) + ("\n" + rest); }
      OneLineScan(k, s, i, l, rest, st, banned);
      var st1 := Step(st, l, k.nest);
      NestsNext(ls, st, k.nest);
      ScanPrinted(Below(k), s, i + |LineText(l)| + 1, ls[1..], st1, banned);
      var p := Scan(Below(k), s, i + |LineText(l)| + 1, st1.content.macros, st1.cond, st1.content.depth);
      var o := LineOut(l, st);
      assert Shown(st.content.out) + o + p.out == Shown(st.content.out) + (o + p.out);
    }
  }

  lemma {:induction false} NestsNext(ls: seq<Line>, st: State, nest: nat)
    requires ls != [] && Nests(ls, |st.cond.emit|)
    ensures Nests(ls[1..], |Step(st, ls[0], nest).cond.emit|)
  {
    hide Chosen, Act;
  }

  /** A printed text of nested conditionals reads as its chosen branches, and the
      conditional stack is afterwards what it was. */
  lemma {:induction false} BlocksScan(k: Setting, bs: seq<Block>, c: Content, cond: Cond, banned: set<string>)
    requires PlainLines(bs) && Counted(cond) && c.out == []
    requires (forall l :: l in LinesOf(bs) ==> GoodLine(l, banned)) && Nests(LinesOf(bs), |cond.emit|)
    requires Knows(k, c.macros, banned)
    ensures var p, r := Scan(k, Printed(LinesOf(bs)), 0, c.macros, cond, c.depth), if cond.skip > 0 then c else Meaning(c, bs, k.nest);
      p.Pass? && p.known == k.(line := k.line + |LinesOf(bs)|) && p.macros == r.macros && p.cond == cond && p.out == Shown(r.out)
  {
    hide GoodLine, Knows, Run, Scan, Printed, LinesOf, Meaning, PlainLines;
    var s, st := Printed(LinesOf(bs)), State(c, cond);
    assert s[0..] == s;
    ScanPrinted(k, s, 0, LinesOf(bs), st, banned);
    FollowsBlocks(st, bs, k.nest);
    var p := Scan(k, s, 0, c.macros, cond, c.depth);
    assert Shown([]) + p.out == p.out;
  }
}
