/** Reading a directive line: definitions, removals and inclusions as functions of the
    line, the program that reads them with loops, and what printed definitions read as. */
module DirectiveReader {
  import opened IfExpression
  import opened Texts
  import E = IfEvaluator
  import I = IfPrinting

  /** A function-like macro. */
  datatype FuncMacro = FuncMacro(name: string, params: seq<string>, variadic: bool, replacement: string)

  /** What a directive other than a conditional asks for.  Endless marks a parameter list
      in which the program makes no progress. */
  datatype Directive = Include(name: string) | DefineObject(m: Macro) | DefineFunction(f: FuncMacro) | Remove(name: string)
    | Error | Other | TooMany | Endless

  const MAX_ARGS: nat := 128
  const MAX_NAME: nat := 255

  // ----- Pieces of a line -----

  /** The end of the word at i. */
  function WordEnd(s: string, i: nat): (p: nat)
    requires i <= |s|
    ensures i <= p <= |s|
    decreases |s| - i
  {
    if i < |s| && !IsBlank(s[i]) then WordEnd(s, i + 1) else i
  }

  /** Where s[from..end] ends without the blanks behind it. */
  function TrimmedEnd(s: string, from: nat, end: nat): (p: nat)
    requires from <= end <= |s|
    ensures from <= p <= end
    decreases end
  {
    if end > from && IsBlank(s[end - 1]) then TrimmedEnd(s, from, end - 1) else end
  }

  /** A comment opens at i. */
  predicate CommentAt(t: string, i: nat)
  {
    i + 1 < |t| && t[i] == '/' && (t[i + 1] == '*' || t[i + 1] == '/')
  }

  /** The first comment from i on, or the end. */
  function CommentFrom(t: string, i: nat): (p: nat)
    requires i <= |t|
    ensures i <= p <= |t|
    decreases |t| - i
  {
    if i >= |t| || CommentAt(t, i) then i else CommentFrom(t, i + 1)
  }

  function AfterSpaces(t: string, i: nat): (p: nat)
    requires i <= |t|
    ensures i <= p <= |t|
    decreases |t| - i
  {
    if i < |t| && (t[i] == ' ' || t[i] == '\t') then AfterSpaces(t, i + 1) else i
  }

  /** Behind a continued line end at i, or i if there is none. */
  function Continuation(t: string, i: nat): (p: nat)
    requires i < |t|
    ensures i <= p <= |t|
  {
    if t[i] == '\\' && i + 1 < |t| then
      var n := if t[i + 1] == '\r' then i + 2 else i + 1;
      if n < |t| && t[n] == '\n' then AfterSpaces(t, n + 1) else i
    else i
  }

  /** The text from i on with continued lines joined. */
  function Joined(t: string, i: nat): string
    requires i <= |t|
    decreases |t| - i
  {
    if i == |t| then ""
    else if Continuation(t, i) > i then Joined(t, Continuation(t, i))
    else [t[i]] + Joined(t, i + 1)
  }

  // ----- Definitions -----

  /** The value of an object macro that stands from i on. */
  function ValueFrom(s: string, i: nat): string
    requires i <= |s|
  {
    var vs := SkipBlanks(s, i);
    var t := s[vs..TrimmedEnd(s, vs, |s|)];
    Joined(t[..CommentFrom(t, 0)], 0)
  }

  datatype Params = Params(names: seq<string>, variadic: bool, end: nat) | TooManyParams | NoProgress

  /** Where the cursor is after one pass over a parameter that starts at cp with name
      s[a..e]. */
  function BehindParam(s: string, e: nat): (c: nat)
    requires e <= |s|
    ensures e <= c <= |s|
  {
    var b := SkipBlanks(s, e);
    if b < |s| && s[b] == ',' then b + 1 else b
  }

  predicate Ellipsis(s: string, a: nat) { a + 3 <= |s| && s[a..a + 3] == "..." }

  function ReadParams(s: string, cp: nat, names: seq<string>): (r: Params)
    requires cp <= |s|
    ensures r.Params? ==> cp <= r.end <= |s|
    decreases |s| - cp
  {
    if cp == |s| || s[cp] == ')' then Params(names, false, cp)
    else
      var a := SkipBlanks(s, cp);
      if a == |s| || s[a] == ')' then Params(names, false, a)
      else if Ellipsis(s, a) then Params(names, true, a + 3)
      else
        var e := IdEnd(s, a);
        var c := BehindParam(s, e);
        if e > a && |names| >= MAX_ARGS then TooManyParams
        else if c == cp then NoProgress
        else ReadParams(s, c, if e > a then names + [s[a..e]] else names)
  }

  /** A function macro whose opening parenthesis is at p. */
  function ReadFunction(s: string, name: string, p: nat): Directive
    requires p < |s|
  {
    match ReadParams(s, p + 1, [])
    case TooManyParams => TooMany
    case NoProgress => Endless
    case Params(names, variadic, end) =>
      var vs := SkipBlanks(s, if end < |s| && s[end] == ')' then end + 1 else end);
      DefineFunction(FuncMacro(name, names, variadic, Joined(s[vs..TrimmedEnd(s, vs, |s|)], 0)))
  }

  function ReadDefine(s: string, p: nat): Directive
    requires p <= |s|
  {
    var ms := SkipBlanks(s, p);
    var e := IdEnd(s, ms);
    if e == ms then Other
    else if e < |s| && s[e] == '(' then ReadFunction(s, s[ms..e], e)
    else DefineObject(Macro(s[ms..e], ValueFrom(s, e)))
  }

  function ReadUndef(s: string, p: nat): Directive
    requires p <= |s|
  {
    var ms := SkipBlanks(s, p);
    var e := IdEnd(s, ms);
    if e == ms then Other else Remove(s[ms..if e - ms > MAX_NAME then ms + MAX_NAME else e])
  }

  function QuoteFrom(s: string, i: nat): (p: nat)
    requires i <= |s|
    ensures i <= p <= |s|
    decreases |s| - i
  {
    if i == |s| || s[i] == '"' || s[i] == '<' then i else QuoteFrom(s, i + 1)
  }

  function CharFrom(s: string, c: char, i: nat): (p: nat)
    requires i <= |s|
    ensures i <= p <= |s|
    decreases |s| - i
  {
    if i == |s| || s[i] == c then i else CharFrom(s, c, i + 1)
  }

  /** Names in angle brackets are refused with a message. */
  function ReadInclude(s: string, p: nat): Directive
    requires p <= |s|
  {
    var q := QuoteFrom(s, p);
    if q == |s| || s[q] == '<' then Other
    else
      var e := CharFrom(s, '"', q + 1);
      if e == q + 1 then Other else Include(s[q + 1..e])
  }

  /** A whole line that is no conditional; the words for definitions, removals and errors
      are told by their first letters and their length. */
  function ReadDirective(s: string): Directive
  {
    var h := SkipBlanks(s, 0);
    if h == |s| || s[h] != '#' then Other
    else
      var dw := SkipBlanks(s, h + 1);
      var p := WordEnd(s, dw);
      var word := s[dw..p];
      if word == "include" then ReadInclude(s, p)
      else if |word| == 6 && word[..3] == "def" then ReadDefine(s, p)
      else if |word| == 5 && word[..2] == "un" then ReadUndef(s, p)
      else if |word| == 5 && word[..3] == "err" then Error
      else Other
  }

  // ----- The program -----

  method FindWordEnd(s: string, i: nat) returns (p: nat)
    requires i <= |s|
    ensures p == WordEnd(s, i)
  {
    p := i;
    while p < |s| && !IsBlank(s[p])
      invariant p <= |s| && WordEnd(s, p) == WordEnd(s, i)
    {
      p := p + 1;
    }
  }

  method TrimEnd(s: string, from: nat) returns (p: nat)
    requires from <= |s|
    ensures p == TrimmedEnd(s, from, |s|)
  {
    p := |s|;
    while p > from && IsBlank(s[p - 1])
      invariant from <= p <= |s| && TrimmedEnd(s, from, p) == TrimmedEnd(s, from, |s|)
    {
      p := p - 1;
    }
  }

  method FindComment(t: string) returns (p: nat)
    ensures p == CommentFrom(t, 0)
  {
    p := 0;
    while p < |t| && !CommentAt(t, p)
      invariant p <= |t| && CommentFrom(t, p) == CommentFrom(t, 0)
    {
      p := p + 1;
    }
  }

  method SkipContinuation(t: string, i: nat) returns (next: nat)
    requires i < |t|
    ensures next == Continuation(t, i)
  {
    next := i;
    if t[i] == '\\' && i + 1 < |t| {
      var n := if t[i + 1] == '\r' then i + 2 else i + 1;
      if n < |t| && t[n] == '\n' {
        next := n + 1;
        while next < |t| && (t[next] == ' ' || t[next] == '\t')
          invariant n + 1 <= next <= |t| && AfterSpaces(t, next) == AfterSpaces(t, n + 1)
        {
          next := next + 1;
        }
      }
    }
  }

  method StripContinuations(t: string) returns (r: string)
    ensures r == Joined(t, 0)
  {
    r := "";
    var i := 0;
    while i < |t|
      invariant i <= |t| && r + Joined(t, i) == Joined(t, 0)
      decreases |t| - i
    {
      hide Continuation;
      var next := SkipContinuation(t, i);
      if next > i {
        i := next;
      } else {
        assert r + ([t[i]] + Joined(t, i + 1)) == r + [t[i]] + Joined(t, i + 1);
        r := r + [t[i]];
        i := i + 1;
      }
    }
  }

  lemma {:induction false} NextParam(s: string, cp: nat, names: seq<string>)
    requires cp < |s| && s[cp] != ')'
    ensures var a := SkipBlanks(s, cp);
      && (a == |s| || s[a] == ')' ==> ReadParams(s, cp, names) == Params(names, false, a))
      && (a < |s| && s[a] != ')' && Ellipsis(s, a) ==>
            ReadParams(s, cp, names) == Params(names, true, a + 3))
      && (a < |s| && s[a] != ')' && !Ellipsis(s, a) ==>
            var e := IdEnd(s, a);
            var c := BehindParam(s, e);
            ReadParams(s, cp, names) == if e > a && |names| >= MAX_ARGS then TooManyParams else if c == cp then NoProgress
              else ReadParams(s, c, if e > a then names + [s[a..e]] else names))
  {
    hide SkipBlanks, IdEnd, BehindParam, Ellipsis;
  }

  method ScanParams(s: string, start: nat) returns (r: Params)
    requires start <= |s|
    ensures r == ReadParams(s, start, [])
  {
    var names: seq<string> := [];
    var cp := start;
    while cp < |s| && s[cp] != ')'
      invariant cp <= |s| && ReadParams(s, cp, names) == ReadParams(s, start, [])
      decreases |s| - cp
    {
      hide ReadParams, SkipBlanks, IdEnd, Ellipsis, IsBlank, IsIdChar;
      NextParam(s, cp, names);
      var a := E.SkipWhite(s, cp);
      if a == |s| || s[a] == ')' { return Params(names, false, a); }
      if Ellipsis(s, a) { return Params(names, true, a + 3); }
      var e := E.EndOfName(s, a);
      if e > a {
        if |names| >= MAX_ARGS { return TooManyParams; }
        names := names + [s[a..e]];
      }
      var c := E.SkipWhite(s, e);
      if c < |s| && s[c] == ',' { c := c + 1; }
      if c == cp { return NoProgress; }
      cp := c;
    }
    r := Params(names, false, cp);
  }

  method ParseFunction(s: string, name: string, p: nat) returns (d: Directive)
    requires p < |s|
    ensures d == ReadFunction(s, name, p)
  {
    var r := ScanParams(s, p + 1);
    match r {
      case TooManyParams => d := TooMany;
      case NoProgress => d := Endless;
      case Params(names, variadic, end) =>
        var vs := E.SkipWhite(s, if end < |s| && s[end] == ')' then end + 1 else end);
        var ve := TrimEnd(s, vs);
        var value := StripContinuations(s[vs..ve]);
        d := DefineFunction(FuncMacro(name, names, variadic, value));
    }
  }

  method ParseDefine(s: string, p: nat) returns (d: Directive)
    requires p <= |s|
    ensures d == ReadDefine(s, p)
  {
    var ms := E.SkipWhite(s, p);
    var e := E.EndOfName(s, ms);
    if e == ms { return Other; }
    if e < |s| && s[e] == '(' {
      d := ParseFunction(s, s[ms..e], e);
      return;
    }
    var vs := E.SkipWhite(s, e);
    var ve := TrimEnd(s, vs);
    var cut := FindComment(s[vs..ve]);
    var value := StripContinuations(s[vs..ve][..cut]);
    d := DefineObject(Macro(s[ms..e], value));
  }

  method ParseInclude(s: string, p: nat) returns (d: Directive)
    requires p <= |s|
    ensures d == ReadInclude(s, p)
  {
    var q := p;
    while q < |s| && s[q] != '"' && s[q] != '<'
      invariant p <= q <= |s| && QuoteFrom(s, q) == QuoteFrom(s, p)
    {
      q := q + 1;
    }
    if q == |s| || s[q] == '<' { return Other; }
    var e := q + 1;
    while e < |s| && s[e] != '"'
      invariant q < e <= |s| && CharFrom(s, '"', e) == CharFrom(s, '"', q + 1)
    {
      e := e + 1;
    }
    d := if e == q + 1 then Other else Include(s[q + 1..e]);
  }

  method ParseDirective(s: string) returns (d: Directive)
    ensures d == ReadDirective(s)
  {
    var h := E.SkipWhite(s, 0);
    if h == |s| || s[h] != '#' { return Other; }
    var dw := E.SkipWhite(s, h + 1);
    var p := FindWordEnd(s, dw);
    var word := s[dw..p];
    if word == "include" {
      d := ParseInclude(s, p);
    } else if |word| == 6 && word[..3] == "def" {
      d := ParseDefine(s, p);
    } else if |word| == 5 && word[..2] == "un" {
      var ms := E.SkipWhite(s, p);
      var e := E.EndOfName(s, ms);
      d := if e == ms then Other else Remove(s[ms..if e - ms > MAX_NAME then ms + MAX_NAME else e]);
    } else {
      d := if |word| == 5 && word[..3] == "err" then Error else Other;
    }
  }

  // ----- Printed definitions -----

  predicate OneLine(t: string) { forall i :: 0 <= i < |t| ==> t[i] != '\n' && t[i] != '\\' }

  /** A value that is read as it was printed. */
  predicate GoodValue(v: string)
  {
    (v != "" ==> !IsBlank(v[0]) && !IsBlank(v[|v| - 1])) && forall i :: 0 <= i < |v| ==> !CommentAt(v, i)
  }

  lemma {:induction false} NothingTrimmed(s: string, from: nat)
    requires from <= |s| && (from < |s| ==> !IsBlank(s[|s| - 1]))
    ensures TrimmedEnd(s, from, |s|) == |s|
  {
  }

  lemma {:induction false} TrimsBlank(s: string, from: nat)
    requires from < |s| && IsBlank(s[|s| - 1])
    ensures TrimmedEnd(s, from, |s|) < |s|
  {
  }

  /** There is a comment exactly if the search stops before the end. */
  lemma {:induction false} CommentIs(t: string, i: nat)
    requires i <= |t|
    ensures CommentFrom(t, i) == |t| <==> forall j :: i <= j < |t| ==> !CommentAt(t, j)
    decreases |t| - i
  {
    if i < |t| && !CommentAt(t, i) { CommentIs(t, i + 1); }
  }

  lemma {:induction false} NothingJoined(t: string, i: nat)
    requires i <= |t| && OneLine(t)
    ensures Joined(t, i) == t[i..]
    decreases |t| - i
  {
    if i < |t| {
      NothingJoined(t, i + 1);
      assert [t[i]] + t[i + 1..] == t[i..];
    }
  }

  /** What is read of a value of one line is that value exactly if it has no blanks outside
      and no comment. */
  lemma {:induction false} ValueExactly(s: string, i: nat, v: string)
    requires i < |s| && s[i] == ' ' && s[i + 1..] == v && OneLine(v)
    ensures ValueFrom(s, i) == v <==> GoodValue(v)
  {
    hide Joined, CommentFrom, TrimmedEnd, SkipBlanks, CommentAt;
    FrontSkipped(s, i, v);
    var vs := SkipBlanks(s, i);
    var te := TrimmedEnd(s, vs, |s|);
    var t := s[vs..te];
    var cut := CommentFrom(t, 0);
    OneLineParts(v, s, i, vs, te);
    NothingJoined(t[..cut], 0);
    assert ValueFrom(s, i) == t[..cut];
    CommentIs(t, 0);
    if v != "" {
      assert s[|s| - 1] == v[|v| - 1];
      if IsBlank(v[|v| - 1]) && vs < |s| { TrimsBlank(s, vs); }
      if !IsBlank(v[|v| - 1]) { NothingTrimmed(s, vs); }
    }
    if vs == i + 1 && te == |s| { assert t == v; }
    if |t[..cut]| == |v| { assert vs == i + 1 && te == |s| && cut == |t|; }
  }

  lemma {:induction false} FrontSkipped(s: string, i: nat, v: string)
    requires i < |s| && s[i] == ' ' && s[i + 1..] == v
    ensures SkipBlanks(s, i) >= i + 1 && (SkipBlanks(s, i) == i + 1 <==> v == "" || !IsBlank(v[0]))
  {
    assert SkipBlanks(s, i) == SkipBlanks(s, i + 1);
    if v != "" { assert s[i + 1] == v[0]; }
  }

  lemma {:induction false} OneLineParts(v: string, s: string, i: nat, a: nat, b: nat)
    requires i < |s| && s[i + 1..] == v && OneLine(v) && i + 1 <= a <= b <= |s|
    ensures OneLine(s[a..b])
    ensures forall c :: 0 <= c <= b - a ==> OneLine(s[a..b][..c])
  {
    forall k | a <= k < b ensures s[k] != '\n' && s[k] != '\\' { assert s[k] == v[k - i - 1]; }
  }

  /** A printed definition reads as it was printed exactly if its value is a good one. */
  lemma {:induction false} DefineReads(n: string, v: string)
    requires I.IsName(n) && OneLine(v)
    ensures ReadDirective("#define " + (n + " " + v)) == DefineObject(Macro(n, v)) <==> GoodValue(v)
  {
    hide ValueFrom, GoodValue, I.IsName, ReadDefine;
    var s := "#define " + (n + " " + v);
    var e := 8 + |n|;
    DefineWord(n + " " + v, s);
    IsDefine(s);
    assert n + " " + v == n + (" " + v);
    NameStarts(n, " " + v, s, 8);
    assert s[e] == s[e..][0] == ' ' && s[e + 1..] == s[e..][1..] == v;
    NameAndValue(s, n);
    ValueExactly(s, e, v);
  }

  /** A definition whose value holds a comment mark in a string literal is not read as it
      was printed: the value is cut inside the literal. */
  lemma {:induction false} QuotedComment(n: string, a: string, b: string)
    requires I.IsName(n) && OneLine(a) && OneLine(b)
    ensures var v := "\"" + (a + ("//" + (b + "\"")));
      ReadDirective("#define " + (n + " " + v)) != DefineObject(Macro(n, v))
  {
    hide I.IsName, ReadDirective;
    var v := "\"" + (a + ("//" + (b + "\"")));
    assert v[1 + |a|] == '/' && v[2 + |a|] == '/';
    assert CommentAt(v, 1 + |a|);
    DefineReads(n, v);
  }

  lemma {:induction false} IsDefine(s: string)
    requires |s| > 7 && SkipBlanks(s, 0) == 0 && s[0] == '#' && SkipBlanks(s, 1) == 1 && WordEnd(s, 1) == 7 && s[1..7] == "define"
    ensures ReadDirective(s) == ReadDefine(s, 7)
  {
    hide SkipBlanks, WordEnd, ReadDefine;
    assert s[1..7][..3] == "def";
  }

  lemma {:induction false} NameAndValue(s: string, n: string)
    requires 8 + |n| < |s| && |n| > 0 && SkipBlanks(s, 7) == 8 && IdEnd(s, 8) == 8 + |n| && s[8..8 + |n|] == n && s[8 + |n|] == ' '
    ensures ReadDefine(s, 7) == DefineObject(Macro(n, ValueFrom(s, 8 + |n|)))
  {
    hide SkipBlanks, IdEnd, ValueFrom;
  }

  lemma {:induction false} DefineWord(x: string, s: string)
    requires s == "#define " + x
    ensures SkipBlanks(s, 0) == 0 && s[0] == '#' && SkipBlanks(s, 1) == 1 && WordEnd(s, 1) == 7 && s[1..7] == "define"
    ensures SkipBlanks(s, 7) == SkipBlanks(s, 8) && s[8..] == x
  {
    WordEnds(s, 1, "define");
  }

  /** A word ends before the blank behind it. */
  lemma {:induction false} WordEnds(s: string, i: nat, w: string)
    requires i + |w| < |s| && s[i..i + |w|] == w && IsBlank(s[i + |w|]) && forall k :: 0 <= k < |w| ==> !IsBlank(w[k])
    ensures WordEnd(s, i) == i + |w|
    decreases |w|
  {
    if w != "" {
      assert s[i] == s[i..i + |w|][0] == w[0];
      assert s[i + 1..i + |w|] == s[i..i + |w|][1..] == w[1..];
      WordEnds(s, i + 1, w[1..]);
    }
  }

  lemma {:induction false} NameStarts(n: string, rest: string, s: string, i: nat)
    requires I.IsName(n) && i <= |s| && (s[i..] == n + rest || s[i..] == n + rest + "") && (rest != "" ==> !IsIdChar(rest[0]))
    ensures i + |n| <= |s| && SkipBlanks(s, i) == i && IdEnd(s, i) == i + |n| && s[i..i + |n|] == n && |n| > 0
    ensures s[i + |n|..] == rest
  {
    assert s[i] == s[i..][0] == n[0];
    I.NameEnds(s, i, n, rest);
    Past(s, i, n, rest);
  }

  // ----- Printed parameter lists -----

  /** Names with commas between them, and perhaps one behind them. */
  function PrintedParams(ns: seq<string>, comma: bool): string
  {
    if ns == [] then "" else ns[0] + ((if |ns| > 1 || comma then "," else "") + PrintedParams(ns[1..], comma))
  }

  lemma {:induction false} ParamPass(s: string, cp: nat, n: string, comma: bool, rest: string, names: seq<string>)
    requires I.IsName(n) && cp <= |s| && s[cp..] == n + ((if comma then "," else "") + rest)
    requires rest != "" && (!comma ==> !IsIdChar(rest[0]) && !IsBlank(rest[0]) && rest[0] != ',')
    ensures var c := cp + |n| + if comma then 1 else 0;
      && c <= |s| && s[c..] == rest
      && ReadParams(s, cp, names) == if |names| >= MAX_ARGS then TooManyParams else ReadParams(s, c, names + [n])
  {
    hide ReadParams;
    var t := (if comma then "," else "") + rest;
    var e := cp + |n|;
    assert t[0] == if comma then ',' else rest[0];
    NameStarts(n, t, s, cp);
    assert s[cp] == s[cp..][0] == n[0] && s[e] == s[e..][0] == t[0];
    assert SkipBlanks(s, e) == e;
    NextParam(s, cp, names);
    assert s[e..][|t| - |rest|..] == rest;
  }

  /** What stands behind the names decides: a closing parenthesis or an ellipsis ends the
      list, which is then read as it was printed; at any other character that is no blank,
      no comma and no part of a name the program does not end.  More than 128 parameters
      are refused. */
  lemma {:induction false} ParamsRead(s: string, cp: nat, ns: seq<string>, comma: bool, rest: string, names: seq<string>)
    requires cp <= |s| && s[cp..] == PrintedParams(ns, comma) + rest && forall k :: 0 <= k < |ns| ==> I.IsName(ns[k])
    requires rest != "" && !IsIdChar(rest[0]) && !IsBlank(rest[0]) && rest[0] != ','
    ensures ReadParams(s, cp, names) ==
      if |names| + |ns| > MAX_ARGS && ns != [] then TooManyParams
      else if rest[0] == ')' then Params(names + ns, false, cp + |PrintedParams(ns, comma)|)
      else if Ellipsis(rest, 0) then Params(names + ns, true, cp + |PrintedParams(ns, comma)| + 3)
      else NoProgress
    decreases |ns|
  {
    hide ReadParams, I.IsName;
    if ns == [] {
      assert s[cp..] == rest && s[cp] == s[cp..][0] && names + ns == names;
      Stuck(s, cp, rest, names);
    } else {
      var more := |ns| > 1 || comma;
      var tail := PrintedParams(ns[1..], comma) + rest;
      assert s[cp..] == ns[0] + ((if more then "," else "") + tail);
      if !more { assert tail == rest; }
      ParamPass(s, cp, ns[0], more, tail, names);
      if |names| < MAX_ARGS {
        ParamsRead(s, cp + |ns[0]| + if more then 1 else 0, ns[1..], comma, rest, names + [ns[0]]);
        assert names + ns == names + [ns[0]] + ns[1..];
      }
    }
  }

  lemma {:induction false} Stuck(s: string, cp: nat, rest: string, names: seq<string>)
    requires cp < |s| && s[cp..] == rest && s[cp] == rest[0] && !IsIdChar(s[cp]) && !IsBlank(s[cp]) && s[cp] != ','
    ensures ReadParams(s, cp, names) ==
      if s[cp] == ')' then Params(names, false, cp) else if Ellipsis(rest, 0) then Params(names, true, cp + 3) else NoProgress
  {
    hide ReadParams;
    if s[cp] == ')' {
      ListEnds(s, cp, names);
    } else {
      NextParam(s, cp, names);
      assert cp + 3 <= |s| ==> s[cp..cp + 3] == s[cp..][..3] == rest[..3] == rest[0..3];
    }
  }

  lemma {:induction false} ListEnds(s: string, cp: nat, names: seq<string>)
    requires cp < |s| && s[cp] == ')'
    ensures ReadParams(s, cp, names) == Params(names, false, cp)
  {
  }

  /** #define F(+) is such a line, for any name. */
  lemma {:induction false} PlusEndless(f: string)
    requires I.IsName(f)
    ensures ReadDirective("#define " + (f + "(+)")) == Endless
  {
    hide ReadParams, I.IsName, WordEnd, SkipBlanks, IdEnd;
    var s := "#define " + (f + "(+)");
    DefineWord(f + "(+)", s);
    IsDefine(s);
    NameStarts(f, "(+)", s, 8);
    var e := 8 + |f|;
    assert s[e] == s[e..][0] == '(' && s[e + 1..] == s[e..][1..] == "+)";
    ParamsRead(s, e + 1, [], false, "+)", []);
  }

  lemma {:induction false} UndefReads(n: string)
    requires I.IsName(n)
    ensures ReadDirective("#undef " + n) == Remove(n) <==> |n| <= MAX_NAME
  {
    hide I.IsName, IdEnd, WordEnd, SkipBlanks;
    var s := "#undef " + n;
    UndefWord(n, s);
    assert n + "" == n;
    NameStarts(n, "", s, 7);
  }

  lemma {:induction false} UndefWord(x: string, s: string)
    requires s == "#undef " + x
    ensures SkipBlanks(s, 0) == 0 && s[0] == '#' && SkipBlanks(s, 1) == 1 && WordEnd(s, 1) == 6 && s[1..6] == "undef"
    ensures SkipBlanks(s, 6) == SkipBlanks(s, 7) && s[7..] == x
  {
    WordEnds(s, 1, "undef");
  }
}
