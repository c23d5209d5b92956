/** Replacement texts with operators: what pasting, the string operator and the trailing
    arguments put out, and where that is what C asks for. */
module ReplacementText {
  import opened IfExpression
  import opened DirectiveReader
  import opened Substitution
  import S = Substitution
  import opened Texts
  import C = Comments
  import D = Directives
  import F = Conditionals
  import I = IfPrinting
  import M = MacroCalls
  import N = IfMeaning

  // ----- Texts with operators -----

  /** A part without operators, a character literal, a parameter to be quoted, the paste
      operator between its blanks, the trailing arguments, and these behind a comma and
      a paste operator. */
  datatype Unit = Bare(x: Part) | Letter(t: string) | Quote(a: string, j: nat) | Paste(a: string, b: string)
    | Trailing | CommaTrailing(a: string, b: string)

  predicate IsSpace(c: char) { c == ' ' || c == '\t' }

  predicate Spaces(a: string) { forall i :: 0 <= i < |a| ==> IsSpace(a[i]) }

  function UnitText(params: seq<string>, u: Unit): string
  {
    match u
    case Bare(x) => PartText(params, x)
    case Letter(t) => t
    case Quote(a, j) => "#" + (a + if j < |params| then params[j] else "")
    case Paste(a, b) => a + ("##" + b)
    case Trailing => VA_ARGS
    case CommaTrailing(a, b) => "," + (a + ("##" + (b + VA_ARGS)))
  }

  function UnitsText(params: seq<string>, us: seq<Unit>): string
  {
    if us == [] then "" else UnitText(params, us[0]) + UnitsText(params, us[1..])
  }

  predicate UnitOk(f: FuncMacro, u: Unit)
  {
    match u
    case Bare(x) => PartOk(f.params, x) && (f.variadic ==> VaFree(f.params, x))
    case Letter(t) => M.IsLetterText(t)
    case Quote(a, j) => Spaces(a) && j < |f.params|
    case Paste(a, b) => Spaces(a) && Spaces(b)
    case Trailing => f.variadic
    case CommaTrailing(a, b) => f.variadic && Spaces(a) && Spaces(b)
  }

  predicate IsGap(u: Unit) { u.Bare? && u.x.Mark? && IsSpace(u.x.c) }

  predicate StartsName(u: Unit) { (u.Bare? && IsNamePart(u.x)) || u.Trailing? }

  predicate EndsName(u: Unit) { StartsName(u) || u.Quote? || u.CommaTrailing? }

  /** What may stand beside a paste operator. */
  predicate IsOperand(u: Unit) { !IsGap(u) && !u.Paste? && !u.CommaTrailing? }

  /** v may stand behind u: names do not run together, and a paste operator stands between
      two operands, of which the first is no comma if there are trailing arguments. */
  predicate Follows(f: FuncMacro, u: Unit, v: Unit)
  {
    && !(EndsName(u) && StartsName(v))
    && (u.Paste? ==> IsOperand(v))
    && (v.Paste? ==> IsOperand(u) && !(f.variadic && u == Bare(Mark(','))))
  }

  predicate Formed(f: FuncMacro, us: seq<Unit>)
  {
    && (forall i, j :: 0 <= i < j < |f.params| ==> f.params[i] != f.params[j])
    && (forall i :: 0 <= i < |f.params| ==> IsWord(f.params[i]))
    && (forall k :: 0 <= k < |us| ==> UnitOk(f, us[k]))
    && forall k :: 0 < k < |us| ==> Follows(f, us[k - 1], us[k])
  }

  lemma {:induction false} FormedRest(f: FuncMacro, us: seq<Unit>)
    requires us != [] && Formed(f, us)
    ensures UnitOk(f, us[0]) && Formed(f, us[1..]) && (|us| > 1 ==> Follows(f, us[0], us[1]))
  {
    hide UnitOk, Follows, IsWord;
    forall k | 0 <= k < |us[1..]| ensures UnitOk(f, us[1..][k]) { assert us[1..][k] == us[k + 1]; }
    forall k | 0 < k < |us[1..]| ensures Follows(f, us[1..][k - 1], us[1..][k]) {
      assert us[1..][k - 1] == us[k] && us[1..][k] == us[k + 1];
    }
  }

  // ----- What they put out -----

  /** The texts with commas between them. */
  function Commas(vs: seq<string>): string
  {
    if vs == [] then "" else if |vs| == 1 then vs[0] else Commas(vs[..|vs| - 1]) + "," + vs[|vs| - 1]
  }

  /** The arguments behind the named ones. */
  function Others(f: FuncMacro, raws: seq<string>, exps: seq<string>): seq<string>
    requires |raws| == |exps|
  {
    if |raws| <= |f.params| then [] else UsedAll(raws, exps)[|f.params|..]
  }

  function Out(f: FuncMacro, raws: seq<string>, exps: seq<string>, u: Unit): string
    requires |raws| == |exps|
  {
    match u
    case Bare(x) => if x.Parameter? && x.j < |raws| then Used(raws[x.j], exps[x.j]) else PartText(f.params, x)
    case Letter(t) => t
    case Quote(_, j) => if j < |raws| then S.Quoted(raws[j]) else ""
    case Paste(_, _) => ""
    case Trailing => Commas(Others(f, raws, exps))
    case CommaTrailing(_, _) => if |raws| == |f.params| then "" else "," + Commas(Others(f, raws, exps))
  }

  /** The units one behind the other: the paste operators and the blanks around them are
      gone, so their operands stand side by side. */
  function Meant(f: FuncMacro, raws: seq<string>, exps: seq<string>, us: seq<Unit>): string
    requires |raws| == |exps|
  {
    if us == [] then "" else Out(f, raws, exps, us[0]) + Meant(f, raws, exps, us[1..])
  }

  /** What the program builds: a paste operator takes away the blanks in front of it. */
  function Built(f: FuncMacro, raws: seq<string>, exps: seq<string>, temp: string, us: seq<Unit>): string
    requires |raws| == |exps|
    decreases |us|
  {
    if us == [] then temp
    else Built(f, raws, exps, if us[0].Paste? then Cut(temp) else temp + Out(f, raws, exps, us[0]), us[1..])
  }

  lemma {:induction false} CommasFirst(a: string, vs: seq<string>)
    ensures Commas([a] + vs) == a + if vs == [] then "" else "," + Commas(vs)
    decreases |vs|
  {
    var all := [a] + vs;
    if |vs| == 1 {
      assert all[..1] == [a];
      assert a + "," + vs[0] == a + ("," + vs[0]);
    } else if |vs| > 1 {
      var l := |vs| - 1;
      assert all[..|all| - 1] == [a] + vs[..l];
      CommasFirst(a, vs[..l]);
      assert a + ("," + Commas(vs[..l])) + "," + vs[l] == a + ("," + (Commas(vs[..l]) + "," + vs[l]));
    }
  }

  lemma {:induction false} RestIs(f: FuncMacro, raws: seq<string>, exps: seq<string>, i: nat)
    requires |raws| == |exps| && |f.params| <= i <= |raws|
    ensures S.Rest(f, raws, exps, i) == (if |f.params| < i < |raws| then "," else "") + Commas(UsedAll(raws, exps)[i..])
    decreases |raws| - i
  {
    hide Used, Commas;
    var vs := UsedAll(raws, exps);
    if i == |raws| {
      assert vs[i..] == [] && Commas([]) == "" by { NoCommas(); }
    } else {
      RestIs(f, raws, exps, i + 1);
      RestFirst(f, raws, exps, i);
      assert vs[i..] == [vs[i]] + vs[i + 1..];
      CommasFirst(vs[i], vs[i + 1..]);
      if i + 1 == |raws| { assert vs[i + 1..] == [] && Commas([]) == "" by { NoCommas(); } }
    }
  }

  lemma {:induction false} NoCommas()
    ensures Commas([]) == ""
  {
  }

  /** The trailing arguments stand there with commas between them. */
  lemma {:induction false} TrailingIs(f: FuncMacro, raws: seq<string>, exps: seq<string>)
    requires |raws| == |exps|
    ensures S.Rest(f, raws, exps, |f.params|) == Commas(Others(f, raws, exps))
  {
    hide Commas, S.Rest;
    NoCommas();
    if |f.params| <= |raws| {
      RestIs(f, raws, exps, |f.params|);
      if |raws| == |f.params| { assert UsedAll(raws, exps)[|f.params|..] == []; }
      var t := Commas(UsedAll(raws, exps)[|f.params|..]);
      assert "" + t == t;
    } else {
      NoRest(f, raws, exps, |f.params|);
    }
  }

  // ----- One step -----

  /** Blanks end where the rest begins. */
  lemma {:induction false} SpacesEnd(t: string, i: nat, a: string, rest: string)
    requires i <= |t| && t[i..] == a + rest && Spaces(a) && (rest != "" ==> !IsSpace(rest[0]))
    ensures i + |a| <= |t| && AfterSpaces(t, i) == i + |a| && t[i + |a|..] == rest
    decreases |a|
  {
    Past(t, i, a, rest);
    if a != "" {
      assert t[i + 1..] == a[1..] + rest by { assert t[i..][1..] == (a + rest)[1..]; }
      SpacesEnd(t, i + 1, a[1..], rest);
    }
  }

  /** Blanks are copied. */
  lemma {:induction false} SpacesCopied(f: FuncMacro, raws: seq<string>, exps: seq<string>, i: nat, temp: string, a: string, rest: string)
    requires |raws| == |exps| && i <= |f.replacement| && f.replacement[i..] == a + rest && Spaces(a)
    ensures i + |a| <= |f.replacement| && From(f, raws, exps, i, temp) == From(f, raws, exps, i + |a|, temp + a)
    decreases |a|
  {
    hide NextStep;
    Past(f.replacement, i, a, rest);
    if a == "" {
      assert temp + a == temp;
    } else {
      SpaceStep(f, raws, exps, i, temp);
      assert f.replacement[i + 1..] == a[1..] + rest by { assert f.replacement[i..][1..] == (a + rest)[1..]; }
      SpacesCopied(f, raws, exps, i + 1, temp + [a[0]], a[1..], rest);
      assert temp + [a[0]] + a[1..] == temp + a;
    }
  }

  lemma {:induction false} SpaceStep(f: FuncMacro, raws: seq<string>, exps: seq<string>, i: nat, temp: string)
    requires |raws| == |exps| && i < |f.replacement| && IsSpace(f.replacement[i])
    ensures NextStep(f, raws, exps, i, temp) == Step(i + 1, temp + [f.replacement[i]])
  {
    hide VaAt;
    NoVaHere(f.replacement, i);
  }

  lemma {:induction false} FromNext(f: FuncMacro, raws: seq<string>, exps: seq<string>, i: nat, temp: string)
    requires |raws| == |exps| && i < |f.replacement|
    ensures var s := NextStep(f, raws, exps, i, temp); From(f, raws, exps, i, temp) == From(f, raws, exps, s.end, s.temp)
  {
    hide NextStep;
  }

  lemma {:induction false} CutSpaces(t: string, a: string)
    requires Spaces(a)
    ensures Cut(t + a) == Cut(t)
    decreases |a|
  {
    if a == "" {
      assert t + a == t;
    } else {
      var n := |a| - 1;
      assert (t + a)[..|t + a| - 1] == t + a[..n];
      CutSpaces(t, a[..n]);
    }
  }

  /** The paste operator, its blanks included. */
  lemma {:induction false} PasteStep(f: FuncMacro, raws: seq<string>, exps: seq<string>, i: nat, temp: string, a: string, b: string, rest: string)
    requires |raws| == |exps| && i <= |f.replacement| && f.replacement[i..] == a + ("##" + b) + rest && Spaces(a) && Spaces(b)
    requires rest != "" ==> !IsSpace(rest[0])
    ensures var e := i + |a| + 2 + |b|;
      e <= |f.replacement| && f.replacement[e..] == rest && From(f, raws, exps, i, temp) == From(f, raws, exps, e, Cut(temp))
  {
    hide From, Cut, AfterSpaces;
    var t, n := f.replacement, i + |a|;
    assert t[i..] == a + ("##" + (b + rest));
    Past(t, i, a, "##" + (b + rest));
    SpacesCopied(f, raws, exps, i, temp, a, "##" + (b + rest));
    Past(t, n, "##", b + rest);
    assert t[n] == '#' && t[n + 1] == t[n..n + 2][1] == '#';
    SpacesEnd(t, n + 2, b, rest);
    HashesStep(f, raws, exps, n, temp + a);
    FromNext(f, raws, exps, n, temp + a);
    CutSpaces(temp, a);
  }

  lemma {:induction false} HashesStep(f: FuncMacro, raws: seq<string>, exps: seq<string>, i: nat, temp: string)
    requires |raws| == |exps| && i + 1 < |f.replacement| && f.replacement[i] == '#' && f.replacement[i + 1] == '#'
    ensures NextStep(f, raws, exps, i, temp) == Step(AfterSpaces(f.replacement, i + 2), Cut(temp))
  {
    hide VaAt;
    NoVaHere(f.replacement, i);
  }

  lemma {:induction false} LetterStep(f: FuncMacro, raws: seq<string>, exps: seq<string>, i: nat, temp: string, u: string, rest: string)
    requires |raws| == |exps| && i <= |f.replacement| && f.replacement[i..] == u + rest && M.IsLetterText(u)
    ensures i + |u| <= |f.replacement| && i < |f.replacement| && f.replacement[i + |u|..] == rest
    ensures NextStep(f, raws, exps, i, temp) == Step(i + |u|, temp + u)
  {
    hide C.CharacterEnd;
    Past(f.replacement, i, u, rest);
    M.LetterPassed(f.replacement, i, u);
  }

  lemma {:induction false} QuoteUnit(f: FuncMacro, raws: seq<string>, exps: seq<string>, i: nat, temp: string, a: string, j: nat, rest: string)
    requires |raws| == |exps| && i <= |f.replacement| && j < |f.params| && Spaces(a)
    requires f.replacement[i..] == "#" + (a + f.params[j]) + rest
    requires (forall p, q :: 0 <= p < q < |f.params| ==> f.params[p] != f.params[q]) && IsWord(f.params[j])
    requires rest != "" ==> !IsIdChar(rest[0])
    ensures var e := i + 1 + |a| + |f.params[j]|;
      && e <= |f.replacement| && i < |f.replacement| && f.replacement[e..] == rest
      && NextStep(f, raws, exps, i, temp) == Step(e, temp + if j < |raws| then S.Quoted(raws[j]) else "")
  {
    hide NextStep, IsWord, S.Quoted;
    QuotedWhere(f.replacement, i, a, f.params[j], rest);
    ParamAt(f.params, j);
    QuoteNext(f, raws, exps, i, temp, i + 1 + |a|, i + 1 + |a| + |f.params[j]|, j);
  }

  /** Where the pieces of a quoted parameter stand. */
  lemma {:induction false} QuotedWhere(t: string, i: nat, a: string, w: string, rest: string)
    requires i <= |t| && Spaces(a) && t[i..] == "#" + (a + w) + rest && IsWord(w) && (rest != "" ==> !IsIdChar(rest[0]))
    ensures var n, e := i + 1 + |a|, i + 1 + |a| + |w|;
      && e <= |t| && t[i] == '#' && t[i + 1] != '#' && AfterSpaces(t, i + 1) == n && IdEnd(t, n) == e && t[n..e] == w && n < e
      && t[e..] == rest
  {
    hide AfterSpaces, IdEnd;
    Regroup3("#", a, w, rest);
    Past(t, i, "#", a + (w + rest));
    WordStart(w, rest);
    SpacesEnd(t, i + 1, a, w + rest);
    WordAt(t, i + 1 + |a|, w, rest);
    NotHash(a, w + rest);
  }

  lemma {:induction false} NotHash(a: string, x: string)
    requires Spaces(a) && x != "" && x[0] != '#'
    ensures a + x != "" && (a + x)[0] != '#'
  {
  }

  lemma {:induction false} Regroup3(a: string, b: string, c: string, d: string)
    ensures a + (b + c) + d == a + (b + (c + d))
  {
  }

  lemma {:induction false} QuoteNext(f: FuncMacro, raws: seq<string>, exps: seq<string>, i: nat, temp: string, n: nat, e: nat, j: nat)
    requires |raws| == |exps| && i + 1 < |f.replacement| && f.replacement[i] == '#' && f.replacement[i + 1] != '#'
    requires AfterSpaces(f.replacement, i + 1) == n && IdEnd(f.replacement, n) == e && n < e && j < |f.params|
    requires ParamIndex(f.params, f.replacement[n..e]) == j
    ensures NextStep(f, raws, exps, i, temp) == Step(e, temp + if j < |raws| then S.Quoted(raws[j]) else "")
  {
    hide AfterSpaces, IdEnd, ParamIndex, VaAt, S.Quoted, S.Rest, VaComma, C.StringEnd, C.CharacterEnd;
    NoVaHere(f.replacement, i);
    if j >= |raws| { assert temp + "" == temp; }
  }

  lemma {:induction false} WordStart(w: string, rest: string)
    requires IsWord(w)
    ensures (w + rest)[0] == w[0] && !IsSpace(w[0]) && w[0] != '#'
  {
  }

  lemma {:induction false} TrailingStep(f: FuncMacro, raws: seq<string>, exps: seq<string>, i: nat, temp: string, rest: string)
    requires |raws| == |exps| && i <= |f.replacement| && f.variadic && f.replacement[i..] == VA_ARGS + rest
    ensures i + 11 <= |f.replacement| && f.replacement[i + 11..] == rest
    ensures NextStep(f, raws, exps, i, temp) == Step(i + 11, temp + Commas(Others(f, raws, exps)))
  {
    hide S.Rest, Commas, Others;
    Past(f.replacement, i, VA_ARGS, rest);
    TrailingIs(f, raws, exps);
  }

  lemma {:induction false} CommaUnit(f: FuncMacro, raws: seq<string>, exps: seq<string>, i: nat, temp: string, a: string, b: string, rest: string)
    requires |raws| == |exps| && i <= |f.replacement| && f.variadic && Spaces(a) && Spaces(b)
    requires f.replacement[i..] == "," + (a + ("##" + (b + VA_ARGS))) + rest
    ensures var e := i + 14 + |a| + |b|;
      && e <= |f.replacement| && i < |f.replacement| && f.replacement[e..] == rest
      && NextStep(f, raws, exps, i, temp) == Step(e, temp + if |raws| == |f.params| then "" else "," + Commas(Others(f, raws, exps)))
  {
    hide S.Rest, Commas, Others, VaComma, UsedAll;
    CommaWhere(f.replacement, i, a, b, rest);
    TrailingIs(f, raws, exps);
    CommaNext(f, raws, exps, i, temp);
    var o := Commas(Others(f, raws, exps));
    assert temp + "," + o == temp + ("," + o) && temp + "" == temp;
  }

  lemma {:induction false} CommaWhere(t: string, i: nat, a: string, b: string, rest: string)
    requires i <= |t| && Spaces(a) && Spaces(b) && t[i..] == "," + (a + ("##" + (b + VA_ARGS))) + rest
    ensures var e := i + 14 + |a| + |b|; e <= |t| && t[i] == ',' && VaComma(t, i) == e && t[e..] == rest
  {
    hide AfterSpaces, PasteAt, VaAt;
    var n := i + 1 + |a|;
    CommaGroups(a, "##", b, VA_ARGS, rest);
    CommaPlaces(t, i, a, "##", b, VA_ARGS, rest);
    assert PasteAt(t, n) by { TwoHashes(t, n); }
    assert VaAt(t, n + 2 + |b|) by { VaThere(t, n + 2 + |b|); }
  }

  lemma {:induction false} TwoHashes(t: string, n: nat)
    requires n + 2 <= |t| && t[n..n + 2] == "##"
    ensures PasteAt(t, n)
  {
    assert t[n] == t[n..n + 2][0] && t[n + 1] == t[n..n + 2][1];
  }

  lemma {:induction false} VaThere(t: string, n: nat)
    requires n + 11 <= |t| && t[n..n + 11] == VA_ARGS
    ensures VaAt(t, n)
  {
  }

  lemma {:induction false} CommaPlaces(t: string, i: nat, a: string, h: string, b: string, v: string, rest: string)
    requires i <= |t| && Spaces(a) && Spaces(b) && t[i..] == "," + (a + (h + (b + (v + rest))))
    requires h != "" && !IsSpace(h[0]) && v != "" && !IsSpace(v[0])
    ensures var n, m := i + 1 + |a|, i + 1 + |a| + |h| + |b|;
      && m + |v| <= |t| && t[i] == ',' && AfterSpaces(t, i + 1) == n && t[n..n + |h|] == h
      && AfterSpaces(t, n + |h|) == m && t[m..m + |v|] == v && t[m + |v|..] == rest
  {
    hide AfterSpaces, Spaces;
    SignThenSpaces(t, i, ",", a, h + (b + (v + rest)));
    SignThenSpaces(t, i + 1 + |a|, h, b, v + rest);
    Past(t, i + 1 + |a| + |h| + |b|, v, rest);
  }

  lemma {:induction false} CommaGroups(a: string, h: string, b: string, v: string, rest: string)
    ensures "," + (a + (h + (b + v))) + rest == "," + (a + (h + (b + (v + rest))))
  {
    Regroup3(h, b, v, rest);
    Regroup3(",", a, h + (b + v), rest);
  }

  lemma {:induction false} SignThenSpaces(t: string, i: nat, h: string, a: string, x: string)
    requires i <= |t| && t[i..] == h + (a + x) && h != "" && Spaces(a) && (x != "" ==> !IsSpace(x[0]))
    ensures var n := i + |h| + |a|; n <= |t| && t[i] == h[0] && t[i..i + |h|] == h && AfterSpaces(t, i + |h|) == n && t[n..] == x
  {
    hide AfterSpaces, Spaces;
    Past(t, i, h, a + x);
    SpacesEnd(t, i + |h|, a, x);
  }

  lemma {:induction false} CommaNext(f: FuncMacro, raws: seq<string>, exps: seq<string>, i: nat, temp: string)
    requires |raws| == |exps| && i < |f.replacement| && f.variadic && f.replacement[i] == ',' && VaComma(f.replacement, i) != 0
    ensures NextStep(f, raws, exps, i, temp)
      == Step(VaComma(f.replacement, i), if |raws| == |f.params| then temp else temp + "," + S.Rest(f, raws, exps, |f.params|))
  {
    hide VaComma, S.Rest, VaAt, C.StringEnd, C.CharacterEnd;
  }

  // ----- All steps -----

  /** Behind blanks no paste operator comes up unless one was written there. */
  lemma {:induction false} NoPaste(f: FuncMacro, us: seq<Unit>, t: string, i: nat)
    requires Formed(f, us) && i <= |t| && t[i..] == UnitsText(f.params, us) && (us != [] ==> !us[0].Paste?)
    ensures !PasteAt(t, AfterSpaces(t, i))
    decreases |us|
  {
    hide UnitOk, Follows, IsWord, UnitText;
    if us == [] {
      assert t[i..] == "";
    } else {
      var x, rest := UnitText(f.params, us[0]), UnitsText(f.params, us[1..]);
      FormedRest(f, us);
      Past(t, i, x, rest);
      if IsGap(us[0]) {
        GapText(f, us[0]);
        if |us| > 1 { assert us[1..][0] == us[1]; GapFollows(f, us[0], us[1]); }
        NoPaste(f, us[1..], t, i + 1);
      } else {
        UnitStarts(f, us[0]);
        if |x| > 1 { assert t[i + 1] == t[i..i + |x|][1] == x[1]; }
        assert x[0] == '#' ==> us[0].Quote?;
      }
    }
  }

  lemma {:induction false} GapText(f: FuncMacro, u: Unit)
    requires IsGap(u)
    ensures |UnitText(f.params, u)| == 1 && IsSpace(UnitText(f.params, u)[0])
  {
  }

  lemma {:induction false} GapFollows(f: FuncMacro, u: Unit, v: Unit)
    requires IsGap(u) && Follows(f, u, v)
    ensures !v.Paste?
  {
  }

  /** A unit other than a gap and a paste operator starts with no blank, and with # only if
      it quotes; then no second one follows. */
  lemma {:induction false} UnitStarts(f: FuncMacro, u: Unit)
    requires UnitOk(f, u) && !IsGap(u) && !u.Paste? && forall i :: 0 <= i < |f.params| ==> IsWord(f.params[i])
    ensures var x := UnitText(f.params, u); x != "" && !IsSpace(x[0]) && (x[0] == '#' ==> u.Quote? && |x| > 1 && x[1] != '#')
  {
    match u {
      case Bare(x) => if x.Parameter? { WordStart(f.params[x.j], ""); } else if x.Word? { WordStart(x.w, ""); }
      case Quote(a, j) =>
        WordStart(f.params[j], "");
        if a != "" { assert IsSpace(a[0]); }
      case _ =>
    }
  }

  /** From position i the scan gets behind u, where the rest stands. */
  ghost predicate Steps(f: FuncMacro, raws: seq<string>, exps: seq<string>, i: nat, temp: string, u: Unit, rest: string)
    requires |raws| == |exps|
  {
    var e := i + |UnitText(f.params, u)|;
    && e <= |f.replacement| && f.replacement[e..] == rest
    && From(f, raws, exps, i, temp) == From(f, raws, exps, e, if u.Paste? then Cut(temp) else temp + Out(f, raws, exps, u))
  }

  lemma {:induction false} QuoteSteps(f: FuncMacro, raws: seq<string>, exps: seq<string>, i: nat, temp: string, u: Unit, rest: string)
    requires |raws| == |exps| && i <= |f.replacement| && f.replacement[i..] == UnitText(f.params, u) + rest
    requires u.Quote? && UnitOk(f, u) && Formed(f, []) && (rest != "" ==> !IsIdChar(rest[0]))
    ensures Steps(f, raws, exps, i, temp, u, rest)
  {
    hide From, NextStep, S.Quoted, IsWord;
    QuoteUnit(f, raws, exps, i, temp, u.a, u.j, rest);
    FromNext(f, raws, exps, i, temp);
  }

  lemma {:induction false} PasteSteps(f: FuncMacro, raws: seq<string>, exps: seq<string>, i: nat, temp: string, u: Unit, rest: string)
    requires |raws| == |exps| && i <= |f.replacement| && f.replacement[i..] == UnitText(f.params, u) + rest
    requires u.Paste? && UnitOk(f, u) && (rest != "" ==> !IsSpace(rest[0]))
    ensures Steps(f, raws, exps, i, temp, u, rest)
  {
    hide From, Cut;
    PasteStep(f, raws, exps, i, temp, u.a, u.b, rest);
  }

  lemma {:induction false} OtherSteps(f: FuncMacro, raws: seq<string>, exps: seq<string>, i: nat, temp: string, u: Unit, rest: string)
    requires |raws| == |exps| && i <= |f.replacement| && f.replacement[i..] == UnitText(f.params, u) + rest
    requires UnitOk(f, u) && (u.Letter? || u.Trailing? || u.CommaTrailing?)
    ensures Steps(f, raws, exps, i, temp, u, rest)
  {
    hide From, NextStep, Commas, Others, Spaces, M.IsLetterText;
    match u {
      case Letter(t) => LetterStep(f, raws, exps, i, temp, t, rest);
      case Trailing => TrailingStep(f, raws, exps, i, temp, rest);
      case CommaTrailing(a, b) => CommaUnit(f, raws, exps, i, temp, a, b, rest);
    }
    FromNext(f, raws, exps, i, temp);
  }

  /** One unit is one step, or some for a paste operator. */
  lemma {:induction false} UnitStep(f: FuncMacro, raws: seq<string>, exps: seq<string>, i: nat, temp: string, us: seq<Unit>)
    requires |raws| == |exps| && i <= |f.replacement| && us != [] && Formed(f, us) && f.replacement[i..] == UnitsText(f.params, us)
    ensures Steps(f, raws, exps, i, temp, us[0], UnitsText(f.params, us[1..]))
  {
    hide Steps, UnitsText, UnitText, UnitOk, IsWord;
    var u, rest := us[0], UnitsText(f.params, us[1..]);
    UnitsFirst(f.params, us);
    FormedRest(f, us);
    Behind(f, us);
    if u.Bare? { BareStep(f, raws, exps, i, temp, us); }
    else if u.Quote? { QuoteSteps(f, raws, exps, i, temp, u, rest); }
    else if u.Paste? { PasteSteps(f, raws, exps, i, temp, u, rest); }
    else { OtherSteps(f, raws, exps, i, temp, u, rest); }
  }

  lemma {:induction false} UnitsFirst(params: seq<string>, us: seq<Unit>)
    requires us != []
    ensures UnitsText(params, us) == UnitText(params, us[0]) + UnitsText(params, us[1..])
  {
  }

  /** How the text behind the first unit starts. */
  lemma {:induction false} Behind(f: FuncMacro, us: seq<Unit>)
    requires us != [] && Formed(f, us)
    ensures var rest := UnitsText(f.params, us[1..]);
      && (EndsName(us[0]) && rest != "" ==> !IsIdChar(rest[0]))
      && (us[0].Paste? && rest != "" ==> !IsSpace(rest[0]))
  {
    hide UnitsText, UnitText, UnitOk;
    FormedRest(f, us);
    if |us| == 1 {
      NoUnits(f.params);
      assert us[1..] == [];
    } else {
      assert us[1..][0] == us[1];
      UnitsFirst(f.params, us[1..]);
      FormedRest(f, us[1..]);
      FirstChar(f, us[1]);
      if us[0].Paste? { UnitStarts(f, us[1]); }
    }
  }

  lemma {:induction false} NoUnits(params: seq<string>)
    ensures UnitsText(params, []) == ""
  {
  }

  lemma {:induction false} FirstChar(f: FuncMacro, u: Unit)
    requires UnitOk(f, u) && forall i :: 0 <= i < |f.params| ==> IsWord(f.params[i])
    ensures UnitText(f.params, u) != "" && (!StartsName(u) ==> !IsIdChar(UnitText(f.params, u)[0]))
  {
    match u {
      case Bare(x) => if x.Word? { WordStart(x.w, ""); } else if x.Parameter? { WordStart(f.params[x.j], ""); }
      case Paste(a, b) => if a != "" { assert IsSpace(a[0]); }
      case _ =>
    }
  }

  lemma {:induction false} BareStep(f: FuncMacro, raws: seq<string>, exps: seq<string>, i: nat, temp: string, us: seq<Unit>)
    requires |raws| == |exps| && i <= |f.replacement| && us != [] && Formed(f, us) && f.replacement[i..] == UnitsText(f.params, us)
    requires us[0].Bare?
    ensures Steps(f, raws, exps, i, temp, us[0], UnitsText(f.params, us[1..]))
  {
    hide From, NextStep, UnitsText, Used, IsWord, PartOk, VaComma, Follows;
    var x, rest := us[0].x, UnitsText(f.params, us[1..]);
    UnitsFirst(f.params, us);
    FormedRest(f, us);
    Behind(f, us);
    BareOk(f, us[0]);
    Past(f.replacement, i, PartText(f.params, x), rest);
    if f.variadic && x == Mark(',') {
      CommaBare(f, us);
      NoPaste(f, us[1..], f.replacement, i + 1);
      CommaAlone(f.replacement, i);
    }
    PartStep(f, raws, exps, i, temp, x, rest);
    FromNext(f, raws, exps, i, temp);
  }

  lemma {:induction false} BareOk(f: FuncMacro, u: Unit)
    requires UnitOk(f, u) && u.Bare? && Formed(f, [])
    ensures PlainParts(f.params, [u.x]) && (f.variadic ==> VaFree(f.params, u.x))
  {
    hide IsWord, PartOk, VaFree;
  }

  lemma {:induction false} CommaBare(f: FuncMacro, us: seq<Unit>)
    requires us != [] && Formed(f, us) && f.variadic && us[0] == Bare(Mark(','))
    ensures us[1..] != [] ==> !us[1..][0].Paste?
  {
    if |us| > 1 { assert Follows(f, us[0], us[1]) && us[1..][0] == us[1]; }
  }

  lemma {:induction false} CommaAlone(t: string, i: nat)
    requires i < |t| && !PasteAt(t, AfterSpaces(t, i + 1))
    ensures VaComma(t, i) == 0
  {
  }

  lemma {:induction false} UnitsFrom(f: FuncMacro, raws: seq<string>, exps: seq<string>, i: nat, temp: string, us: seq<Unit>)
    requires |raws| == |exps| && i <= |f.replacement| && Formed(f, us) && f.replacement[i..] == UnitsText(f.params, us)
    ensures From(f, raws, exps, i, temp) == Built(f, raws, exps, temp, us)
    decreases |us|
  {
    hide Formed, NextStep, UnitText, Cut, Out;
    if us == [] {
      assert f.replacement[i..] == "";
    } else {
      UnitStep(f, raws, exps, i, temp, us);
      FormedRest(f, us);
      UnitsFrom(f, raws, exps, i + |UnitText(f.params, us[0])|, if us[0].Paste? then Cut(temp) else temp + Out(f, raws, exps, us[0]), us[1..]);
    }
  }

  // ----- Pasting -----

  predicate EndsSpace(t: string) { t != "" && IsSpace(t[|t| - 1]) }

  /** Cutting takes away all the blanks at the end and nothing else. */
  lemma {:induction false} CutIs(t: string)
    ensures Cut(t) <= t && Spaces(t[|Cut(t)|..]) && !EndsSpace(Cut(t)) && (Cut(t) == t <==> !EndsSpace(t))
    decreases |t|
  {
    if EndsSpace(t) {
      var p := t[..|t| - 1];
      CutIs(p);
      assert t[|Cut(p)|..] == p[|Cut(p)|..] + [t[|t| - 1]];
    }
  }

  /** No paste operator finds a blank in front of it. */
  ghost predicate Apart(f: FuncMacro, raws: seq<string>, exps: seq<string>, temp: string, us: seq<Unit>)
    requires |raws| == |exps|
  {
    forall k :: 0 <= k < |us| && us[k].Paste? ==> !EndsSpace(temp + Meant(f, raws, exps, us[..k]))
  }

  lemma {:induction false} ApartRest(f: FuncMacro, raws: seq<string>, exps: seq<string>, temp: string, us: seq<Unit>)
    requires |raws| == |exps| && us != []
    ensures Apart(f, raws, exps, temp, us) <==>
      (us[0].Paste? ==> !EndsSpace(temp)) && Apart(f, raws, exps, temp + Out(f, raws, exps, us[0]), us[1..])
  {
    hide Out, EndsSpace, Meant;
    var t2 := temp + Out(f, raws, exps, us[0]);
    assert us[..0] == [] && Meant(f, raws, exps, []) == "" by { MeantNone(f, raws, exps); }
    assert temp + "" == temp;
    forall k | 0 < k < |us| ensures temp + Meant(f, raws, exps, us[..k]) == t2 + Meant(f, raws, exps, us[1..][..k - 1]) {
      assert us[..k][0] == us[0] && us[..k][1..] == us[1..][..k - 1];
      MeantFirst(f, raws, exps, us[..k]);
      M3(temp, Out(f, raws, exps, us[0]), Meant(f, raws, exps, us[1..][..k - 1]));
    }
    forall k | 0 <= k < |us[1..]| ensures us[1..][k] == us[k + 1] {}
    if Apart(f, raws, exps, temp, us) {
      forall k | 0 <= k < |us[1..]| && us[1..][k].Paste? ensures !EndsSpace(t2 + Meant(f, raws, exps, us[1..][..k])) {
        assert us[k + 1].Paste? && us[1..][..k + 1 - 1] == us[1..][..k];
      }
    }
    if Apart(f, raws, exps, t2, us[1..]) && (us[0].Paste? ==> !EndsSpace(temp)) {
      forall k | 0 <= k < |us| && us[k].Paste? ensures !EndsSpace(temp + Meant(f, raws, exps, us[..k])) {
        if k > 0 { assert us[1..][k - 1].Paste?; }
      }
    }
  }

  lemma {:induction false} M3(a: string, b: string, c: string)
    ensures a + (b + c) == a + b + c
  {
  }

  lemma {:induction false} MeantNone(f: FuncMacro, raws: seq<string>, exps: seq<string>)
    requires |raws| == |exps|
    ensures Meant(f, raws, exps, []) == ""
  {
  }

  lemma {:induction false} MeantFirst(f: FuncMacro, raws: seq<string>, exps: seq<string>, us: seq<Unit>)
    requires |raws| == |exps| && us != []
    ensures Meant(f, raws, exps, us) == Out(f, raws, exps, us[0]) + Meant(f, raws, exps, us[1..])
  {
    hide Out;
  }

  lemma {:induction false} BuiltExactly(f: FuncMacro, raws: seq<string>, exps: seq<string>, temp: string, us: seq<Unit>)
    requires |raws| == |exps|
    ensures var b, m := Built(f, raws, exps, temp, us), temp + Meant(f, raws, exps, us);
      |b| <= |m| && (b == m <==> Apart(f, raws, exps, temp, us))
    decreases |us|
  {
    hide Out, Cut, Apart;
    if us == [] {
      assert temp + "" == temp;
      assert Apart(f, raws, exps, temp, us) by { NothingApart(f, raws, exps, temp); }
    } else {
      var o, m := Out(f, raws, exps, us[0]), Meant(f, raws, exps, us[1..]);
      ApartRest(f, raws, exps, temp, us);
      M3(temp, o, m);
      if us[0].Paste? {
        assert o == "" by { PasteOut(f, raws, exps, us[0]); }
        assert temp + o == temp && temp + (o + m) == temp + m;
        CutIs(temp);
        BuiltExactly(f, raws, exps, Cut(temp), us[1..]);
      } else {
        BuiltExactly(f, raws, exps, temp + o, us[1..]);
      }
    }
  }

  lemma {:induction false} PasteOut(f: FuncMacro, raws: seq<string>, exps: seq<string>, u: Unit)
    requires |raws| == |exps| && u.Paste?
    ensures Out(f, raws, exps, u) == ""
  {
  }

  lemma {:induction false} NothingApart(f: FuncMacro, raws: seq<string>, exps: seq<string>, temp: string)
    requires |raws| == |exps|
    ensures Apart(f, raws, exps, temp, [])
  {
  }

  /** The substituted text is what its units put out, pasted neighbours with nothing between
      them, if and only if no paste operator finds a blank in front of it. */
  lemma {:induction false} OperatorsExactly(f: FuncMacro, raws: seq<string>, exps: seq<string>, us: seq<Unit>)
    requires |raws| == |exps| && f.replacement == UnitsText(f.params, us) && Formed(f, us)
    ensures Substituted(f, raws, exps) == Built(f, raws, exps, "", us)
    ensures Substituted(f, raws, exps) == Meant(f, raws, exps, us) <==> Apart(f, raws, exps, "", us)
  {
    hide From, UnitsText, Meant, Built, Formed, Apart;
    assert f.replacement[0..] == f.replacement;
    UnitsFrom(f, raws, exps, 0, "", us);
    BuiltExactly(f, raws, exps, "", us);
    var m := Meant(f, raws, exps, us);
    assert "" + m == m;
  }

  /** So it is as long as no operand in front of a paste operator is empty or ends with a
      blank. */
  lemma {:induction false} SolidOperands(f: FuncMacro, raws: seq<string>, exps: seq<string>, us: seq<Unit>)
    requires |raws| == |exps| && f.replacement == UnitsText(f.params, us) && Formed(f, us) && (us != [] ==> !us[0].Paste?)
    requires forall k :: 0 < k < |us| && us[k].Paste? ==> var o := Out(f, raws, exps, us[k - 1]); o != "" && !IsSpace(o[|o| - 1])
    ensures Substituted(f, raws, exps) == Meant(f, raws, exps, us)
  {
    hide Substituted, UnitsText, Meant, Built, Formed, Out;
    OperatorsExactly(f, raws, exps, us);
    forall k | 0 <= k < |us| && us[k].Paste? ensures !EndsSpace("" + Meant(f, raws, exps, us[..k])) {
      assert us[..k][..k - 1] == us[..k - 1] && us[..k][k - 1] == us[k - 1];
      MeantSnoc(f, raws, exps, us[..k]);
      var o, m := Out(f, raws, exps, us[k - 1]), Meant(f, raws, exps, us[..k]);
      assert m[|m| - 1] == o[|o| - 1];
      assert "" + m == m;
    }
  }

  lemma {:induction false} MeantSnoc(f: FuncMacro, raws: seq<string>, exps: seq<string>, us: seq<Unit>)
    requires |raws| == |exps| && us != []
    ensures Meant(f, raws, exps, us) == Meant(f, raws, exps, us[..|us| - 1]) + Out(f, raws, exps, us[|us| - 1])
    decreases |us|
  {
    hide Out, Meant;
    MeantFirst(f, raws, exps, us);
    if |us| == 1 {
      MeantNone(f, raws, exps);
      assert us[1..] == [] && us[..0] == [];
      assert Out(f, raws, exps, us[0]) + "" == "" + Out(f, raws, exps, us[0]);
    } else {
      var n := |us| - 1;
      MeantSnoc(f, raws, exps, us[1..]);
      assert us[1..][..n - 1] == us[..n][1..] && us[1..][n - 1] == us[n];
      MeantFirst(f, raws, exps, us[..n]);
      M3(Out(f, raws, exps, us[0]), Meant(f, raws, exps, us[1..n]), Out(f, raws, exps, us[n]));
      assert us[..n][1..] == us[1..n];
    }
  }

  /** An empty operand behind a blank: x a##b with nothing for a is x and b run together,
      two words in C. */
  lemma {:induction false} EmptyLeft(b: string)
    requires b != ""
    ensures var f, us := FuncMacro("F", ["a", "b"], false, "x a##b"),
        [Bare(Word("x")), Bare(Mark(' ')), Bare(Parameter(0)), Paste("", ""), Bare(Parameter(1))];
      && f.replacement == UnitsText(f.params, us) && Meant(f, ["", b], ["", b], us) == "x " + b
      && Substituted(f, ["", b], ["", b]) == "x" + b
  {
    hide From, Substituted, Formed, Built, Apart, Meant;
    var f, us := FuncMacro("F", ["a", "b"], false, "x a##b"),
        [Bare(Word("x")), Bare(Mark(' ')), Bare(Parameter(0)), Paste("", ""), Bare(Parameter(1))];
    EmptyLeftUnits(f, us);
    OperatorsExactly(f, ["", b], ["", b], us);
    EmptyLeftBuilt(f, b, us);
    EmptyLeftMeant(f, b, us);
  }

  lemma {:induction false} EmptyLeftBuilt(f: FuncMacro, b: string, us: seq<Unit>)
    requires us == [Bare(Word("x")), Bare(Mark(' ')), Bare(Parameter(0)), Paste("", ""), Bare(Parameter(1))]
    ensures Built(f, ["", b], ["", b], "", us) == "x" + b
  {
    hide Built;
    var r := ["", b];
    assert us[1..] == [us[1], us[2], us[3], us[4]] && us[1..][1..] == [us[2], us[3], us[4]];
    assert us[1..][1..][1..] == [us[3], us[4]] && us[1..][1..][1..][1..] == [us[4]] && us[1..][1..][1..][1..][1..] == [];
    BuiltNext(f, r, r, "", us);
    BuiltNext(f, r, r, "x", us[1..]);
    BuiltNext(f, r, r, "x ", us[1..][1..]);
    BuiltNext(f, r, r, "x ", us[1..][1..][1..]);
    CutX();
    BuiltNext(f, r, r, "x", us[1..][1..][1..][1..]);
    BuiltNext(f, r, r, "x" + b, []);
    assert "" + "x" == "x" && "x" + " " == "x " && "x " + "" == "x ";
  }

  lemma {:induction false} EmptyLeftMeant(f: FuncMacro, b: string, us: seq<Unit>)
    requires us == [Bare(Word("x")), Bare(Mark(' ')), Bare(Parameter(0)), Paste("", ""), Bare(Parameter(1))]
    ensures Meant(f, ["", b], ["", b], us) == "x " + b
  {
    hide Meant;
    var r := ["", b];
    assert us[1..] == [us[1], us[2], us[3], us[4]] && us[1..][1..] == [us[2], us[3], us[4]];
    assert us[1..][1..][1..] == [us[3], us[4]] && us[1..][1..][1..][1..] == [us[4]] && us[1..][1..][1..][1..][1..] == [];
    MeantFirst(f, r, r, us); MeantFirst(f, r, r, us[1..]); MeantFirst(f, r, r, us[1..][1..]);
    MeantFirst(f, r, r, us[1..][1..][1..]); MeantFirst(f, r, r, us[1..][1..][1..][1..]);
    MeantNone(f, r, r);
    assert b + "" == b && "" + b == b;
  }

  lemma {:induction false} CutX()
    ensures Cut("x ") == "x"
  {
    assert "x "[..1] == "x";
  }

  lemma {:induction false} EmptyLeftUnits(f: FuncMacro, us: seq<Unit>)
    requires f == FuncMacro("F", ["a", "b"], false, "x a##b")
    requires us == [Bare(Word("x")), Bare(Mark(' ')), Bare(Parameter(0)), Paste("", ""), Bare(Parameter(1))]
    ensures Formed(f, us) && f.replacement == UnitsText(f.params, us)
  {
    var p := f.params;
    assert us[1..] == [us[1], us[2], us[3], us[4]];
    assert us[1..][1..] == [us[2], us[3], us[4]];
    assert us[1..][1..][1..] == [us[3], us[4]];
    assert us[1..][1..][1..][1..] == [us[4]];
    assert us[1..][1..][1..][1..][1..] == [];
    assert UnitsText(p, us[1..][1..][1..][1..]) == "b";
    assert UnitsText(p, us[1..][1..][1..]) == "##b";
    assert UnitsText(p, us[1..][1..]) == "a##b";
    assert UnitsText(p, us[1..]) == " a##b";
  }

  lemma {:induction false} BuiltNext(f: FuncMacro, raws: seq<string>, exps: seq<string>, temp: string, us: seq<Unit>)
    requires |raws| == |exps|
    ensures Built(f, raws, exps, temp, us) ==
      if us == [] then temp
      else Built(f, raws, exps, if us[0].Paste? then Cut(temp) else temp + Out(f, raws, exps, us[0]), us[1..])
  {
    hide Cut, Out;
  }

  // ----- The operands of a paste operator -----

  /** Unit k is a parameter next to a paste operator, and has an argument. */
  predicate Pasted(raws: seq<string>, us: seq<Unit>, k: nat)
    requires k < |us|
  {
    && us[k].Bare? && us[k].x.Parameter? && us[k].x.j < |raws|
    && ((k > 0 && us[k - 1].Paste?) || (k + 1 < |us| && us[k + 1].Paste?))
  }

  /** What C puts there: section 6.10.3.1 of ISO C11 leaves the arguments of parameters next
      to a paste operator as they are. */
  function OutC(f: FuncMacro, raws: seq<string>, exps: seq<string>, us: seq<Unit>, k: nat): string
    requires |raws| == |exps| && k < |us|
  {
    if Pasted(raws, us, k) then raws[us[k].x.j] else Out(f, raws, exps, us[k])
  }

  function MeantC(f: FuncMacro, raws: seq<string>, exps: seq<string>, us: seq<Unit>, k: nat): string
    requires |raws| == |exps| && k <= |us|
    decreases |us| - k
  {
    if k == |us| then "" else OutC(f, raws, exps, us, k) + MeantC(f, raws, exps, us, k + 1)
  }

  /** Expansion leaves the argument as it is. */
  predicate Unchanged(raws: seq<string>, exps: seq<string>, us: seq<Unit>, k: nat)
    requires |raws| == |exps| && k < |us|
  {
    Pasted(raws, us, k) ==> Used(raws[us[k].x.j], exps[us[k].x.j]) == raws[us[k].x.j]
  }

  lemma {:induction false} OutUnchanged(f: FuncMacro, raws: seq<string>, exps: seq<string>, us: seq<Unit>, k: nat)
    requires |raws| == |exps| && k < |us|
    ensures OutC(f, raws, exps, us, k) == Out(f, raws, exps, us[k]) <==> Unchanged(raws, exps, us, k)
  {
    hide Used, Commas, Others;
  }

  lemma {:induction false} SameFrom(f: FuncMacro, raws: seq<string>, exps: seq<string>, us: seq<Unit>, k: nat)
    requires |raws| == |exps| && k <= |us| && forall j :: k <= j < |us| ==> Unchanged(raws, exps, us, j)
    ensures MeantC(f, raws, exps, us, k) == Meant(f, raws, exps, us[k..])
    decreases |us| - k
  {
    hide Out, OutC, Unchanged, Meant;
    if k == |us| {
      MeantNone(f, raws, exps);
      assert us[k..] == [];
    } else {
      SameFrom(f, raws, exps, us, k + 1);
      OutUnchanged(f, raws, exps, us, k);
      MeantFirst(f, raws, exps, us[k..]);
      assert us[k..][0] == us[k] && us[k..][1..] == us[k + 1..];
    }
  }

  lemma {:induction false} Cancels(a: string, x: string, y: string, b: string)
    ensures a + (x + b) == a + (y + b) <==> x == y
  {
    if a + (x + b) == a + (y + b) {
      assert x + b == (a + (x + b))[|a|..] == (a + (y + b))[|a|..] == y + b;
      assert |x| == |y|;
      assert x == (x + b)[..|x|] == (y + b)[..|y|] == y;
    }
  }

  lemma {:induction false} RawFrom(f: FuncMacro, raws: seq<string>, exps: seq<string>, us: seq<Unit>, k0: nat, k: nat)
    requires |raws| == |exps| && k <= k0 < |us| && forall j :: k <= j < |us| && j != k0 ==> Unchanged(raws, exps, us, j)
    ensures MeantC(f, raws, exps, us, k) == Meant(f, raws, exps, us[k..]) <==> Unchanged(raws, exps, us, k0)
    decreases k0 - k
  {
    hide Out, OutC, Unchanged, Meant;
    var o, p := OutC(f, raws, exps, us, k), Out(f, raws, exps, us[k]);
    OutUnchanged(f, raws, exps, us, k);
    MeantFirst(f, raws, exps, us[k..]);
    assert us[k..][0] == us[k] && us[k..][1..] == us[k + 1..];
    var m := Meant(f, raws, exps, us[k + 1..]);
    if k == k0 {
      SameFrom(f, raws, exps, us, k + 1);
      Cancels("", o, p, m);
      assert "" + (o + m) == o + m && "" + (p + m) == p + m;
    } else {
      RawFrom(f, raws, exps, us, k0, k + 1);
      var n := MeantC(f, raws, exps, us, k + 1);
      Cancels(o, m, n, "");
      assert m + "" == m && n + "" == n;
    }
  }

  /** The arguments of pasted parameters are expanded first, which C does not do.  If at
      most one of them, the one at k0, is changed by that, the text is what C asks for if
      and only if it is not. */
  lemma {:induction false} RawExactly(f: FuncMacro, raws: seq<string>, exps: seq<string>, us: seq<Unit>, k0: nat)
    requires |raws| == |exps| && k0 < |us| && forall j :: 0 <= j < |us| && j != k0 ==> Unchanged(raws, exps, us, j)
    ensures MeantC(f, raws, exps, us, 0) == Meant(f, raws, exps, us) <==> Unchanged(raws, exps, us, k0)
  {
    RawFrom(f, raws, exps, us, k0, 0);
    assert us[0..] == us;
  }

  /** F(a) with #define F(x) x##w, where a is an object macro with value v: the text is v and
      w side by side, in C it is a and w. */
  lemma {:induction false} ExpandedBeforePasting(k: D.Setting, a: string, v: string, w: string, ms: seq<Macro>, c: F.Cond,
                                                 banned: set<string>, depth: nat)
    requires I.IsName(a) && Lookup(ms, a) == Has(v) && a !in banned && D.Knows(k, ms, banned) && IsWord(w) && w != "x"
    requires v != "" && !EndsSpace(v) && F.Expand(ms, v, depth + 1) == v && depth < F.MAX_LEVEL && c.skip == 0
    ensures var f, us := FuncMacro("F", ["x"], false, "x##" + w), [Bare(Parameter(0)), Paste("", ""), Bare(Word(w))];
      var p := D.Scan(k, a, 0, ms, c, depth);
      && p.Pass? && p.out == v && Substituted(f, [a], [p.out]) == v + w
      && f.replacement == UnitsText(f.params, us) && MeantC(f, [a], [p.out], us, 0) == a + w
  {
    hide D.Scan, D.Knows, Substituted, Built, Formed, Apart, From, Lookup, I.IsName, IsWord, UnitsText, Meant, MeantC, EndsSpace, F.Expand;
    var f, us := FuncMacro("F", ["x"], false, "x##" + w), [Bare(Parameter(0)), Paste("", ""), Bare(Word(w))];
    NameScan(k, a, v, ms, c, banned, depth);
    PastedUnits(f, w, us);
    OperatorsExactly(f, [a], [v], us);
    PastedBuilt(f, a, v, w, us);
    PastedMeant(f, a, v, w, us);
  }

  lemma {:induction false} NameScan(k: D.Setting, a: string, v: string, ms: seq<Macro>, c: F.Cond, banned: set<string>, depth: nat)
    requires I.IsName(a) && Lookup(ms, a) == Has(v) && a !in banned && D.Knows(k, ms, banned)
    requires F.Expand(ms, v, depth + 1) == v && depth < F.MAX_LEVEL && c.skip == 0
    ensures var p := D.Scan(k, a, 0, ms, c, depth); p.Pass? && p.out == v
  {
    hide D.Scan, D.Knows, Lookup;
    assert a[0..] == a + "" && a[..|a|] == a && a[|a|..] == "";
    I.NameEnds(a, 0, a, "");
    D.CleanScan(k, a, 0, a, "", ms, c, banned, depth);
    D.ScanEnds(k, a, ms, c, depth);
    D.ExpandNext(ms, a, depth);
    D.ExpandNothing(ms, depth);
    assert v + "" == v;
  }

  lemma {:induction false} PastedUnits(f: FuncMacro, w: string, us: seq<Unit>)
    requires f == FuncMacro("F", ["x"], false, "x##" + w) && IsWord(w) && w != "x"
    requires us == [Bare(Parameter(0)), Paste("", ""), Bare(Word(w))]
    ensures Formed(f, us) && f.replacement == UnitsText(f.params, us)
  {
    assert us[1..] == [us[1], us[2]] && us[1..][1..] == [us[2]] && us[1..][1..][1..] == [];
    assert w + "" == w && UnitsText(f.params, us[1..][1..]) == w;
    assert "" + ("##" + "") + w == "##" + w && UnitsText(f.params, us[1..]) == "##" + w;
    assert "x" + ("##" + w) == "x##" + w;
  }

  lemma {:induction false} PastedBuilt(f: FuncMacro, a: string, v: string, w: string, us: seq<Unit>)
    requires us == [Bare(Parameter(0)), Paste("", ""), Bare(Word(w))] && v != "" && !EndsSpace(v)
    ensures Built(f, [a], [v], "", us) == v + w
  {
    hide Built;
    assert us[1..] == [us[1], us[2]] && us[1..][1..] == [us[2]] && us[1..][1..][1..] == [];
    BuiltNext(f, [a], [v], "", us);
    BuiltNext(f, [a], [v], v, us[1..]);
    CutIs(v);
    BuiltNext(f, [a], [v], v, us[1..][1..]);
    BuiltNext(f, [a], [v], v + w, []);
    assert "" + v == v;
  }

  lemma {:induction false} PastedMeant(f: FuncMacro, a: string, v: string, w: string, us: seq<Unit>)
    requires us == [Bare(Parameter(0)), Paste("", ""), Bare(Word(w))]
    ensures MeantC(f, [a], [v], us, 0) == a + w
  {
    assert MeantC(f, [a], [v], us, 3) == "";
    assert MeantC(f, [a], [v], us, 2) == w + "" == w;
    assert MeantC(f, [a], [v], us, 1) == "" + w == w;
  }

  /** An argument that expands to nothing is put in as it is; in C nothing stands there. */
  lemma {:induction false} EmptyExpansion(a: string)
    ensures Substituted(FuncMacro("F", ["x"], false, "x"), [a], [""]) == a
  {
    hide Substituted, Built, IsWord;
    var f, us := FuncMacro("F", ["x"], false, "x"), [Bare(Parameter(0))];
    assert us[1..] == [] && "x" + "" == "x";
    XIsWord();
    assert UnitsText(f.params, us) == "x" by { NoUnits(f.params); }
    OperatorsExactly(f, [a], [""], us);
    BuiltNext(f, [a], [""], "", us);
    BuiltNext(f, [a], [""], a, []);
    assert "" + a == a;
  }

  // ----- Quoted arguments -----

  /** The characters a string literal stands for, by sections 6.4.5 and 6.4.4.4 of ISO C11,
      as far as it is written with escapes of one character. */
  function Literal(t: string, i: nat): seq<int>
    requires i <= |t|
    decreases |t| - i
  {
    if i == |t| || t[i] == '"' then []
    else if t[i] == '\\' && i + 1 < |t| then [N.EscapeValue(t[i + 1])] + Literal(t, i + 2)
    else [t[i] as int] + Literal(t, i + 1)
  }

  function Codes(t: string): seq<int> { if t == "" then [] else [t[0] as int] + Codes(t[1..]) }

  lemma {:induction false} EscapeFirst(c: char, t: string)
    ensures Escape([c] + t) == S.Escaped(c) + Escape(t)
    decreases |t|
  {
    hide S.Escaped;
    var x := [c] + t;
    if t == "" {
      assert x[..0] == "" && Escape("") == "";
      assert "" + S.Escaped(c) == S.Escaped(c) + "";
    } else {
      var n := |t| - 1;
      assert x[..|x| - 1] == [c] + t[..n];
      EscapeFirst(c, t[..n]);
      assert S.Escaped(c) + Escape(t[..n]) + S.Escaped(t[n]) == S.Escaped(c) + (Escape(t[..n]) + S.Escaped(t[n]));
    }
  }

  lemma {:induction false} EscapeReads(s: string, i: nat, t: string, rest: string)
    requires i <= |s| && s[i..] == Escape(t) + ("\"" + rest)
    ensures Literal(s, i) == Codes(t) && C.StringEnd(s, i) == |s| - |rest|
    decreases |t|
  {
    hide Escape;
    if t == "" {
      assert Escape("") == "" by { EscapeNothing(); }
      Past(s, i, "\"", rest);
    } else {
      var e, tail := S.Escaped(t[0]), Escape(t[1..]) + ("\"" + rest);
      assert t == [t[0]] + t[1..];
      EscapeFirst(t[0], t[1..]);
      assert e + Escape(t[1..]) + ("\"" + rest) == e + tail;
      Past(s, i, e, tail);
      EscapeReads(s, i + |e|, t[1..], rest);
      if |e| == 2 { assert s[i + 1] == s[i..i + 2][1] == e[1]; }
    }
  }

  lemma {:induction false} EscapeNothing()
    ensures Escape("") == ""
  {
  }

  /** A quoted argument is one string literal, and stands for the argument. */
  lemma {:induction false} QuotedMeans(t: string, rest: string)
    ensures var s := S.Quoted(t) + rest;
      s[0] == '"' && Literal(s, 1) == Codes(t) && C.StringEnd(s, 1) == |S.Quoted(t)|
  {
    hide Escape, Literal, C.StringEnd;
    var s := S.Quoted(t) + rest;
    assert s[1..] == Escape(t) + ("\"" + rest);
    EscapeReads(s, 1, t, rest);
  }

  /** Each run of white space as one space: how section 6.10.3.2 of ISO C11 spells an
      argument without literals. */
  function Squeezed(t: string): (r: string)
    ensures |r| <= |t|
  {
    if t == "" then ""
    else
      var n := |t| - 1;
      Squeezed(t[..n]) + if !IsBlank(t[n]) then [t[n]] else if n > 0 && IsBlank(t[n - 1]) then "" else " "
  }

  lemma {:induction false} CodesSame(a: string, b: string)
    ensures Codes(a) == Codes(b) <==> a == b
    decreases |a|
  {
    if Codes(a) == Codes(b) && a != "" {
      assert b != "";
      assert Codes(a)[1..] == Codes(a[1..]) && Codes(b)[1..] == Codes(b[1..]);
      assert Codes(a)[0] == a[0] as int && Codes(b)[0] == b[0] as int;
      CodesSame(a[1..], b[1..]);
      assert a == [a[0]] + a[1..] && b == [b[0]] + b[1..];
    }
  }

  /** White space is single spaces. */
  predicate SingleSpaces(t: string)
  {
    forall i :: 0 <= i < |t| && IsBlank(t[i]) ==> t[i] == ' ' && (i > 0 ==> !IsBlank(t[i - 1]))
  }

  lemma {:induction false} SnocSame(p: string, x: string, q: string, c: char)
    requires |x| <= 1 && |p| <= |q|
    ensures p + x == q + [c] <==> p == q && x == [c]
  {
    if p + x == q + [c] { assert |x| == 1 && p == (p + x)[..|q|] == q && x[0] == (p + x)[|q|] == c; }
  }

  lemma {:induction false} SingleSnoc(t: string, n: nat)
    requires t != "" && n == |t| - 1
    ensures SingleSpaces(t) <==> SingleSpaces(t[..n]) && (IsBlank(t[n]) ==> t[n] == ' ' && (n > 0 ==> !IsBlank(t[n - 1])))
  {
    hide IsBlank;
    if SingleSpaces(t) {
      forall i | 0 <= i < n && IsBlank(t[..n][i]) ensures t[..n][i] == ' ' && (i > 0 ==> !IsBlank(t[..n][i - 1])) { assert t[..n][i] == t[i]; }
    }
    if SingleSpaces(t[..n]) {
      forall i | 0 <= i < n && IsBlank(t[i]) ensures t[i] == ' ' && (i > 0 ==> !IsBlank(t[i - 1])) { assert t[..n][i] == t[i]; }
    }
  }

  lemma {:induction false} SqueezedExactly(t: string)
    ensures Squeezed(t) == t <==> SingleSpaces(t)
    decreases |t|
  {
    hide SingleSpaces;
    if t == "" {
      assert SingleSpaces("") by { NothingSingle(); }
    } else {
      var n := |t| - 1;
      SqueezedExactly(t[..n]);
      SingleSnoc(t, n);
      var p, x := Squeezed(t[..n]), if !IsBlank(t[n]) then [t[n]] else if n > 0 && IsBlank(t[n - 1]) then "" else " ";
      assert t == t[..n] + [t[n]];
      SnocSame(p, x, t[..n], t[n]);
    }
  }

  lemma {:induction false} NothingSingle()
    ensures SingleSpaces("")
  {
  }

  /** The literal for an argument without quotation marks stands for the spelling C asks for
      if and only if the white space in the argument is single spaces. */
  lemma {:induction false} SpellingExactly(t: string, rest: string)
    ensures Literal(S.Quoted(t) + rest, 1) == Codes(Squeezed(t)) <==> SingleSpaces(t)
  {
    hide Literal, S.Quoted, Codes, Squeezed, SingleSpaces;
    QuotedMeans(t, rest);
    SqueezedExactly(t);
    CodesSame(t, Squeezed(t));
  }

  // ----- The comma in front of trailing arguments -----

  /** There are no trailing arguments, or a single one that is empty. */
  predicate NoneGiven(f: FuncMacro, raws: seq<string>) { |raws| <= |f.params| || (|raws| == |f.params| + 1 && raws[|f.params|] == "") }

  /** The paste operator is to take the comma away if no trailing arguments are given.  It
      does exactly if they are left out: a single empty one keeps the comma. */
  lemma {:induction false} CommaExactly(f: FuncMacro, raws: seq<string>, exps: seq<string>, a: string, b: string)
    requires |raws| == |exps| && |raws| >= |f.params|
    ensures Out(f, raws, exps, CommaTrailing(a, b)) == (if NoneGiven(f, raws) then "" else "," + Commas(Others(f, raws, exps)))
      <==> !(|raws| == |f.params| + 1 && raws[|f.params|] == "")
  {
    hide Commas, Others;
  }

  /** x, ## and the trailing arguments, in a macro without named parameters: a call with
      nothing between its parentheses has one argument, an empty one, and keeps the comma. */
  lemma {:induction false} EmptyCall()
    ensures var f := FuncMacro("P", [], true, "x, ## " + VA_ARGS);
      && M.Split("()", 1, 1, 1, []) == M.Args([M.Span(1, 0)], 1) && M.ArgumentTexts("()", [M.Span(1, 0)], 1, 1) == [""]
      && Substituted(f, [""], [""]) == "x,"
  {
    hide Substituted;
    EmptyArgument();
    EmptyCallMeant(FuncMacro("P", [], true, "x, ## " + VA_ARGS), [Bare(Word("x")), CommaTrailing(" ", " ")]);
  }

  lemma {:induction false} EmptyArgument()
    ensures M.Split("()", 1, 1, 1, []) == M.Args([M.Span(1, 0)], 1) && M.ArgumentTexts("()", [M.Span(1, 0)], 1, 1) == [""]
  {
    assert [] + [M.Span(1, 0)] == [M.Span(1, 0)];
    M.ArgumentAt("()", [M.Span(1, 0)], 1, 1, 0);
  }

  lemma {:induction false} CommaSpelled(v: string)
    ensures "x" + ("," + (" " + ("##" + (" " + v))) + "") == "x, ## " + v
  {
  }

  lemma {:induction false} EmptyCallUnits(f: FuncMacro, us: seq<Unit>)
    requires f == FuncMacro("P", [], true, "x, ## " + VA_ARGS) && us == [Bare(Word("x")), CommaTrailing(" ", " ")]
    ensures Formed(f, us) && f.replacement == UnitsText(f.params, us)
  {
    hide UnitsText, IsWord;
    assert us[1..] == [us[1]] && us[1..][1..] == [];
    UnitsFirst(f.params, us);
    UnitsFirst(f.params, us[1..]);
    NoUnits(f.params);
    CommaSpelled(VA_ARGS);
    assert IsWord("x") by { XIsWord(); }
  }

  lemma {:induction false} XIsWord()
    ensures IsWord("x")
  {
  }

  lemma {:induction false} EmptyCallMeant(f: FuncMacro, us: seq<Unit>)
    requires f == FuncMacro("P", [], true, "x, ## " + VA_ARGS) && us == [Bare(Word("x")), CommaTrailing(" ", " ")]
    ensures Substituted(f, [""], [""]) == "x,"
  {
    hide Substituted, UnitsText, Formed, Built;
    var r := [""];
    EmptyCallUnits(f, us);
    OperatorsExactly(f, r, r, us);
    assert us[1..] == [us[1]] && us[1..][1..] == [];
    BuiltNext(f, r, r, "", us);
    BuiltNext(f, r, r, "x", us[1..]);
    BuiltNext(f, r, r, "x,", []);
    assert UsedAll(r, r) == [""] && [""][0..] == [""];
    assert Commas([""]) == "" && "," + "" == "," && "x" + "," == "x,";
    assert "" + "x" == "x";
  }
}
