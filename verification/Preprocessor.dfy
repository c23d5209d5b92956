/** Macro expansion: the mutually recursive scanner of the preprocessor with its expand
    stack, the nesting limit and the conditional flags.  It always ends: the number of
    levels left decreases, or it stays and the text that is scanned gets shorter. */
module Preprocessor {
  import opened IfExpression
  import opened Conditionals
  import opened DirectiveReader
  import opened Directives
  import opened MacroCalls
  import C = Comments
  import CallExpansion
  import CallPaths
  import E = IfEvaluator
  import S = Substitution
  import T = CallTerms


  /** The macros that are there from the start. */
  const BUILTINS: seq<Macro> := [Macro("__x86_64__", ""), Macro("X86_64_TLIBC", "1")]

  /** What remains for an included file: nothing below include level 32. */
  function IncludeLevels(depth: nat): nat { if depth <= MAX_INCLUDE then Levels(depth) else 0 }

  // ----- Output -----

  class OutBuf {
    var data: string

    constructor ()
      ensures data == ""
    {
      data := "";
    }

    method Putc(c: char)
      modifies this
      ensures data == old(data) + [c]
    {
      data := data + [c];
    }

    method Puts(t: string)
      modifies this
      ensures data == old(data) + t
    {
      ghost var before := data;
      var i := 0;
      while i < |t|
        invariant 0 <= i <= |t| && data == before + t[..i]
      {
        Putc(t[i]);
        i := i + 1;
      }
      assert t[..i] == t;
    }
  }

  // ----- Directive lines -----

  /** The end of a directive: a newline that is not continued. */
  method LineEnd(s: string, start: nat) returns (le: nat)
    requires start < |s| && s[start] == '#'
    ensures start < le <= |s| && le == DirectiveEnd(s, start)
  {
    le := start;
    while le < |s| && s[le] != '\n'
      invariant start <= le <= |s| && DirectiveEnd(s, le) == DirectiveEnd(s, start)
    {
      if s[le] == '\\' {
        var nl := le + 1;
        if nl < |s| && s[nl] == '\r' { nl := nl + 1; }
        if nl < |s| && s[nl] == '\n' { le := nl + 1; } else { le := le + 1; }
      } else {
        le := le + 1;
      }
    }
  }

  /** A # starts a directive when only blanks stand before it on its line. */
  method StartsDirective(s: string, i: nat) returns (b: bool)
    requires i < |s|
    ensures b == AtLineStart(s, i)
  {
    var k := i;
    while k > 0 && (s[k - 1] == ' ' || s[k - 1] == '\t')
      invariant 0 <= k <= i && AtLineStart(s, k) == AtLineStart(s, i)
    {
      k := k - 1;
    }
    b := k == 0 || s[k - 1] == '\n' || s[k - 1] == '\r';
  }

  method SkipSpaces(s: string, i: nat, le: nat) returns (p: nat)
    requires i <= le <= |s|
    ensures p == PastSpaces(s, i, le)
  {
    p := i;
    while p < le && (s[p] == ' ' || s[p] == '\t')
      invariant i <= p <= le && PastSpaces(s, p, le) == PastSpaces(s, i, le)
    {
      p := p + 1;
    }
  }

  lemma {:induction false} SliceNext(s: string, i: nat, j: nat, before: string)
    requires i <= j < |s|
    ensures before + s[i..j + 1] == before + s[i..j] + [s[j]]
  {
  }

  // ----- The scanner -----

  class Preprocessor {
    var macros: seq<Macro>
    var funcs: seq<FuncMacro>
    /** The function macros that are being expanded, by number. */
    var stack: seq<nat>
    var cond: Cond
    var hadError: bool
    /** The files that can be included. */
    const files: map<string, string>
    /** How deep macros may nest in #if. */
    const nest: nat

    constructor (files: map<string, string>, nest: nat)
      ensures stack == [] && cond == Cond([], 0) && Counted(cond)
    {
      this.files, this.nest := files, nest;
      macros, funcs, stack, cond, hadError := [], [], [], Cond([], 0), false;
    }

    /** What the scanner knows besides the text, the object macros and the conditionals. */
    ghost function Known(line: nat): Setting
      reads this
    {
      Setting(funcs, nest, stack, files, line)
    }

    /** The state is that behind pass p, and its text has been appended to before. */
    ghost predicate Reached(p: Pass, before: string, out: OutBuf)
      reads this, out
    {
      p.Pass? && funcs == p.known.funcs && macros == p.macros && cond == p.cond && out.data == before + p.out
    }

    /** A conditional directive in s[cw..le]; other is true for everything else. */
    method DoConditional(s: string, cw: nat, le: nat) returns (ok: bool, other: bool)
      requires cw <= le <= |s| && Counted(cond)
      modifies `cond
      ensures Counted(cond)
      ensures other ==> cond == old(cond)
      ensures StartsWith(s, cw, le, "else") ==> ok && !other && cond == OnElse(old(cond))
      ensures !StartsWith(s, cw, le, "else") && StartsWith(s, cw, le, "endif") ==> ok && !other && cond == OnEndif(old(cond))
      ensures other <==> !StartsWith(s, cw, le, "else") && !StartsWith(s, cw, le, "endif") && !Opens(s, cw, le)
      ensures !ok <==> !StartsWith(s, cw, le, "else") && !StartsWith(s, cw, le, "endif") && Opens(s, cw, le) && |old(cond).emit| >= MAX_NESTING
      ensures ok && !other && !StartsWith(s, cw, le, "else") && !StartsWith(s, cw, le, "endif") ==>
        cond == OnIf(old(cond), Chosen(macros, TestOf(s, cw, le), old(cond).skip > 0, nest))
    {
      ok, other := true, false;
      StepsCounted(cond, true);
      StepsCounted(cond, false);
      if StartsWith(s, cw, le, "else") {
        cond := OnElse(cond);
      } else if StartsWith(s, cw, le, "endif") {
        cond := OnEndif(cond);
      } else if StartsWith(s, cw, le, "if") && cw + 3 <= le {
        var chosen := EvaluateTest(s, cw, le);
        if |cond.emit| >= MAX_NESTING { return false, false; }
        cond := OnIf(cond, chosen);
      } else {
        other := true;
      }
    }

    /** The test of an #if, #ifdef or #ifndef line. */
    method EvaluateTest(s: string, cw: nat, le: nat) returns (chosen: bool)
      requires cw + 2 <= le <= |s|
      ensures chosen == Chosen(macros, TestOf(s, cw, le), cond.skip > 0, nest)
    {
      var ifdef := StartsWith(s, cw, le, "ifdef") && cw + 6 <= le;
      var ifndef := !ifdef && StartsWith(s, cw, le, "ifndef") && cw + 7 <= le;
      if ifdef || ifndef {
        var at := SkipSpaces(s, if ifndef then cw + 6 else cw + 5, le);
        var end := E.EndOfName(s[..le], at);
        var found := false;
        if end > at {
          var which;
          found, which := E.FindMacro(macros, s[at..end]);
        }
        chosen := if ifdef then found else !found;
      } else {
        chosen := false;
        if cond.skip == 0 {
          var at := E.SkipWhite(s[..le], cw + 2);
          var v := E.IfEval(macros, s[at..le], nest);
          chosen := v != 0;
        }
      }
    }

    /** A directive that is not a conditional. */
    method DoDirective(line: string, out: OutBuf, depth: nat, ghost len: nat) returns (ok: bool)
      requires Counted(cond)
      modifies this, out
      ensures ok ==> stack == old(stack) && Counted(cond) && old(out.data) <= out.data
      ensures var p := ActPass(old(Known(1)), ReadDirective(line), old(macros), old(cond), depth);
        ok == p.Pass? && (ok ==> Reached(p, old(out.data), out))
      decreases Levels(depth), 0, len, 1
    {
      hide ReadDirective, Undefined, Scan, IncludePass;
      assert out.data + "" == out.data;
      ok := true;
      var d := ParseDirective(line);
      match d {
        case Include(name) => ok := DoInclude(name, out, depth, len);
        case DefineObject(m) => macros := macros + [m];
        case DefineFunction(f) => funcs := funcs + [f];
        case Remove(name) => macros := Undefined(macros, name, 0);
        case Error => hadError := true;
        case Other =>
        case TooMany => ok := false;
        case Endless => ok := false;
      }
    }

    /** An included file; one that is not there is reported and passed over. */
    method DoInclude(name: string, out: OutBuf, depth: nat, ghost len: nat) returns (ok: bool)
      requires Counted(cond)
      modifies this, out
      ensures ok ==> stack == old(stack) && Counted(cond) && old(out.data) <= out.data
      ensures var p := IncludePass(old(Known(1)), name, old(macros), old(cond), depth);
        ok == p.Pass? && (ok ==> Reached(p, old(out.data), out))
      decreases Levels(depth), 0, len, 0
    {
      hide Scan;
      assert out.data + "" == out.data && macros + [] == macros;
      ok := true;
      if name in files { ok := PpBuf(files[name], out, depth + 1); }
    }

    /** A file: comments go first.  Includes nest at most 32 deep. */
    method PpBuf(s: string, out: OutBuf, depth: nat) returns (ok: bool)
      requires Counted(cond)
      modifies this, out
      ensures ok ==> stack == old(stack) && Counted(cond) && old(out.data) <= out.data
      ensures depth > MAX_INCLUDE ==> ok && macros == old(macros) && funcs == old(funcs) && cond == old(cond) && out.data == old(out.data)
      ensures var ms := old(macros) + if depth == 0 then BUILTINS else [];
        var p := Scan(old(Known(1)), C.Stripped(s), 0, ms, old(cond), depth);
        depth <= MAX_INCLUDE ==> ok == p.Pass? && (ok ==> Reached(p, old(out.data), out))
      decreases IncludeLevels(depth), 1, 0, 0
    {
      hide Scan;
      if depth > MAX_INCLUDE { return true; }
      if depth == 0 { macros := macros + BUILTINS; } else { assert macros + [] == macros; }
      var n := C.StripAllComments(s);
      ok := PpBufImpl(n, out, depth);
    }

    /** Scans s: directives, strings, macro calls and everything else.  The result is that of
        Scan, and the program ends with an error exactly where that says so. */
    method PpBufImpl(s: string, out: OutBuf, depth: nat) returns (ok: bool)
      requires Counted(cond)
      modifies this, out
      ensures ok ==> stack == old(stack) && Counted(cond) && old(out.data) <= out.data
      ensures ok && old(cond).skip > 0 && '#' !in s ==> out.data == old(out.data) && cond == old(cond)
      ensures var p := Scan(old(Known(1)), s, 0, old(macros), old(cond), depth);
        ok == p.Pass? && (ok ==> Reached(p, old(out.data), out))
      decreases Levels(depth), 0, |s|, 6
    {
      hide OnePass, Counted, Scan;
      ok := true;
      var i, line := 0, 1;
      ghost var done := "";
      ghost var all := Scan(Known(1), s, 0, macros, cond, depth);
      NothingScanned(all);
      while i < |s|
        invariant 0 <= i <= |s| && stack == old(stack) && Counted(cond) && old(out.data) <= out.data
        invariant old(cond).skip > 0 && '#' !in s ==> out.data == old(out.data) && cond == old(cond)
        invariant out.data == old(out.data) + done && all == With(done, Scan(Known(line), s, i, macros, cond, depth))
        decreases |s| - i
      {
        ghost var p := OnePass(Known(line), s, i, macros, cond, depth);
        PassFirst(Known(line), s, i, macros, cond, done, depth);
        if cond.skip > 0 && s[i] != '#' {
          SkippedPass(Known(line), s, i, macros, cond, depth);
          i := PastLine(s, i);
          if s[i - 1] == '\n' { line := line + 1; }
          assert done + "" == done;
        } else {
          ok, i, line := OneItem(s, i, line, out, depth);
          if !ok { return; }
          assert Known(line) == p.known;
          done := done + p.out;
        }
      }
      ScanEnds(Known(line), s, macros, cond, depth);
      assert done + "" == done;
    }

    method PastLine(s: string, start: nat) returns (i: nat)
      requires start < |s|
      ensures i == NextLine(s, start)
    {
      i := start;
      while i < |s| && s[i] != '\n'
        invariant start <= i <= |s| && NextLine(s, start) == if i < |s| then NextLine(s, i) else i
      {
        i := i + 1;
      }
      if i < |s| { i := i + 1; }
    }

    /** A directive, a string, a name or one character; the cursor always advances. */
    method OneItem(s: string, start: nat, line: nat, out: OutBuf, depth: nat) returns (ok: bool, i: nat, line': nat)
      requires start < |s| && Counted(cond)
      modifies this, out
      ensures ok ==> start < i <= |s| && stack == old(stack) && Counted(cond) && old(out.data) <= out.data
      ensures var p := OnePass(old(Known(line)), s, start, old(macros), old(cond), depth);
        old(cond).skip == 0 || s[start] == '#' ==>
          ok == p.Pass? && (ok ==> i == p.i && Known(line') == p.known && Reached(p, old(out.data), out))
      decreases Levels(depth), 0, |s|, 5
    {
      hide DirectivePass, NamePass, Counted;
      ok, i, line' := true, start, line;
      if s[i] == '#' {
        var directive := StartsDirective(s, i);
        if directive {
          ok, i := OneDirective(s, i, line, out, depth);
          if ok && s[i - 1] == '\n' { line' := line + 1; }
          return;
        }
      }
      if s[i] == '"' {
        i := CopyQuoted(s, i, out);
      } else if IsLetter(s[i]) {
        ok, i := OneName(s, i, line, out, depth);
      } else {
        if s[i] != '\r' { out.Putc(s[i]); }
        if s[i] == '\n' { line' := line + 1; }
        i := i + 1;
      }
    }

    method CopyQuoted(s: string, start: nat, out: OutBuf) returns (i: nat)
      requires start < |s|
      modifies out
      ensures i == C.StringEnd(s, start + 1) && out.data == old(out.data) + s[start..i]
    {
      ghost var before := out.data;
      out.Putc(s[start]);
      i := start + 1;
      while i < |s| && s[i] != '"'
        invariant start < i <= |s| && C.StringEnd(s, i) == C.StringEnd(s, start + 1) && out.data == before + s[start..i]
      {
        if s[i] == '\\' && i + 1 < |s| {
          SliceNext(s, start, i, before);
          out.Putc(s[i]);
          i := i + 1;
        }
        SliceNext(s, start, i, before);
        out.Putc(s[i]);
        i := i + 1;
      }
      if i < |s| {
        SliceNext(s, start, i, before);
        out.Putc('"');
        i := i + 1;
      }
    }

    /** A directive line. */
    method OneDirective(s: string, start: nat, ghost line: nat, out: OutBuf, depth: nat) returns (ok: bool, i: nat)
      requires start < |s| && s[start] == '#' && Counted(cond)
      modifies this, out
      ensures ok ==> start < i <= |s| && stack == old(stack) && Counted(cond) && old(out.data) <= out.data
      ensures var p := DirectivePass(old(Known(line)), s, start, old(macros), old(cond), depth);
        ok == p.Pass? && (ok ==> i == p.i && Counting(Known(line), s, i) == p.known && Reached(p, old(out.data), out))
      decreases Levels(depth), 0, |s|, 3
    {
      hide Counted, DirectiveEnd, Chosen, TestOf, Undefined, PastSpaces, OnIf, OnElse, OnEndif, IncludePass;
      assert out.data + "" == out.data;
      var le := LineEnd(s, start);
      var cw := SkipSpaces(s, start + 1, le);
      var other;
      ok, other := DoConditional(s, cw, le);
      if ok && other && cond.skip == 0 { ok := DoDirective(s[start..le], out, depth, |s|); }
      i := if le < |s| && s[le] == '\n' then le + 1 else le;
    }

    /** A name: the line number, an object macro, a call of a function macro, or itself. */
    method OneName(s: string, start: nat, line: nat, out: OutBuf, depth: nat) returns (ok: bool, i: nat)
      requires start < |s| && IsLetter(s[start]) && Counted(cond)
      modifies this, out
      ensures ok ==> start < i <= |s| && stack == old(stack) && Counted(cond) && old(out.data) <= out.data
      ensures var p := NamePass(old(Known(line)), s, start, old(macros), old(cond), depth);
        ok == p.Pass? && (ok ==> i == p.i && Known(line) == p.known && Reached(p, old(out.data), out))
      decreases Levels(depth), 0, |s|, 4
    {
      hide Scan, Lookup, Counted, CallPass;
      i := E.EndOfName(s, start);
      var name := s[start..i];
      if name == "__LINE__" {
        out.Puts(Decimal(line));
        return true, i;
      }
      var found, mi := E.FindMacro(macros, name);
      if found {
        ok := true;
        var text := macros[mi].text;
        if text != "" {
          if depth < MAX_LEVEL { ok := PpBufImpl(text, out, depth + 1); } else { out.Puts(text); }
        }
        return;
      }
      if i < |s| && s[i] == '(' {
        var match_, fi := FindFunction(name);
        if match_ {
          if fi in stack {
            out.Puts(name);
            return true, i;
          }
          ok, i := Call(s, i, fi, line, out, depth);
          return;
        }
      }
      out.Puts(name);
      ok := true;
    }

    /** The first function macro of that name. */
    method FindFunction(name: string) returns (found: bool, fi: nat)
      ensures fi == FunctionIndex(funcs, name) && (found <==> fi < |funcs|)
    {
      fi := 0;
      while fi < |funcs|
        invariant fi <= |funcs| && forall k :: 0 <= k < fi ==> funcs[k].name != name
      {
        if funcs[fi].name == name { return true, fi; }
        fi := fi + 1;
      }
      found := false;
    }

    /** What the scanner knows while function macro fi is being expanded. */
    ghost function Inside(fi: nat): Setting
      reads this
    {
      Known(1).(stack := stack + [fi])
    }

    /** Expands a text into a buffer of its own while function macro fi is on the stack. */
    method Guarded(text: string, fi: nat, depth: nat, ghost level: nat, ghost len: nat) returns (ok: bool, r: string)
      requires Counted(cond) && (Levels(depth) < level || (Levels(depth) == level && |text| < len))
      modifies this
      ensures ok ==> stack == old(stack) && Counted(cond)
      ensures var p := Scan(old(Inside(fi)), text, 0, old(macros), old(cond), depth);
        ok == (p.Pass? && |old(stack)| < MAX_STACK)
        && (ok ==> funcs == p.known.funcs && macros == p.macros && cond == p.cond && r == p.out)
      decreases level, 0, len, 1
    {
      hide Scan, Counted;
      if |stack| >= MAX_STACK { return false, ""; }
      var buf := new OutBuf();
      stack := stack + [fi];
      ok := PpBufImpl(text, buf, depth);
      if ok { stack := stack[..|stack| - 1]; }
      r := buf.data;
    }

    /** The text of argument k. */
    method ArgumentIn(s: string, lo: nat, spans: seq<Span>, hi: nat, k: nat) returns (text: string)
      requires lo <= hi <= |s| && (forall j :: 0 <= j < |spans| ==> InText(spans[j], lo, hi)) && k < |spans|
      ensures text == ArgumentTexts(s, spans, lo, hi)[k]
    {
      hide ArgumentTexts, Trimmed;
      ArgumentAt(s, spans, lo, hi, k);
      assert InText(spans[k], lo, hi);
      var a := Trim(s, spans[k]);
      text := s[a.start..a.start + a.len];
    }

    /** The arguments of a call of function macro fi, as they are written and expanded. */
    method ExpandArguments(s: string, open: nat, spans: seq<Span>, close: nat, fi: nat, depth: nat)
      returns (ok: bool, raws: seq<string>, exps: seq<string>)
      requires 0 < open < close < |s| && (forall k :: 0 <= k < |spans| ==> InText(spans[k], open + 1, close)) && Counted(cond)
      requires spans != []
      modifies this
      ensures ok ==> stack == old(stack) && Counted(cond) && |raws| == |exps|
      ensures ok ==> raws == ArgumentTexts(s, spans, open + 1, close)
      ensures var p := ArgumentsPass(old(Inside(fi)), ArgumentTexts(s, spans, open + 1, close), old(macros), old(cond), depth, |s| - open);
        ok == (p.Texts? && |old(stack)| < MAX_STACK)
        && (ok ==> exps == p.texts && funcs == p.funcs && macros == p.macros && cond == p.cond)
      decreases Levels(depth), 0, |s|, 2
    {
      hide Counted, ArgumentsPass, Scan, Trimmed, ArgumentTexts, Behind;
      ok, raws, exps := true, [], [];
      ghost var texts, bound := ArgumentTexts(s, spans, open + 1, close), |s| - open;
      ghost var all := ArgumentsPass(Inside(fi), texts, macros, cond, depth, bound);
      ExpandedSo([], all);
      assert texts[0..] == texts;
      var k := 0;
      while k < |spans|
        invariant 0 <= k <= |spans| && |raws| == |exps| == k && stack == old(stack) && Counted(cond)
        invariant raws == texts[..k]
        invariant k > 0 ==> |stack| < MAX_STACK
        invariant all == Behind(exps, ArgumentsPass(Inside(fi), texts[k..], macros, cond, depth, bound))
      {
        ghost var known, ms, c := Inside(fi), macros, cond;
        var text := ArgumentIn(s, open + 1, spans, close, k);
        assert texts[k..][0] == text && texts[k..][1..] == texts[k + 1..] && texts[..k + 1] == texts[..k] + [text];
        ArgumentFirst(known, texts[k..], ms, c, depth, bound, exps);
        var e;
        ok, e := Guarded(text, fi, depth + 1, Levels(depth), |s|);
        if !ok { return; }
        ghost var p := Scan(known, text, 0, ms, c, depth + 1);
        assert e == p.out && Inside(fi) == known.(funcs := p.known.funcs);
        raws, exps := raws + [text], exps + [e];
        k := k + 1;
      }
      assert texts[k..] == [];
      NoArguments(Inside(fi), macros, cond, depth, bound);
      BehindAll(exps, Inside(fi), macros, cond);
    }

    /** A call of function macro fi whose opening parenthesis is at open: arguments are
        expanded first, then the replacement is scanned again, together with a second
        argument list if it is the name of another function macro. */
    method Call(s: string, open: nat, fi: nat, ghost line: nat, out: OutBuf, depth: nat) returns (ok: bool, i: nat)
      requires 0 < open < |s| && s[open] == '(' && fi < |funcs| && Counted(cond)
      modifies this, out
      ensures ok ==> open <= i <= |s| && stack == old(stack) && Counted(cond) && old(out.data) <= out.data
      ensures var p := CallPass(old(Known(line)), s, open, fi, old(macros), old(cond), depth);
        ok == p.Pass? && (ok ==> i == p.i && Known(line) == p.known && Reached(p, old(out.data), out))
      decreases Levels(depth), 0, |s|, 3
    {
      hide Counted, ArgumentsPass, Scan, Split, FollowPass, ArgumentTexts, S.Substituted;
      var f := funcs[fi];
      assert out.data + "" == out.data;
      var args := SplitArguments(s, open + 1);
      if args.TooMany? { return false, open; }
      if args.Unclosed? { return true, open; }
      var raws, exps;
      ok, raws, exps := ExpandArguments(s, open, args.spans, args.close, fi, depth);
      i := args.close + 1;
      if !ok { return; }
      var temp := S.Substitute(f, raws, exps);
      if temp == "" { return; }
      if depth >= MAX_LEVEL {
        out.Puts(temp);
        return;
      }
      var result;
      ok, result := Guarded(temp, fi, depth + 1, Levels(depth), |s|);
      if !ok { return; }
      ok, i := FollowOn(s, args.close, result, line, out, depth);
    }

    /** The rescanned text goes out, or is scanned once more with the argument list that
        follows the call. */
    method FollowOn(s: string, close: nat, result: string, ghost line: nat, out: OutBuf, depth: nat) returns (ok: bool, i: nat)
      requires close < |s| && depth < MAX_LEVEL && Counted(cond)
      modifies this, out
      ensures ok ==> close < i <= |s| && stack == old(stack) && Counted(cond) && old(out.data) <= out.data
      ensures var p := FollowPass(old(Known(line)), s, close, result, old(macros), old(cond), depth);
        ok == p.Pass? && (ok ==> i == p.i && Known(line) == p.known && Reached(p, old(out.data), out))
      decreases Levels(depth), 0, |s|, 1
    {
      hide Counted, Scan, CloseOf, SkipBlanks, IdEnd, FunctionIndex;
      ok, i := true, close + 1;
      var at := E.SkipWhite(result, 0);
      var end := E.EndOfName(result, at);
      if end > at && close + 1 < |s| && s[close + 1] == '(' {
        var found, fi := FindFunction(result[at..end]);
        if found && fi !in stack {
          var matched, paren := MatchingParen(s, close + 1);
          if matched {
            ok := PpBufImpl(result + s[close + 1..paren + 1], out, depth + 1);
            i := paren + 1;
            return;
          }
        }
      }
      out.Puts(result);
    }
  }

  // ----- Arguments so far -----

  /** More expanded arguments behind those so far. */
  function Behind(exps: seq<string>, r: Expanded): Expanded
  {
    if r.Texts? then r.(texts := exps + r.texts) else NoTexts
  }

  lemma {:induction false} ExpandedSo(exps: seq<string>, r: Expanded)
    requires exps == []
    ensures Behind(exps, r) == r
  {
    if r.Texts? { assert exps + r.texts == r.texts; }
  }

  lemma {:induction false} BehindAll(exps: seq<string>, k: Setting, ms: seq<Macro>, c: Cond)
    ensures Behind(exps, Expanded.Texts([], k.funcs, ms, c)) == Expanded.Texts(exps, k.funcs, ms, c)
  {
    assert exps + [] == exps;
  }

  lemma {:induction false} ArgumentFirst(k: Setting, texts: seq<string>, ms: seq<Macro>, c: Cond, depth: nat, bound: nat, exps: seq<string>)
    requires texts != [] && (forall t :: t in texts ==> |t| < bound)
    ensures var p := Scan(k, texts[0], 0, ms, c, depth + 1);
      Behind(exps, ArgumentsPass(k, texts, ms, c, depth, bound)) ==
        if p.Beyond? then NoTexts
        else Behind(exps + [p.out], ArgumentsPass(k.(funcs := p.known.funcs), texts[1..], p.macros, p.cond, depth, bound))
  {
    hide Scan;
    var p := Scan(k, texts[0], 0, ms, c, depth + 1);
    if p.Pass? {
      var r := ArgumentsPass(k.(funcs := p.known.funcs), texts[1..], p.macros, p.cond, depth, bound);
      if r.Texts? { assert exps + ([p.out] + r.texts) == exps + [p.out] + r.texts; }
    }
  }

  lemma {:induction false} NoArguments(k: Setting, ms: seq<Macro>, c: Cond, depth: nat, bound: nat)
    ensures ArgumentsPass(k, [], ms, c, depth, bound) == Expanded.Texts([], k.funcs, ms, c)
  {
  }

  /** Preprocessing a printed text of nested conditionals emits the chosen branches with
      their object macros expanded, obeys their definitions, and leaves the conditional
      stack as it was. */
  method PreprocessBlocks(pp: Preprocessor, bs: seq<Block>, out: OutBuf, depth: nat, ghost banned: set<string>) returns (ok: bool)
    requires PlainLines(bs) && Counted(pp.cond) && (forall l :: l in LinesOf(bs) ==> GoodLine(l, banned))
    requires Nests(LinesOf(bs), |pp.cond.emit|) && Knows(pp.Known(1), pp.macros, banned)
    modifies pp, out
    ensures ok && pp.cond == old(pp.cond)
    ensures var c := Content(old(pp.macros), [], depth);
      var r := if old(pp.cond).skip > 0 then c else Meaning(c, bs, pp.nest);
      pp.macros == r.macros && out.data == old(out.data) + Shown(r.out)
  {
    BlocksScan(pp.Known(1), bs, Content(pp.macros, [], depth), pp.cond, banned);
    ok := pp.PpBufImpl(Printed(LinesOf(bs)), out, depth);
  }

  /** Preprocessing a text with calls of function macros emits what C means by it if and
      only if every chain of nested calls vanishes. */
  method PreprocessCalls(pp: Preprocessor, defs: seq<T.Def>, ts: seq<T.Term>, out: OutBuf, depth: nat, ghost banned: set<string>) returns (ok: bool)
    requires CallExpansion.Ready(pp.Known(1), defs, pp.macros, banned) && pp.cond.skip == 0 && Counted(pp.cond)
    requires T.Good(defs, banned, ts) && CallExpansion.Room(pp.stack, depth, T.Height(ts))
    modifies pp, out
    ensures ok && pp.funcs == old(pp.funcs) && pp.macros == old(pp.macros) && pp.stack == old(pp.stack) && pp.cond == old(pp.cond)
    ensures out.data == old(out.data) + T.TextOf(defs, T.Full(defs, ts)) <==> CallPaths.Vanish(defs, old(pp.stack), ts)
  {
    hide Scan, T.TextOf, T.Full, T.Good, T.Height, CallExpansion.Ready, CallPaths.Vanish;
    ghost var p := Scan(pp.Known(1), T.TextOf(defs, ts), 0, pp.macros, pp.cond, depth);
    CallExpansion.CallsExactly(pp.Known(1), defs, banned, ts, pp.macros, pp.cond, depth);
    ok := pp.PpBufImpl(T.TextOf(defs, ts), out, depth);
    SameBehind(old(out.data), p.out, T.TextOf(defs, T.Full(defs, ts)));
  }

  lemma {:induction false} SameBehind(a: string, b: string, c: string)
    ensures a + b == a + c <==> b == c
  {
    if a + b == a + c { assert b == (a + b)[|a|..] == (a + c)[|a|..] == c; }
  }
}
