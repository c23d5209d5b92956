/** The argument list of a macro call: where it ends, and how it is split. */
module MacroCalls {
  import opened IfExpression
  import opened Comments
  import opened DirectiveReader

  /** A piece of the text: start and length. */
  datatype Span = Span(start: nat, len: nat)

  datatype Arguments = Args(spans: seq<Span>, close: nat) | Unclosed | TooMany

  // ----- The scans -----

  /** The parenthesis that brings the depth to zero, or the end of the text.  Only string
      literals are passed over. */
  function CloseOf(s: string, p: nat, depth: nat): (c: nat)
    requires p <= |s|
    ensures p <= c <= |s|
    decreases |s| - p
  {
    if p == |s| then p
    else if s[p] == '"' then CloseOf(s, StringEnd(s, p + 1), depth)
    else if s[p] == '(' then CloseOf(s, p + 1, depth + 1)
    else if s[p] == ')' && depth <= 1 then p
    else CloseOf(s, p + 1, if s[p] == ')' then depth - 1 else depth)
  }

  /** The split from position p on: depth parentheses are open, an argument began at start,
      and spans are complete. */
  function Split(s: string, p: nat, depth: nat, start: nat, spans: seq<Span>): Arguments
    requires start <= p <= |s|
    decreases |s| - p
  {
    if p == |s| then Unclosed
    else if s[p] == '"' then Split(s, StringEnd(s, p + 1), depth, start, spans)
    else if s[p] == '\'' then Split(s, CharacterEnd(s, p), depth, start, spans)
    else if s[p] == '(' then Split(s, p + 1, depth + 1, start, spans)
    else if s[p] == ')' then
      if depth <= 1 then Args(spans + [Span(start, p - start)], p) else Split(s, p + 1, depth - 1, start, spans)
    else if depth == 1 && s[p] == ',' then
      if |spans| >= MAX_ARGS - 1 then Arguments.TooMany else Split(s, p + 1, 1, p + 1, spans + [Span(start, p - start)])
    else Split(s, p + 1, depth, start, spans)
  }

  // ----- What stands between the parentheses -----

  /** A character, a comma, a string or character literal, or a group in parentheses. */
  datatype Item = One(c: char) | Comma | Literal(t: string) | Letter(t: string) | Group(items: seq<Item>)

  /** t is a string literal from its position i on. */
  predicate Ends(t: string, i: nat)
    decreases |t| - i
  {
    if i >= |t| then false
    else if t[i] == '"' then i + 1 == |t|
    else if t[i] == '\\' && i + 1 < |t| then Ends(t, i + 2)
    else Ends(t, i + 1)
  }

  /** 'x' or '\x'. */
  predicate IsLetterText(t: string)
  {
    |t| >= 3 && t[0] == '\'' && t[|t| - 1] == '\'' && (if t[1] == '\\' then |t| == 4 else |t| == 3)
  }

  predicate Special(c: char) { c == '"' || c == '\'' || c == '(' || c == ')' || c == ',' }

  predicate Formed(items: seq<Item>)
  {
    forall k :: 0 <= k < |items| ==> FormedItem(items[k])
  }

  predicate FormedItem(i: Item)
  {
    match i
    case One(c) => !Special(c)
    case Comma => true
    case Literal(t) => |t| >= 2 && t[0] == '"' && Ends(t, 1)
    case Letter(t) => IsLetterText(t)
    case Group(items) => Formed(items)
  }

  predicate NoCommas(items: seq<Item>) { forall k :: 0 <= k < |items| ==> !items[k].Comma? }

  /** Without character literals, at any depth. */
  predicate NoLetters(items: seq<Item>)
  {
    forall k :: 0 <= k < |items| ==> !items[k].Letter? && (items[k].Group? ==> NoLetters(items[k].items))
  }

  function PrintItem(i: Item): (r: string)
    ensures !i.Literal? && !i.Letter? ==> r != ""
    decreases i, 1
  {
    match i
    case One(c) => [c]
    case Comma => ","
    case Literal(t) => t
    case Letter(t) => t
    case Group(items) => "(" + (Print(items) + ")")
  }

  function Print(items: seq<Item>): string
    decreases items, 0
  {
    if items == [] then "" else PrintItem(items[0]) + Print(items[1..])
  }

  predicate At(s: string, p: nat, t: string) { p + |t| <= |s| && s[p..p + |t|] == t }

  lemma {:induction false} AtParts(s: string, p: nat, a: string, b: string)
    ensures At(s, p, a + b) <==> At(s, p, a) && At(s, p + |a|, b)
  {
    if At(s, p, a + b) {
      assert s[p..p + |a|] == (a + b)[..|a|] == a;
      assert s[p + |a|..p + |a| + |b|] == (a + b)[|a|..] == b;
    }
    if At(s, p, a) && At(s, p + |a|, b) {
      assert s[p..p + |a + b|] == s[p..p + |a|] + s[p + |a|..p + |a| + |b|];
    }
  }

  lemma {:induction false} AtChar(s: string, p: nat, t: string, i: nat)
    requires At(s, p, t) && i < |t|
    ensures p + i < |s| && s[p + i] == t[i]
  {
    assert s[p..p + |t|][i] == t[i];
  }

  lemma {:induction false} LiteralPassed(s: string, p: nat, t: string, i: nat)
    requires At(s, p, t) && Ends(t, i)
    ensures p + i <= |s| && StringEnd(s, p + i) == p + |t|
    decreases |t| - i
  {
    hide At;
    AtChar(s, p, t, i);
    if t[i] != '"' {
      if i + 1 < |t| { AtChar(s, p, t, i + 1); }
      if t[i] == '\\' && i + 1 < |t| { LiteralPassed(s, p, t, i + 2); } else { LiteralPassed(s, p, t, i + 1); }
    }
  }

  lemma {:induction false} LetterPassed(s: string, p: nat, t: string)
    requires At(s, p, t) && IsLetterText(t)
    ensures p < |s| && CharacterEnd(s, p) == p + |t| && s[p] == '\''
  {
    hide At;
    AtChar(s, p, t, 0); AtChar(s, p, t, 1); AtChar(s, p, t, 2);
    if |t| == 4 { AtChar(s, p, t, 3); }
  }

  // ----- The end of the list -----

  /** A list of items is passed, whatever follows. */
  lemma {:induction false} ItemsClose(s: string, p: nat, items: seq<Item>, depth: nat)
    requires At(s, p, Print(items)) && Formed(items) && NoLetters(items) && depth >= 1
    ensures CloseOf(s, p, depth) == CloseOf(s, p + |Print(items)|, depth)
    decreases items, 0
  {
    hide At, CloseOf, Print, PrintItem;
    PrintFirst(items);
    if items != [] {
      AtParts(s, p, PrintItem(items[0]), Print(items[1..]));
      ItemClose(s, p, items[0], depth);
      ItemsClose(s, p + |PrintItem(items[0])|, items[1..], depth);
    }
  }

  lemma {:induction false} PrintFirst(items: seq<Item>)
    ensures Print(items) == if items == [] then "" else PrintItem(items[0]) + Print(items[1..])
  {
  }

  lemma {:induction false} ItemClose(s: string, p: nat, i: Item, depth: nat)
    requires At(s, p, PrintItem(i)) && FormedItem(i) && !i.Letter? && (i.Group? ==> NoLetters(i.items)) && depth >= 1
    ensures CloseOf(s, p, depth) == CloseOf(s, p + |PrintItem(i)|, depth)
    decreases i, 1
  {
    hide At, Print, StringEnd;
    var t := PrintItem(i);
    AtChar(s, p, t, 0);
    match i
    case Literal(_) => LiteralPassed(s, p, t, 1);
    case Group(items) =>
      AtParts(s, p, "(", Print(items) + ")");
      AtParts(s, p + 1, Print(items), ")");
      ItemsClose(s, p + 1, items, depth + 1);
      AtChar(s, p + 1 + |Print(items)|, ")", 0);
    case _ =>
  }

  /** The closing parenthesis of a list without character literals is found. */
  lemma {:induction false} ClosePrinted(s: string, p: nat, items: seq<Item>)
    requires At(s, p, Print(items) + ")") && Formed(items) && NoLetters(items)
    ensures CloseOf(s, p, 1) == p + |Print(items)|
  {
    hide At, Print;
    AtParts(s, p, Print(items), ")");
    ItemsClose(s, p, items, 1);
    AtChar(s, p + |Print(items)|, ")", 0);
  }

  /** A list with one character literal is closed where C closes it if and only if the
      character is no parenthesis and no double quote. */
  lemma {:induction false} OneCharacter(s: string, p: nat, a: seq<Item>, x: char, b: seq<Item>)
    requires x != '\\' && At(s, p, Print(a) + (['\'', x, '\''] + (Print(b) + ")")))
    requires Formed(a) && NoLetters(a) && Formed(b) && NoLetters(b) && '"' !in Print(b)
    ensures CloseOf(s, p, 1) == p + |Print(a)| + 3 + |Print(b)| <==> x != '(' && x != ')' && x != '"'
  {
    hide At, Print, CloseOf, StringEnd;
    var q, e, t := p + |Print(a)|, p + |Print(a)| + 3 + |Print(b)|, ['\'', x, '\''];
    AtParts(s, p, Print(a), t + (Print(b) + ")"));
    AtParts(s, q, t, Print(b) + ")");
    AtParts(s, q + 3, Print(b), ")");
    ItemsClose(s, p, a, 1);
    AtChar(s, q, t, 0); AtChar(s, q, t, 1); AtChar(s, q, t, 2); AtChar(s, e, ")", 0);
    LetterScan(s, q, x);
    if x == '"' {
      LongString(s, q, e, Print(b));
    } else if x == '(' {
      ItemsClose(s, q + 3, b, 2);
      CloseStep(s, e, 2);
    } else if x != ')' {
      ItemsClose(s, q + 3, b, 1);
      CloseStep(s, e, 1);
    }
  }

  lemma {:induction false} CloseStep(s: string, e: nat, depth: nat)
    requires e < |s| && s[e] == ')' && depth >= 1
    ensures if depth == 1 then CloseOf(s, e, depth) == e else CloseOf(s, e, depth) > e
  {
  }

  /** What the scan makes of 'x'. */
  lemma {:induction false} LetterScan(s: string, q: nat, x: char)
    requires q + 3 <= |s| && s[q] == '\'' && s[q + 1] == x && s[q + 2] == '\''
    ensures x == ')' ==> CloseOf(s, q, 1) == q + 1
    ensures x == '(' ==> CloseOf(s, q, 1) == CloseOf(s, q + 3, 2)
    ensures x == '"' ==> CloseOf(s, q, 1) >= StringEnd(s, q + 2)
    ensures x != '(' && x != ')' && x != '"' ==> CloseOf(s, q, 1) == CloseOf(s, q + 3, 1)
  {
    hide StringEnd;
    assert CloseOf(s, q, 1) == CloseOf(s, q + 1, 1);
    if x != ')' && x != '"' {
      var d := if x == '(' then 2 else 1;
      assert CloseOf(s, q + 1, 1) == CloseOf(s, q + 2, d) == CloseOf(s, q + 3, d);
    }
  }

  /** A string that opens in front of a text without quotes does not end in it. */
  lemma {:induction false} LongString(s: string, q: nat, e: nat, b: string)
    requires e == q + 3 + |b| && e < |s| && s[q + 2] == '\'' && s[e] == ')' && At(s, q + 3, b) && '"' !in b
    ensures StringEnd(s, q + 2) > e
  {
    hide At;
    forall k | q + 2 <= k <= e ensures s[k] != '"' {
      if q + 3 <= k < e { AtChar(s, q + 3, b, k - q - 3); }
    }
    PastUnquoted(s, q + 2, e);
  }

  lemma {:induction false} PastUnquoted(s: string, i: nat, e: nat)
    requires i <= e < |s| && forall k :: i <= k <= e ==> s[k] != '"'
    ensures StringEnd(s, i) > e
    decreases e - i
  {
    if s[i] == '\\' && i + 1 < |s| {
      if i + 2 <= e { PastUnquoted(s, i + 2, e); }
    } else if i + 1 <= e {
      PastUnquoted(s, i + 1, e);
    }
  }

  // ----- The arguments -----

  lemma {:induction false} ItemsSplit(s: string, p: nat, items: seq<Item>, depth: nat, start: nat, spans: seq<Span>)
    requires At(s, p, Print(items)) && Formed(items) && depth >= 1 && start <= p && (depth == 1 ==> NoCommas(items))
    ensures p + |Print(items)| <= |s|
    ensures Split(s, p, depth, start, spans) == Split(s, p + |Print(items)|, depth, start, spans)
    decreases items, 0
  {
    hide Split, Print, PrintItem;
    PrintFirst(items);
    if items != [] {
      AtParts(s, p, PrintItem(items[0]), Print(items[1..]));
      ItemSplit(s, p, items[0], depth, start, spans);
      ItemsSplit(s, p + |PrintItem(items[0])|, items[1..], depth, start, spans);
    }
  }

  lemma {:induction false} ItemSplit(s: string, p: nat, i: Item, depth: nat, start: nat, spans: seq<Span>)
    requires At(s, p, PrintItem(i)) && FormedItem(i) && depth >= 1 && start <= p && (depth == 1 ==> !i.Comma?)
    ensures p + |PrintItem(i)| <= |s|
    ensures Split(s, p, depth, start, spans) == Split(s, p + |PrintItem(i)|, depth, start, spans)
    decreases i, 1
  {
    hide Print, StringEnd, CharacterEnd;
    var t := PrintItem(i);
    if i.Group? {
      GroupSplit(s, p, i.items, depth, start, spans);
    } else {
      AtChar(s, p, t, 0);
      match i
      case Literal(_) => LiteralPassed(s, p, t, 1);
      case Letter(_) => LetterPassed(s, p, t);
      case _ =>
    }
  }

  lemma {:induction false} GroupSplit(s: string, p: nat, items: seq<Item>, depth: nat, start: nat, spans: seq<Span>)
    requires At(s, p, "(" + (Print(items) + ")")) && Formed(items) && depth >= 1 && start <= p
    ensures var e := p + 1 + |Print(items)|;
      e < |s| && Split(s, p, depth, start, spans) == Split(s, e + 1, depth, start, spans)
    decreases items, 1
  {
    hide Print, StringEnd, CharacterEnd, At, Formed;
    AtChar(s, p, "(" + (Print(items) + ")"), 0);
    AtParts(s, p, "(", Print(items) + ")");
    AtParts(s, p + 1, Print(items), ")");
    ItemsSplit(s, p + 1, items, depth + 1, start, spans);
    AtChar(s, p + 1 + |Print(items)|, ")", 0);
  }

  /** Arguments with commas between them. */
  function Joined(args: seq<seq<Item>>): string
    requires args != []
  {
    if |args| == 1 then Print(args[0]) else Print(args[0]) + ("," + Joined(args[1..]))
  }

  /** Where the arguments are when the first one starts at p. */
  function SpansOf(args: seq<seq<Item>>, p: nat): (r: seq<Span>)
    ensures |r| == |args|
  {
    if args == [] then [] else [Span(p, |Print(args[0])|)] + SpansOf(args[1..], p + |Print(args[0])| + 1)
  }

  predicate AreArguments(args: seq<seq<Item>>)
  {
    args != [] && forall k :: 0 <= k < |args| ==> Formed(args[k]) && NoCommas(args[k])
  }

  lemma {:induction false} SplitRest(s: string, p: nat, args: seq<seq<Item>>, spans: seq<Span>)
    requires AreArguments(args) && At(s, p, Joined(args) + ")") && |spans| < MAX_ARGS
    ensures Split(s, p, 1, p, spans) ==
      if |spans| + |args| > MAX_ARGS then Arguments.TooMany else Args(spans + SpansOf(args, p), p + |Joined(args)|)
    decreases |args|
  {
    hide Split, Print, Formed, NoCommas, At;
    var e := p + |Print(args[0])|;
    if |args| == 1 {
      AtParts(s, p, Print(args[0]), ")");
      ItemsSplit(s, p, args[0], 1, p, spans);
      AtChar(s, e, ")", 0);
      SplitClose(s, e, p, spans);
      SpansFirst(args, p, spans);
      assert spans + [Span(p, e - p)] + [] == spans + [Span(p, e - p)];
    } else {
      var rest := Joined(args[1..]);
      assert Joined(args) + ")" == Print(args[0]) + ("," + (rest + ")"));
      AtParts(s, p, Print(args[0]), "," + (rest + ")"));
      AtParts(s, e, ",", rest + ")");
      ItemsSplit(s, p, args[0], 1, p, spans);
      AtChar(s, e, ",", 0);
      SplitComma(s, e, p, spans);
      if |spans| < MAX_ARGS - 1 {
        SplitRest(s, e + 1, args[1..], spans + [Span(p, e - p)]);
        SpansFirst(args, p, spans);
      }
    }
  }

  lemma {:induction false} SpansFirst(args: seq<seq<Item>>, p: nat, spans: seq<Span>)
    requires args != []
    ensures var e := p + |Print(args[0])|; spans + SpansOf(args, p) == spans + [Span(p, e - p)] + SpansOf(args[1..], e + 1)
    ensures |args| == 1 ==> SpansOf(args[1..], p + |Print(args[0])| + 1) == []
  {
    hide Print;
  }

  lemma {:induction false} SplitClose(s: string, e: nat, start: nat, spans: seq<Span>)
    requires start <= e < |s| && s[e] == ')'
    ensures Split(s, e, 1, start, spans) == Args(spans + [Span(start, e - start)], e)
  {
  }

  lemma {:induction false} SplitComma(s: string, e: nat, start: nat, spans: seq<Span>)
    requires start <= e < |s| && s[e] == ','
    ensures Split(s, e, 1, start, spans) ==
      if |spans| >= MAX_ARGS - 1 then Arguments.TooMany else Split(s, e + 1, 1, e + 1, spans + [Span(start, e - start)])
  {
  }

  /** The arguments that a call is written with are the ones it is split into, whatever
      literals and groups they contain; more than 128 are refused. */
  lemma {:induction false} SplitPrinted(s: string, p: nat, args: seq<seq<Item>>)
    requires AreArguments(args) && At(s, p, Joined(args) + ")")
    ensures Split(s, p, 1, p, []) ==
      if |args| > MAX_ARGS then Arguments.TooMany else Args(SpansOf(args, p), p + |Joined(args)|)
  {
    hide Split, Joined, AreArguments;
    SplitRest(s, p, args, []);
    assert [] + SpansOf(args, p) == SpansOf(args, p);
  }

  /** The text of argument k. */
  lemma {:induction false} ArgumentText(s: string, p: nat, args: seq<seq<Item>>, k: nat)
    requires AreArguments(args) && At(s, p, Joined(args)) && k < |args|
    ensures var a := SpansOf(args, p)[k]; a.start + a.len <= |s| && s[a.start..a.start + a.len] == Print(args[k])
    decreases |args|
  {
    hide Print, Formed, NoCommas;
    if |args| > 1 {
      var e := p + |Print(args[0])|;
      AtParts(s, p, Print(args[0]), "," + Joined(args[1..]));
      AtParts(s, e, ",", Joined(args[1..]));
      if k > 0 { ArgumentText(s, e + 1, args[1..], k - 1); }
    }
  }

  // ----- The program -----

  function TrimLeft(t: string): (r: string)
    ensures |r| <= |t|
  {
    if t != "" && IsBlank(t[0]) then TrimLeft(t[1..]) else t
  }

  function TrimRight(t: string): (r: string)
    ensures |r| <= |t|
  {
    if t != "" && IsBlank(t[|t| - 1]) then TrimRight(t[..|t| - 1]) else t
  }

  /** Without the blanks at both ends. */
  function Trimmed(t: string): (r: string)
    ensures |r| <= |t|
  {
    TrimRight(TrimLeft(t))
  }

  /** The arguments of a call between lo and hi, trimmed. */
  function ArgumentTexts(s: string, spans: seq<Span>, lo: nat, hi: nat): (r: seq<string>)
    requires lo <= hi <= |s| && forall k :: 0 <= k < |spans| ==> InText(spans[k], lo, hi)
    ensures |r| == |spans| && forall t :: t in r ==> |t| <= hi - lo
  {
    if spans == [] then []
    else
      assert InText(spans[0], lo, hi);
      [Trimmed(s[spans[0].start..spans[0].start + spans[0].len])] + ArgumentTexts(s, spans[1..], lo, hi)
  }

  lemma {:induction false} ArgumentAt(s: string, spans: seq<Span>, lo: nat, hi: nat, k: nat)
    requires lo <= hi <= |s| && (forall j :: 0 <= j < |spans| ==> InText(spans[j], lo, hi)) && k < |spans|
    ensures var a := spans[k]; a.start + a.len <= |s| && ArgumentTexts(s, spans, lo, hi)[k] == Trimmed(s[a.start..a.start + a.len])
  {
    hide Trimmed;
    assert InText(spans[k], lo, hi);
    if k > 0 { ArgumentAt(s, spans[1..], lo, hi, k - 1); }
  }

  predicate InText(a: Span, lo: nat, hi: nat) { lo <= a.start && a.start + a.len <= hi }

  /** The split stays inside the text and ends at a parenthesis. */
  lemma {:induction false} SplitInside(s: string, p: nat, depth: nat, start: nat, spans: seq<Span>, lo: nat)
    requires lo <= start <= p <= |s| && (forall k :: 0 <= k < |spans| ==> InText(spans[k], lo, p)) && |spans| < MAX_ARGS
    ensures var r := Split(s, p, depth, start, spans);
      r.Args? ==>
        && p <= r.close < |s| && s[r.close] == ')' && 0 < |r.spans| <= MAX_ARGS
        && forall k :: 0 <= k < |r.spans| ==> InText(r.spans[k], lo, r.close)
    decreases |s| - p
  {
    hide StringEnd, CharacterEnd;
    if p < |s| {
      if s[p] == '"' { SplitInside(s, StringEnd(s, p + 1), depth, start, spans, lo); }
      else if s[p] == '\'' { SplitInside(s, CharacterEnd(s, p), depth, start, spans, lo); }
      else if s[p] == '(' { SplitInside(s, p + 1, depth + 1, start, spans, lo); }
      else if s[p] == ')' { if depth > 1 { SplitInside(s, p + 1, depth - 1, start, spans, lo); } }
      else if depth == 1 && s[p] == ',' {
        if |spans| < MAX_ARGS - 1 { SplitInside(s, p + 1, 1, p + 1, spans + [Span(start, p - start)], lo); }
      } else { SplitInside(s, p + 1, depth, start, spans, lo); }
    }
  }

  /** A string literal in a call. */
  method PastString(s: string, start: nat) returns (p: nat)
    requires start < |s|
    ensures p == StringEnd(s, start + 1)
  {
    p := start + 1;
    while p < |s| && s[p] != '"'
      invariant start < p <= |s| && StringEnd(s, p) == StringEnd(s, start + 1)
    {
      if s[p] == '\\' && p + 1 < |s| { p := p + 1; }
      p := p + 1;
    }
    if p < |s| { p := p + 1; }
  }

  method PastCharacter(s: string, start: nat) returns (p: nat)
    requires start < |s|
    ensures p == CharacterEnd(s, start)
  {
    p := start + 1;
    if p < |s| && s[p] == '\\' { p := p + 1; }
    if p < |s| { p := p + 1; }
    if p < |s| && s[p] == '\'' { p := p + 1; }
  }

  /** Splits the arguments of a call, from the position behind the opening parenthesis. */
  method SplitArguments(s: string, open: nat) returns (r: Arguments)
    requires open <= |s|
    ensures r == Split(s, open, 1, open, [])
    ensures r.Args? ==> open <= r.close < |s| && s[r.close] == ')' && 0 < |r.spans| <= MAX_ARGS
    ensures r.Args? ==> forall k :: 0 <= k < |r.spans| ==> InText(r.spans[k], open, r.close)
  {
    hide StringEnd, CharacterEnd;
    SplitInside(s, open, 1, open, [], open);
    var ap, depth, start := open, 1, open;
    var spans: seq<Span> := [];
    while ap < |s|
      invariant open <= start <= ap <= |s| && depth >= 1
      invariant Split(s, ap, depth, start, spans) == Split(s, open, 1, open, [])
    {
      if s[ap] == '"' {
        ap := PastString(s, ap);
      } else if s[ap] == '\'' {
        ap := PastCharacter(s, ap);
      } else {
        if s[ap] == '(' {
          depth := depth + 1;
        } else if s[ap] == ')' {
          depth := depth - 1;
          if depth == 0 { return Args(spans + [Span(start, ap - start)], ap); }
        } else if depth == 1 && s[ap] == ',' {
          if |spans| >= MAX_ARGS - 1 { return Arguments.TooMany; }
          spans := spans + [Span(start, ap - start)];
          start := ap + 1;
        }
        ap := ap + 1;
      }
    }
    r := Unclosed;
  }

  method TrimStart(s: string, a: Span) returns (r: Span)
    requires a.start + a.len <= |s|
    ensures InText(r, a.start, a.start + a.len) && r.start + r.len == a.start + a.len
    ensures s[r.start..r.start + r.len] == TrimLeft(s[a.start..a.start + a.len])
    ensures (r.len > 0 ==> !IsBlank(s[r.start])) && forall k :: a.start <= k < r.start ==> IsBlank(s[k])
  {
    r := a;
    while r.len > 0 && IsBlank(s[r.start])
      invariant InText(r, a.start, a.start + a.len) && r.start + r.len == a.start + a.len
      invariant TrimLeft(s[r.start..r.start + r.len]) == TrimLeft(s[a.start..a.start + a.len])
      invariant forall k :: a.start <= k < r.start ==> IsBlank(s[k])
      decreases r.len
    {
      assert s[r.start..r.start + r.len][1..] == s[r.start + 1..r.start + r.len];
      r := Span(r.start + 1, r.len - 1);
    }
  }

  lemma {:induction false} TrimEnd(s: string, i: nat, j: nat)
    requires i <= j <= |s|
    ensures TrimRight(s[i..j]) == if i < j && IsBlank(s[j - 1]) then TrimRight(s[i..j - 1]) else s[i..j]
  {
    if i < j {
      assert s[i..j][..j - i - 1] == s[i..j - 1];
    }
  }

  /** Without the blanks at both ends. */
  method Trim(s: string, a: Span) returns (r: Span)
    requires a.start + a.len <= |s|
    ensures InText(r, a.start, a.start + a.len)
    ensures s[r.start..r.start + r.len] == Trimmed(s[a.start..a.start + a.len])
    ensures r.len > 0 ==> !IsBlank(s[r.start]) && !IsBlank(s[r.start + r.len - 1])
    ensures forall k :: a.start <= k < a.start + a.len && !(r.start <= k < r.start + r.len) ==> IsBlank(s[k])
  {
    hide TrimLeft, TrimRight;
    var l := TrimStart(s, a);
    r := l;
    while r.len > 0 && IsBlank(s[r.start + r.len - 1])
      invariant r.start == l.start && r.len <= l.len
      invariant TrimRight(s[r.start..r.start + r.len]) == Trimmed(s[a.start..a.start + a.len])
      invariant forall k :: r.start + r.len <= k < a.start + a.len ==> IsBlank(s[k])
      decreases r.len
    {
      TrimEnd(s, r.start, r.start + r.len);
      r := Span(r.start, r.len - 1);
    }
    TrimEnd(s, r.start, r.start + r.len);
  }

  /** The closing parenthesis of the list that opens at open. */
  method MatchingParen(s: string, open: nat) returns (found: bool, close: nat)
    requires open < |s| && s[open] == '('
    ensures close == CloseOf(s, open + 1, 1) && (found <==> close < |s|) && open < close
    ensures found ==> s[close] == ')'
  {
    hide StringEnd;
    var depth := 1;
    close := open + 1;
    while close < |s|
      invariant open < close <= |s| && depth >= 1 && CloseOf(s, close, depth) == CloseOf(s, open + 1, 1)
    {
      if s[close] == '"' {
        close := PastString(s, close);
      } else {
        if s[close] == '(' { depth := depth + 1; }
        if s[close] == ')' {
          depth := depth - 1;
          if depth == 0 { return true, close; }
        }
        close := close + 1;
      }
    }
    found := false;
  }
}
