/** The text of a decimal literal: sign, digits around a point, exponent; at most
    eighteen digits count. */
module FloatLiteral {
  import opened Words
  import opened Decimal
  import opened Texts

  datatype Sign = NoSign | Plus | Minus

  datatype Power = NoPower | Power(mark: char, sign: Sign, digits: seq<nat>)

  /** A decimal literal; the digits of each part come first to last. */
  datatype Literal = Literal(sign: Sign, whole: seq<nat>, dot: bool, frac: seq<nat>, power: Power)

  predicate AreDigits(ds: seq<nat>) { forall i :: 0 <= i < |ds| ==> ds[i] < 10 }

  predicate WellFormed(l: Literal)
  {
    && AreDigits(l.whole) && AreDigits(l.frac) && (!l.dot ==> l.frac == [])
    && (l.power.Power? ==> (l.power.mark == 'e' || l.power.mark == 'E') && AreDigits(l.power.digits))
  }

  function Glyph(d: nat): char
    requires d < 10
  {
    '0' + d as char
  }

  predicate IsDigit(c: char) { '0' <= c <= '9' }

  function Glyphs(ds: seq<nat>): (t: string)
    requires AreDigits(ds)
    ensures |t| == |ds| && forall i :: 0 <= i < |ds| ==> t[i] == Glyph(ds[i])
  {
    seq(|ds|, i requires 0 <= i < |ds| && AreDigits(ds) => Glyph(ds[i]))
  }

  function SignText(s: Sign): string
  {
    match s case NoSign => "" case Plus => "+" case Minus => "-"
  }

  function PowerText(p: Power): string
    requires p.Power? ==> AreDigits(p.digits)
  {
    if p.NoPower? then "" else [p.mark] + SignText(p.sign) + Glyphs(p.digits)
  }

  /** The part of a literal after its sign, and what follows the literal. */
  function AfterSign(l: Literal, tail: string): string
    requires WellFormed(l)
  {
    Glyphs(l.whole) + (if l.dot then "." else "") + Glyphs(l.frac) + (PowerText(l.power) + tail)
  }

  function Print(l: Literal, tail: string): string
    requires WellFormed(l)
  {
    SignText(l.sign) + AfterSign(l, tail)
  }

  /** Nothing in the tail could belong to the literal. */
  predicate Ends(tail: string)
  {
    |tail| > 0 ==> !IsDigit(tail[0]) && tail[0] !in ['.', 'e', 'E', '+', '-']
  }

  /** Digits, first to last. */
  function Decimal10(ds: seq<nat>): nat
  {
    if ds == [] then 0 else 10 * Decimal10(ds[..|ds| - 1]) + ds[|ds| - 1]
  }

  lemma {:induction false} DecimalSnoc(ds: seq<nat>, d: nat)
    ensures Decimal10(ds + [d]) == 10 * Decimal10(ds) + d
  {
    assert (ds + [d])[..|ds|] == ds;
  }

  lemma {:induction false} DecimalBound(ds: seq<nat>)
    requires AreDigits(ds)
    ensures Decimal10(ds) < Pow10(|ds|)
    decreases |ds|
  {
    if ds != [] { DecimalBound(ds[..|ds| - 1]); }
  }

  lemma {:induction false} TenTimes(a: nat, p: nat, b: nat, d: nat)
    ensures 10 * (a * p + b) + d == a * (10 * p) + (10 * b + d)
  {
  }

  lemma {:induction false} DecimalSplit(a: seq<nat>, b: seq<nat>)
    ensures Decimal10(a + b) == Decimal10(a) * Pow10(|b|) + Decimal10(b)
    decreases |b|
  {
    if b == [] {
      assert a + b == a;
    } else {
      var b', d := b[..|b| - 1], b[|b| - 1];
      assert a + b == (a + b') + [d] && b == b' + [d];
      DecimalSnoc(a + b', d); DecimalSnoc(b', d);
      DecimalSplit(a, b');
      TenTimes(Decimal10(a), Pow10(|b'|), Decimal10(b'), d);
    }
  }

  /** Without the zeros in front. */
  function Strip(ds: seq<nat>): (r: seq<nat>)
    ensures |r| <= |ds|
  {
    if ds == [] || ds[0] != 0 then ds else Strip(ds[1..])
  }

  lemma {:induction false} StripIs(ds: seq<nat>)
    ensures var z := |ds| - |Strip(ds)|; Strip(ds) == ds[z..] && forall i :: 0 <= i < z ==> ds[i] == 0
    ensures Strip(ds) != [] ==> Strip(ds)[0] != 0
    decreases |ds|
  {
    if ds != [] && ds[0] == 0 {
      var t := ds[1..];
      StripIs(t);
      var z := |ds| - |Strip(ds)|;
      assert t[z - 1..] == ds[z..];
      forall i | 0 <= i < z ensures ds[i] == 0 {
        if i > 0 { assert ds[i] == t[i - 1]; }
      }
    }
  }

  lemma {:induction false} ZerosInFront(zeros: seq<nat>, b: seq<nat>)
    requires forall i :: 0 <= i < |zeros| ==> zeros[i] == 0
    ensures Decimal10(zeros + b) == Decimal10(b)
  {
    NoValue(zeros);
    DecimalSplit(zeros, b);
  }

  lemma {:induction false} NoValue(zeros: seq<nat>)
    requires forall i :: 0 <= i < |zeros| ==> zeros[i] == 0
    ensures Decimal10(zeros) == 0
    decreases |zeros|
  {
    if zeros != [] { NoValue(zeros[..|zeros| - 1]); }
  }

  function Least(a: int, b: int): int { if a < b then a else b }

  /** The digits that are looked at. */
  function Digits(l: Literal): seq<nat> { Strip(l.whole) + l.frac }

  /** The first eighteen of them as an integer. */
  function Significand(l: Literal): nat { Decimal10(Digits(l)[..Least(18, |Digits(l)|)]) }

  function PowerValue(p: Power): int
  {
    if p.NoPower? then 0 else if p.sign.Minus? then -(Decimal10(p.digits) as int) else Decimal10(p.digits)
  }

  /** The power of ten that the significand is multiplied by. */
  function Scale(l: Literal): int { PowerValue(l.power) + |Strip(l.whole)| - Least(18, |Digits(l)|) }

  /** With at most eighteen digits nothing is lost: the literal's digits times
      10^(power - number of digits after the point) is what gets converted.
      With more, the digits after the eighteenth are cut off. */
  lemma {:induction false} SignificandIs(l: Literal)
    requires WellFormed(l)
    ensures |Digits(l)| <= 18 ==> Significand(l) == Decimal10(l.whole + l.frac) && Scale(l) == PowerValue(l.power) - |l.frac|
    ensures |Digits(l)| > 18 ==>
      var lost := |Digits(l)| - 18;
      && Scale(l) == PowerValue(l.power) - |l.frac| + lost
      && Significand(l) * Pow10(lost) <= Decimal10(l.whole + l.frac) < (Significand(l) + 1) * Pow10(lost)
  {
    hide Decimal10, Pow10, Strip, AreDigits, WellFormed;
    DigitsCount(l);
    FirstDigits(Digits(l), Least(18, |Digits(l)|));
  }

  /** The zeros in front do not count. */
  lemma {:induction false} DigitsCount(l: Literal)
    requires WellFormed(l)
    ensures AreDigits(Digits(l)) && Decimal10(l.whole + l.frac) == Decimal10(Digits(l))
  {
    hide Decimal10, Strip;
    var ds := Digits(l);
    var zeros := l.whole[..|l.whole| - |Strip(l.whole)|];
    StripIs(l.whole);
    assert l.whole == zeros + Strip(l.whole);
    assert l.whole + l.frac == zeros + ds;
    ZerosInFront(zeros, ds);
  }

  lemma {:induction false} FirstDigits(ds: seq<nat>, n: nat)
    requires n <= |ds| && AreDigits(ds)
    ensures n == |ds| ==> ds[..n] == ds
    ensures Decimal10(ds[..n]) * Pow10(|ds| - n) <= Decimal10(ds) < (Decimal10(ds[..n]) + 1) * Pow10(|ds| - n)
  {
    assert ds == ds[..n] + ds[n..];
    DecimalSplit(ds[..n], ds[n..]);
    DecimalBound(ds[n..]);
    SumTimes(Decimal10(ds[..n]), 1, Pow10(|ds| - n));
  }

  /** Reads an optional sign. */
  method ReadSign(s: string, i: nat, ghost sign: Sign) returns (neg: bool, i': nat)
    requires i + |SignText(sign)| <= |s| && s[i..i + |SignText(sign)|] == SignText(sign)
    requires sign.NoSign? && i < |s| ==> s[i] != '-' && s[i] != '+'
    ensures neg == sign.Minus? && i' == i + |SignText(sign)|
  {
    ghost var t := SignText(sign);
    assert t != "" ==> s[i] == s[i..i + |t|][0] == t[0];
    neg, i' := false, i;
    if i < |s| && s[i] == '-' {
      neg, i' := true, i + 1;
    } else if i < |s| && s[i] == '+' {
      i' := i + 1;
    }
  }

  /** The digits ds stand in s at i. */
  predicate Shows(s: string, i: nat, ds: seq<nat>)
  {
    AreDigits(ds) && i + |ds| <= |s| && s[i..i + |ds|] == Glyphs(ds)
  }

  /** Skips zeros in the whole part. */
  method SkipZeros(s: string, i: nat, ghost whole: seq<nat>) returns (i': nat)
    requires Shows(s, i, whole) && i + |whole| <= |s|
    requires i + |whole| < |s| ==> s[i + |whole|] != '0'
    ensures i' == i + |whole| - |Strip(whole)|
  {
    hide Strip, Shows, IsDigit;
    i' := i;
    ghost var z := 0;
    assert whole[0..] == whole;
    while i' < |s| && s[i'] == '0'
      invariant i' == i + z && z <= |whole| && Strip(whole) == Strip(whole[z..])
    {
      GlyphAt(s, i, whole, z);
      StripOne(whole, z);
      z := z + 1;
      i' := i' + 1;
    }
    if z < |whole| { GlyphAt(s, i, whole, z); }
    StripNone(whole[z..]);
  }

  lemma {:induction false} StripOne(ds: seq<nat>, z: nat)
    requires z < |ds| && ds[z] == 0
    ensures Strip(ds[z..]) == Strip(ds[z + 1..])
  {
    assert ds[z..][1..] == ds[z + 1..];
  }

  lemma {:induction false} StripNone(ds: seq<nat>)
    requires ds == [] || ds[0] != 0
    ensures Strip(ds) == ds
  {
  }

  lemma {:induction false} GlyphAt(s: string, i: nat, ds: seq<nat>, k: nat)
    requires Shows(s, i, ds) && k < |ds|
    ensures i + k < |s| && IsDigit(s[i + k]) && (s[i + k] - '0') as int == ds[k] && (s[i + k] == '0' <==> ds[k] == 0) && ds[k] < 10
  {
    assert s[i + k] == s[i..i + |ds|][k] == Glyph(ds[k]);
  }

  /** The exponent's digits. */
  method ReadExponent(s: string, i: nat, ghost ds: seq<nat>) returns (v: nat)
    requires Shows(s, i, ds) && i + |ds| <= |s|
    requires i + |ds| < |s| ==> !IsDigit(s[i + |ds|])
    ensures v == Decimal10(ds)
  {
    hide Decimal10, Shows;
    v := 0;
    var j := i;
    NoValue(ds[..0]);
    while j < |s| && IsDigit(s[j])
      invariant i <= j <= i + |ds| && v == Decimal10(ds[..j - i])
    {
      ghost var k := j - i;
      GlyphAt(s, i, ds, k);
      DecimalSnoc(ds[..k], ds[k]);
      assert ds[..k + 1] == ds[..k] + [ds[k]];
      v := v * 10 + (s[j] - '0') as int;
      j := j + 1;
    }
    if j - i < |ds| { GlyphAt(s, i, ds, j - i); }
    assert ds[..|ds|] == ds;
  }

  /** The digits w, a point if there is one, and the digits frac stand in s at i, and
      then something else. */
  predicate ShowsNumber(s: string, i: nat, w: seq<nat>, dot: bool, frac: seq<nat>)
  {
    var end := NumberEnd(i, w, dot, frac);
    && Shows(s, i, w) && Shows(s, end - |frac|, frac) && i <= end <= |s|
    && (!dot ==> frac == []) && (dot ==> i + |w| < |s| && s[i + |w|] == '.')
    && (end < |s| ==> !IsDigit(s[end]) && s[end] != '.')
  }

  function NumberEnd(i: nat, w: seq<nat>, dot: bool, frac: seq<nat>): nat
  {
    i + |w| + (if dot then 1 else 0) + |frac|
  }

  /** What stands where n digits and perhaps the point have been read. */
  lemma {:induction false} NextGlyph(s: string, i: nat, w: seq<nat>, dot: bool, frac: seq<nat>, n: nat, seen: bool)
    requires ShowsNumber(s, i, w, dot, frac) && n <= |w + frac| && (if seen then dot && n >= |w| else n <= |w|)
    ensures var j := i + n + if seen then 1 else 0;
      && j <= |s|
      && (j < |s| && IsDigit(s[j]) ==>
            n < |w + frac| && (s[j] - '0') as int == (w + frac)[n] && (w + frac)[n] < 10 && (!seen ==> n < |w|))
      && (j < |s| && s[j] == '.' ==> !seen && dot && n == |w|)
      && (j == |s| || (!IsDigit(s[j]) && s[j] != '.') ==> j == NumberEnd(i, w, dot, frac) && n == |w + frac|)
  {
    hide Shows, DigitsValue, Decimal10;
    var at := i + |w| + if dot then 1 else 0;
    if n < |w| {
      GlyphAt(s, i, w, n);
    } else if seen && n < |w + frac| {
      GlyphAt(s, at, frac, n - |w|);
      assert (w + frac)[n] == frac[n - |w|];
    }
  }

  /** The significand's digits, at most eighteen of them. */
  method ReadDigits(s: string, i: nat, ghost w: seq<nat>, ghost dot: bool, ghost frac: seq<nat>)
    returns (mh: Word, ml: Word, total: nat, ints: nat, i': nat)
    requires ShowsNumber(s, i, w, dot, frac)
    ensures total == Least(18, |w + frac|) && ints == |w| && i' == NumberEnd(i, w, dot, frac)
    ensures Pair(mh, ml) == Decimal10((w + frac)[..total]) < Pow10(18)
  {
    hide ShowsNumber, Pair, Decimal10, Pow10;
    ghost var ds, n := w + frac, 0;
    var seen := false;
    mh, ml := Small(0);
    total, ints, i' := 0, 0, i;
    StartDigits(ds);
    NextGlyph(s, i, w, dot, frac, n, seen);
    while i' < |s|
      invariant n <= |ds| && (if seen then dot && n >= |w| else n <= |w|)
      invariant i' == i + n + (if seen then 1 else 0) <= |s|
      invariant ints == Least(n, |w|) && total == Least(18, n) && Pair(mh, ml) == Decimal10(ds[..total]) < Pow10(total)
      decreases |s| - i'
    {
      NextGlyph(s, i, w, dot, frac, n, seen);
      if IsDigit(s[i']) {
        if total < 18 {
          mh, ml := OneMoreDigit(mh, ml, (s[i'] - '0') as int, ds, total);
          total := total + 1;
        }
        if !seen { ints := ints + 1; }
        n := n + 1;
        i' := i' + 1;
      } else if s[i'] == '.' {
        seen := true;
        i' := i' + 1;
      } else {
        break;
      }
      NextGlyph(s, i, w, dot, frac, n, seen);
    }
    NextGlyph(s, i, w, dot, frac, n, seen);
    assert n == |ds|;
    Pow10Grows(total, 18);
  }

  lemma {:induction false} StartDigits(ds: seq<nat>)
    ensures Decimal10(ds[..0]) == 0 < Pow10(0)
  {
  }

  method OneMoreDigit(mh: Word, ml: Word, d: nat, ghost ds: seq<nat>, ghost n: nat) returns (mh': Word, ml': Word)
    requires n < |ds| && n < 18 && ds[n] == d < 10 && Pair(mh, ml) == Decimal10(ds[..n]) < Pow10(n)
    ensures Pair(mh', ml') == Decimal10(ds[..n + 1]) < Pow10(n + 1)
  {
    hide Pair, Decimal10, Pow10;
    Below18(n);
    mh', ml' := Mul10Small(mh, ml);
    mh', ml' := AddSmall(mh', ml', d);
    DecimalSnoc(ds[..n], d);
    assert ds[..n + 1] == ds[..n] + [d];
    Pow10Next(n);
  }

  lemma {:induction false} Pow10Next(n: nat)
    ensures Pow10(n + 1) == 10 * Pow10(n)
  {
  }

  /** A text that starts with digits starts with a digit. */
  lemma {:induction false} StartsWith(ds: seq<nat>, rest: string)
    requires AreDigits(ds) && (|rest| > 0 ==> !IsSign(rest[0]))
    ensures var t := Glyphs(ds) + rest; |t| > 0 ==> !IsSign(t[0])
  {
    if ds != [] { assert (Glyphs(ds) + rest)[0] == Glyph(ds[0]); }
  }

  predicate IsSign(c: char) { c == '-' || c == '+' }

  lemma {:induction false} AfterDigits(p: Power, tail: string)
    requires Ends(tail) && (p.Power? ==> (p.mark == 'e' || p.mark == 'E') && AreDigits(p.digits))
    ensures var t := PowerText(p) + tail;
      |t| > 0 ==> !IsDigit(t[0]) && t[0] != '.' && !IsSign(t[0]) && (p.Power? <==> t[0] == 'e' || t[0] == 'E')
  {
  }

  /** The parts of a printed literal, one after the other. */
  lemma {:induction false} SignFirst(l: Literal, tail: string)
    requires WellFormed(l) && Ends(tail)
    ensures var s, i := Print(l, tail), |SignText(l.sign)|;
      i <= |s| && s[0..i] == SignText(l.sign) && (l.sign.NoSign? && 0 < |s| ==> !IsSign(s[0])) && s[i..] == AfterSign(l, tail)
  {
    hide Glyphs, AreDigits, PowerText, Ends;
    var s := Print(l, tail);
    var c := if l.dot then "." else "";
    var t := PowerText(l.power) + tail;
    AfterDigits(l.power, tail);
    StartsWith(l.frac, t);
    StartsWith(l.whole, c + (Glyphs(l.frac) + t));
    assert AfterSign(l, tail) == Glyphs(l.whole) + (c + (Glyphs(l.frac) + t));
    assert s[0..] == SignText(l.sign) + AfterSign(l, tail);
    Past(s, 0, SignText(l.sign), AfterSign(l, tail));
  }

  lemma {:induction false} NumberNext(s: string, i: nat, l: Literal, tail: string)
    requires WellFormed(l) && Ends(tail) && i <= |s| && s[i..] == AfterSign(l, tail)
    ensures Shows(s, i, l.whole) && ShowsNumber(s, i, l.whole, l.dot, l.frac)
    ensures s[NumberEnd(i, l.whole, l.dot, l.frac)..] == PowerText(l.power) + tail
  {
    hide Glyphs, AreDigits, PowerText, Ends, IsDigit, Shows;
    var c := if l.dot then "." else "";
    Pieces(s, i, Glyphs(l.whole), c, Glyphs(l.frac), PowerText(l.power) + tail);
    IsShown(s, i, l.whole);
    IsShown(s, i + |l.whole| + |c|, l.frac);
    AfterDigits(l.power, tail);
  }

  lemma {:induction false} Pieces(s: string, i: nat, a: string, b: string, c: string, d: string)
    requires i <= |s| && (s[i..] == a + b + c + d || s[i..] == a + (b + (c + d)))
    ensures i + |a| + |b| + |c| + |d| == |s|
    ensures s[i..i + |a|] == a && (|b| > 0 ==> s[i + |a|] == b[0])
    ensures s[i + |a| + |b|..i + |a| + |b| + |c|] == c
    ensures s[i + |a| + |b| + |c|..] == d && (|d| > 0 ==> s[i + |a| + |b| + |c|] == d[0])
  {
    assert s[i..] == a + (b + (c + d));
    Past(s, i, a, b + (c + d));
    Past(s, i + |a|, b, c + d);
    Past(s, i + |a| + |b|, c, d);
  }

  lemma {:induction false} IsShown(s: string, i: nat, ds: seq<nat>)
    requires AreDigits(ds) && i + |ds| <= |s| && s[i..i + |ds|] == Glyphs(ds)
    ensures Shows(s, i, ds)
  {
  }

  /** Leading zeros of the whole part may be dropped from the shown number. */
  lemma {:induction false} Stripped(s: string, i: nat, whole: seq<nat>, dot: bool, frac: seq<nat>)
    requires ShowsNumber(s, i, whole, dot, frac)
    ensures i + |whole| < |s| ==> s[i + |whole|] != '0'
    ensures var i' := i + |whole| - |Strip(whole)|;
      ShowsNumber(s, i', Strip(whole), dot, frac)
      && NumberEnd(i', Strip(whole), dot, frac) == NumberEnd(i, whole, dot, frac)
  {
    hide IsDigit, Shows, Strip;
    ZeroDigit();
    StripIs(whole);
    var z := |whole| - |Strip(whole)|;
    ShownTail(s, i, whole, z);
    FewerDigits(s, i, whole, dot, frac, z);
  }

  lemma {:induction false} ZeroDigit()
    ensures IsDigit('0')
  {
  }

  lemma {:induction false} FewerDigits(s: string, i: nat, whole: seq<nat>, dot: bool, frac: seq<nat>, z: nat)
    requires ShowsNumber(s, i, whole, dot, frac) && z <= |whole|
    ensures ShowsNumber(s, i + z, whole[z..], dot, frac)
    ensures NumberEnd(i + z, whole[z..], dot, frac) == NumberEnd(i, whole, dot, frac)
  {
    hide IsDigit, Shows;
    ShownTail(s, i, whole, z);
    assert i + z + |whole[z..]| == i + |whole|;
  }

  lemma {:induction false} ShownTail(s: string, i: nat, ds: seq<nat>, z: nat)
    requires Shows(s, i, ds) && z <= |ds|
    ensures Shows(s, i + z, ds[z..])
  {
    assert s[i + z..i + |ds|] == s[i..i + |ds|][z..];
    assert Glyphs(ds)[z..] == Glyphs(ds[z..]);
  }

  /** The exponent, if there is one. */
  method ReadPower(s: string, i: nat, ghost p: Power, ghost tail: string) returns (v: int)
    requires p.Power? ==> (p.mark == 'e' || p.mark == 'E') && AreDigits(p.digits)
    requires i <= |s| && s[i..] == PowerText(p) + tail && Ends(tail)
    ensures v == PowerValue(p)
  {
    hide Decimal10, Glyphs, IsDigit;
    v := 0;
    AfterDigits(p, tail);
    assert i < |s| ==> s[i] == s[i..][0];
    if i < |s| && (s[i] == 'e' || s[i] == 'E') {
      PowerPieces(s, i, p, tail);
      var neg, j := ReadSign(s, i + 1, p.sign);
      var n := ReadExponent(s, j, p.digits);
      v := n;
      if neg { v := -v; }
    }
  }

  lemma {:induction false} PowerPieces(s: string, i: nat, p: Power, tail: string)
    requires i < |s| && p.Power? && AreDigits(p.digits) && Ends(tail) && s[i..] == PowerText(p) + tail
    ensures var j := i + 1 + |SignText(p.sign)|;
      && j + |p.digits| <= |s| && s[i + 1..j] == SignText(p.sign) && Shows(s, j, p.digits)
      && (p.sign.NoSign? && i + 1 < |s| ==> !IsSign(s[i + 1]))
      && (j + |p.digits| < |s| ==> !IsDigit(s[j + |p.digits|]))
  {
    hide Glyphs, Ends, IsDigit, Shows, AreDigits, IsSign;
    var j := i + 1 + |SignText(p.sign)|;
    Pieces(s, i, [p.mark], SignText(p.sign), Glyphs(p.digits), tail);
    IsShown(s, j, p.digits);
    SignAt(s, i, p, tail);
    if |tail| > 0 { TailStart(tail); }
  }

  lemma {:induction false} TailStart(tail: string)
    requires Ends(tail) && |tail| > 0
    ensures !IsDigit(tail[0]) && !IsSign(tail[0])
  {
  }

  lemma {:induction false} SignAt(s: string, i: nat, p: Power, tail: string)
    requires i < |s| && p.Power? && AreDigits(p.digits) && Ends(tail) && s[i..] == PowerText(p) + tail
    ensures p.sign.NoSign? && i + 1 < |s| ==> !IsSign(s[i + 1])
  {
    hide Glyphs, Ends, IsDigit, Shows, AreDigits, IsSign;
    if p.sign.NoSign? && i + 1 < |s| {
      if |tail| > 0 { TailStart(tail); }
      StartsWith(p.digits, tail);
      assert s[i + 1] == s[i..][1] == (Glyphs(p.digits) + tail)[0];
    }
  }

  /** What a correct conversion of m * 10^exp is. */
  ghost predicate Accurate(m: nat, exp: int, neg: bool, hi: Word, lo: Word)
  {
    exists p: int :: Leads(Numerator(m, exp), Denominator(exp), p)
      && Converted(Numerator(m, exp), Denominator(exp), p, hi, lo) && Negative(hi) == neg
  }

  /** Any literal whose integer part stays below 2^52 and that has at most 18 digits
      after the point once its exponent has been applied. */
  predicate InRange(m: nat, exp: int)
  {
    -18 <= exp && Numerator(m, exp) / Denominator(exp) < M52
  }

  method ReadLiteral(s: string, ghost l: Literal, ghost tail: string)
    returns (neg: bool, mh: Word, ml: Word, total: nat, exp: int)
    requires WellFormed(l) && Ends(tail) && s == Print(l, tail)
    ensures neg == l.sign.Minus? && Pair(mh, ml) == Significand(l) && exp == Scale(l) && total == Least(18, |Digits(l)|)
  {
    hide Pair, Decimal10, Strip, Glyphs, IsDigit, Shows, ShowsNumber, PowerText, PowerValue, Ends, AreDigits, NumberEnd, AfterSign, Print;
    SignFirst(l, tail);
    var i, ints;
    neg, i := ReadSign(s, 0, l.sign);
    NumberNext(s, i, l, tail);
    mh, ml, total, ints, i := ReadNumber(s, i, l.whole, l.dot, l.frac);
    exp := ReadPower(s, i, l.power, tail);
    var inFrac := if total < ints then 0 else total - ints;
    var excess := if ints > total then ints - total else 0;
    exp := exp - inFrac + excess;
  }

  /** Leading zeros, then the digits and the point. */
  method ReadNumber(s: string, i: nat, ghost whole: seq<nat>, ghost dot: bool, ghost frac: seq<nat>)
    returns (mh: Word, ml: Word, total: nat, ints: nat, i': nat)
    requires ShowsNumber(s, i, whole, dot, frac)
    ensures var ds := Strip(whole) + frac;
      && total == Least(18, |ds|) && ints == |Strip(whole)| && i' == NumberEnd(i, whole, dot, frac) <= |s|
      && Pair(mh, ml) == Decimal10(ds[..total])
  {
    hide Pair, Decimal10, Strip, Shows, IsDigit;
    Stripped(s, i, whole, dot, frac);
    i' := SkipZeros(s, i, whole);
    mh, ml, total, ints, i' := ReadDigits(s, i', Strip(whole), dot, frac);
  }

  method ParseFloatLiteral(s: string, ghost l: Literal, ghost tail: string) returns (lo: Word, hi: Word)
    requires WellFormed(l) && Ends(tail) && s == Print(l, tail)
    requires Significand(l) == 0 || InRange(Significand(l), Scale(l))
    ensures Significand(l) == 0 ==> lo == 0 && hi == if l.sign.Minus? then 0x8000_0000 else 0
    ensures Significand(l) > 0 ==> Accurate(Significand(l), Scale(l), l.sign.Minus?, hi, lo)
  {
    hide Pair, Significand, Scale, Leads, Converted, Print, WellFormed, Ends, Negative;
    var neg, mh, ml, total, exp := ReadLiteral(s, l, tail);
    ZeroPair(mh, ml);
    if total == 0 || (mh == 0 && ml == 0) {
      if total == 0 { NoDigitsRead(l); }
      return 0, if neg then 0x8000_0000 else 0;
    }
    ghost var p;
    lo, hi, p := Convert(neg, mh, ml, exp);
  }

  lemma {:induction false} NoDigitsRead(l: Literal)
    requires Least(18, |Digits(l)|) == 0
    ensures Significand(l) == 0
  {
  }
}
