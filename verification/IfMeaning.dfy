/** What the words and the operators of #if mean: numbers by their digits, operators by
    arithmetic, names by the list of macros. */
module IfMeaning {
  import opened Words
  import opened WordFacts
  import opened IfExpression
  import P = IfPrinting

  predicate IsLong(v: int) { -0x8000_0000_0000_0000 <= v < 0x8000_0000_0000_0000 }

  /** r is the long that differs from x by a multiple of 2^64. */
  predicate Wraps(r: int, x: int) { IsLong(r) && (r - x) % W64 == 0 }

  lemma {:induction false} LongWraps(x: int)
    ensures Wraps(S64(x), x) && (IsLong(x) ==> S64(x) == x)
  {
    var u, q := U64(x), x / W64;
    IsMod(x, W64);
    assert S64(x) - x == (if u < 0x8000_0000_0000_0000 then -q else -q - 1) * W64 + 0;
    DivModUnique(S64(x) - x, W64, if u < 0x8000_0000_0000_0000 then -q else -q - 1, 0);
    if IsLong(x) {
      if x >= 0 { DivModUnique(x, W64, 0, x); } else { DivModUnique(x, W64, -1, x + W64); }
    }
  }

  /** There is only one such long. */
  lemma {:induction false} WrapsOnce(r: int, t: int, x: int)
    requires Wraps(r, x) && Wraps(t, x)
    ensures r == t
  {
    var a, b := (r - x) / W64, (t - x) / W64;
    assert r - t == (a - b) * W64 && t - r == (b - a) * W64;
    if a - b >= 1 { MulAtLeast(a - b, W64); }
    if b - a >= 1 { MulAtLeast(b - a, W64); }
  }

  // ----- Numbers -----

  /** A digit and, from ten on, whether it is written as a capital letter. */
  datatype Figure = Figure(v: nat, capital: bool)

  const SMALL: string := "0123456789abcdef"
  const CAPITAL: string := "0123456789ABCDEF"

  function Glyph(f: Figure): char
    requires f.v < 16
  {
    if f.capital then CAPITAL[f.v] else SMALL[f.v]
  }

  predicate Below(fs: seq<Figure>, base: nat) { base <= 16 && forall i :: 0 <= i < |fs| ==> fs[i].v < base }

  function Written(fs: seq<Figure>): (s: string)
    requires Below(fs, 16)
    ensures |s| == |fs|
  {
    if fs == [] then "" else [Glyph(fs[0])] + Written(fs[1..])
  }

  /** The number with these digits, the last one being the units. */
  function Positional(fs: seq<Figure>, base: nat): nat
  {
    if fs == [] then 0 else Positional(fs[..|fs| - 1], base) * base + fs[|fs| - 1].v
  }

  lemma {:induction false} GlyphReads(f: Figure, base: nat)
    requires f.v < base <= 16
    ensures DigitValue(Glyph(f), base) == f.v
  {
  }

  lemma {:induction false} WrittenGood(fs: seq<Figure>, base: nat)
    requires Below(fs, base) && Below(fs, 16)
    ensures P.AllDigits(Written(fs), base)
    decreases |fs|
  {
    hide DigitValue;
    if fs != [] {
      GlyphReads(fs[0], base);
      WrittenGood(fs[1..], base);
    }
  }

  lemma {:induction false} WrittenSnoc(fs: seq<Figure>)
    requires Below(fs, 16) && fs != []
    ensures var n := |fs| - 1; Written(fs)[..n] == Written(fs[..n]) && Written(fs)[n] == Glyph(fs[n])
    decreases |fs|
  {
    var n := |fs| - 1;
    if n > 0 {
      assert fs[1..][..n - 1] == fs[..n][1..];
      WrittenSnoc(fs[1..]);
    }
  }

  lemma {:induction false} NumberSnoc(d: string, c: char, base: int, acc: int)
    requires P.AllDigits(d, base) && P.AllDigits([c], base)
    ensures P.AllDigits(d + [c], base) && P.Number(d + [c], base, acc) == S64(P.Number(d, base, acc) * base + DigitValue(c, base))
    decreases |d|
  {
    hide S64, DigitValue;
    assert DigitValue([c][0], base) >= 0;
    if d == "" {
      assert d + [c] == [c] && [c][1..] == "";
    } else {
      assert (d + [c])[1..] == d[1..] + [c];
      NumberSnoc(d[1..], c, base, S64(acc * base + DigitValue(d[0], base)));
    }
  }

  /** Digits read as the number they denote, reduced to a long; below 2^63 that is the
      number itself. */
  lemma {:induction false} NumberDenotes(fs: seq<Figure>, base: nat)
    requires Below(fs, base) && Below(fs, 16) && P.AllDigits(Written(fs), base)
    ensures Wraps(P.Number(Written(fs), base, 0), Positional(fs, base))
    ensures Positional(fs, base) < 0x8000_0000_0000_0000 ==> P.Number(Written(fs), base, 0) == Positional(fs, base)
    decreases |fs|
  {
    hide S64, DigitValue, P.Number, Written;
    if fs == [] {
      assert P.Number("", base, 0) == 0 && Written(fs) == "" by { NoDigits(base); }
    } else {
      var n := |fs| - 1;
      var init, last := fs[..n], fs[n];
      WrittenSnoc(fs);
      WrittenGood(init, base);
      GlyphReads(last, base);
      assert Written(fs) == Written(init) + [Glyph(last)];
      NumberDenotes(init, base);
      NumberSnoc(Written(init), Glyph(last), base, 0);
      var x := P.Number(Written(init), base, 0);
      LongWraps(x * base + last.v);
      WrapsStep(x, Positional(init, base), base, last.v);
    }
    LongWraps(Positional(fs, base));
    WrapsOnceIf(P.Number(Written(fs), base, 0), Positional(fs, base));
  }

  lemma {:induction false} NoDigits(base: nat)
    ensures P.Number("", base, 0) == 0 && Written([]) == ""
  {
  }

  lemma {:induction false} WrapsOnceIf(r: int, x: int)
    requires Wraps(r, x)
    ensures IsLong(x) ==> r == x
  {
    if IsLong(x) { WrapsOnce(r, x, x); }
  }

  lemma {:induction false} WrapsStep(x: int, y: int, base: nat, v: nat)
    requires Wraps(x, y)
    ensures Wraps(S64(x * base + v), y * base + v)
  {
    var r := S64(x * base + v);
    LongWraps(x * base + v);
    var a, b := (r - (x * base + v)) / W64, (x - y) / W64;
    assert x - y == b * W64;
    assert x * base - y * base == (b * base) * W64;
    assert r - (y * base + v) == (a + b * base) * W64 + 0;
    DivModUnique(r - (y * base + v), W64, a + b * base, 0);
  }

  // ----- Operators -----

  /** q and r are quotient and remainder as section 6.5.5 of ISO C11 has them. */
  predicate Divides(a: int, b: int, q: int, r: int)
  {
    a == b * q + r && Size(r) < Size(b) && (r == 0 || (r < 0 <==> a < 0))
  }

  predicate OneIf(v: int, b: bool) { v == if b then 1 else 0 }

  lemma {:induction false} SumsMean(a: int, b: int)
    ensures Wraps(Apply(a, Plus, b), a + b) && Wraps(Apply(a, Minus, b), a - b) && Wraps(Apply(a, Star, b), a * b)
  {
    LongWraps(a + b); LongWraps(a - b); LongWraps(a * b);
  }

  lemma {:induction false} QuotientsMean(a: int, b: int, q: int, r: int)
    requires b != 0 && Divides(a, b, q, r)
    ensures Wraps(Apply(a, Slash, b), q) && Apply(a, Percent, b) == r
  {
    TruncDivExactly(a, b, q, r);
    LongWraps(q);
  }

  lemma {:induction false} TestsMean(a: int, b: int)
    ensures OneIf(Apply(a, Kind.And, b), a != 0 && b != 0) && OneIf(Apply(a, Kind.Or, b), a != 0 || b != 0)
    ensures OneIf(Apply(a, Kind.Eq, b), a == b) && OneIf(Apply(a, Kind.Ne, b), a != b)
    ensures OneIf(Apply(a, Kind.Lt, b), a < b) && OneIf(Apply(a, Kind.Ge, b), a >= b)
    ensures OneIf(Apply(a, Kind.Gt, b), a > b) && OneIf(Apply(a, Kind.Le, b), a <= b)
    ensures OneIf(ApplyUnary(Not, a), a == 0)
  {
  }

  lemma {:induction false} LongBits(x: int, i: nat)
    requires i < 64
    ensures Bit(S64(x), i) == Bit(x, i)
  {
    LongWraps(x);
    WordSize();
    var k := (S64(x) - x) / W64;
    assert S64(x) == x + k * W64;
    Reduced(x, k, W64);
    BitLow(x, 64, i);
    BitLow(S64(x), 64, i);
  }

  lemma {:induction false} BitsMean(a: int, b: int, i: nat)
    requires i < 64
    ensures Bit(Apply(a, Amper, b), i) <==> Bit(a, i) && Bit(b, i)
    ensures Bit(Apply(a, Bar, b), i) <==> Bit(a, i) || Bit(b, i)
    ensures Bit(Apply(a, Caret, b), i) <==> Bit(a, i) != Bit(b, i)
    ensures Bit(ApplyUnary(Tilde, a), i) <==> !Bit(a, i)
  {
    hide Bit, S64, PerBit, Pow2;
    WordSize();
    LongBits(And64(a, b), i); LongBits(Or64(a, b), i); LongBits(Xor64(a, b), i); LongBits(-a - 1, i);
    PerBitAt(64, (x, y) => x && y, U64(a), U64(b), i);
    PerBitAt(64, (x, y) => x || y, U64(a), U64(b), i);
    PerBitAt(64, (x, y) => x != y, U64(a), U64(b), i);
    BitLow(a, 64, i); BitLow(b, 64, i);
    Flipped(a, i);
  }

  lemma {:induction false} Flipped(a: int, i: nat)
    ensures Bit(-a - 1, i) <==> !Bit(a, i)
  {
    var p := Pow2(i);
    var q, r := a / p, a % p;
    assert -a - 1 == (-q - 1) * p + (p - 1 - r);
    DivModUnique(-a - 1, p, -q - 1, p - 1 - r);
  }

  /** Shifts by less than 64: left with wrap-around, right with the sign filled in. */
  lemma {:induction false} ShiftsMean(a: int, b: nat)
    requires b < 64
    ensures Wraps(Apply(a, Shl, b), a * Pow2(b))
    ensures var r := Apply(a, Shr, b); r * Pow2(b) <= a < (r + 1) * Pow2(b)
  {
    DivModUnique(b, 64, 0, b);
    LongWraps(a * Pow2(b));
    var p := Pow2(b);
    assert a == a / p * p + a % p && (a / p + 1) * p == a / p * p + p;
  }

  lemma {:induction false} SignsMean(a: int)
    ensures Wraps(ApplyUnary(Minus, a), -a) && ApplyUnary(Plus, a) == a
  {
    LongWraps(-a);
  }

  /** How tightly the operators bind, by the grammar of sections 6.5.5 to 6.5.14 of ISO C11:
      those of one line alike, and each line less tightly than the next. */
  lemma {:induction false} Binding()
    ensures 1 <= Prec(Kind.Or) < Prec(Kind.And) < Prec(Bar) < Prec(Caret) < Prec(Amper)
    ensures Prec(Amper) < Prec(Kind.Eq) == Prec(Kind.Ne)
    ensures Prec(Kind.Ne) < Prec(Kind.Lt) == Prec(Kind.Gt) == Prec(Kind.Le) == Prec(Kind.Ge)
    ensures Prec(Kind.Ge) < Prec(Shl) == Prec(Shr)
    ensures Prec(Shr) < Prec(Plus) == Prec(Minus)
    ensures Prec(Minus) < Prec(Star) == Prec(Slash) == Prec(Percent)
    ensures forall k :: Prec(k) < 1 <==> k in {Kind.End, Kind.Number, Open, Close, Tilde, Not}
  {
  }

  // ----- Names and characters -----

  /** The macro that counts is the first one of that name. */
  lemma {:induction false} LookupIs(ms: seq<Macro>, n: string, t: string)
    ensures Lookup(ms, n) == Has(t) <==>
      exists i :: 0 <= i < |ms| && ms[i] == Macro(n, t) && forall j :: 0 <= j < i ==> ms[j].name != n
    decreases |ms|
  {
    if ms != [] {
      LookupIs(ms[1..], n, t);
      if ms[0].name == n {
        if ms[0].text == t { assert ms[0] == Macro(n, t); }
      } else {
        if i :| 0 <= i < |ms| && ms[i] == Macro(n, t) && forall j :: 0 <= j < i ==> ms[j].name != n {
          assert ms[1..][i - 1] == ms[i];
          forall j | 0 <= j < i - 1 ensures ms[1..][j].name != n { assert ms[1..][j] == ms[j + 1]; }
        }
        if i :| 0 <= i < |ms[1..]| && ms[1..][i] == Macro(n, t) && forall j :: 0 <= j < i ==> ms[1..][j].name != n {
          assert ms[i + 1] == Macro(n, t);
          forall j | 0 <= j < i + 1 ensures ms[j].name != n { if j > 0 { assert ms[1..][j - 1] == ms[j]; } }
        }
      }
    }
  }

  /** Some macro has that name. */
  predicate Named(ms: seq<Macro>, n: string) { exists i :: 0 <= i < |ms| && ms[i].name == n }

  lemma {:induction false} LookupNamed(ms: seq<Macro>, n: string)
    ensures Lookup(ms, n).Has? <==> Named(ms, n)
    decreases |ms|
  {
    if ms != [] {
      LookupNamed(ms[1..], n);
      if i :| 0 <= i < |ms| && ms[i].name == n { if i > 0 { assert ms[1..][i - 1].name == n; } }
      if i :| 0 <= i < |ms[1..]| && ms[1..][i].name == n { assert ms[i + 1].name == n; }
    }
  }

  /** defined is 1 if and only if there is a macro of that name. */
  lemma {:induction false} DefinedMeans(ms: seq<Macro>, b: string, o: string, n: string, c: string, nest: nat)
    requires P.GoodAtom(P.Defined(b, n))
    ensures OneIf(P.AtomValue(P.Defined(b, n), ms, nest), Named(ms, n))
    ensures P.GoodAtom(P.DefinedIn(b, o, n, c)) ==> OneIf(P.AtomValue(P.DefinedIn(b, o, n, c), ms, nest), Named(ms, n))
  {
    LookupNamed(ms, n);
  }

  /** The values of section 6.4.4.4 of ISO C11 for escapes of one character. */
  function EscapeValue(c: char): int
  {
    match c
    case 'a' => 7 case 'b' => 8 case 't' => 9 case 'n' => 10 case 'v' => 11 case 'f' => 12 case 'r' => 13
    case '0' => 0 case '1' => 1 case '2' => 2 case '3' => 3 case '4' => 4 case '5' => 5 case '6' => 6 case '7' => 7
    case '\\' => 92 case '\'' => 39 case '"' => 34 case '?' => 63
    case _ => 0
  }

  predicate IsEscape(c: char) { c in "abtnvfr01234567\\'\"?" }

  /** An escape means what C says except for alert, backspace, vertical tab, form feed and
      the octal digits but 0. */
  lemma {:induction false} EscapesExactly(c: char)
    requires IsEscape(c)
    ensures P.AtomValue(P.Escape(c), [], 0) == EscapeValue(c) <==> c !in "abvf1234567"
  {
  }

  /** A character below 128 means its code. */
  lemma {:induction false} CharacterMeans(c: char)
    requires c != '\\' && c as int < 128
    ensures P.AtomValue(P.Plain(c), [], 0) == c as int
  {
  }
}
