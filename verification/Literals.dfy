/** Decimal literals against their own value: what the cut after eighteen digits costs,
    and exactly when the conversion is still a nearest binary64 value or next to one. */
module Literals {
  import opened Words
  import opened Decimal
  import opened FloatLiteral
  import opened Rounding

  // ----- The value of a literal -----

  /** 10^k. */
  function Ten(k: int): (r: real)
    ensures r > 0.0
  {
    if k >= 0 then Pow10(k) as real else 1.0 / Pow10(-k) as real
  }

  /** The value of a literal without its sign. */
  function LiteralValue(l: Literal): real
  {
    Times(Decimal10(l.whole + l.frac) as real, Ten(PowerValue(l.power) - |l.frac|))
  }

  /** The digits behind the eighteenth are zeros, if there are any. */
  predicate NothingLost(l: Literal) { forall i :: 18 <= i < |Digits(l)| ==> Digits(l)[i] == 0 }

  lemma {:induction false} TenNext(k: int)
    ensures Ten(k + 1) == 10.0 * Ten(k)
  {
    if k >= 0 { Pow10Next(k); } else { Pow10Next(-k - 1); }
  }

  lemma {:induction false} TenAdd(a: nat, b: int)
    ensures Ten(a + b) == Times(Pow10(a) as real, Ten(b))
    decreases a
  {
    hide Ten, Times;
    if a == 0 {
      OneTimes(Ten(b));
    } else {
      TenAdd(a - 1, b);
      TenNext(a - 1 + b);
      assert a - 1 + b + 1 == a + b;
      Pow10Next(a - 1);
      TenTimes(Pow10(a - 1) as real, Ten(b));
    }
  }

  lemma {:induction false} OneTimes(y: real)
    ensures Times(Pow10(0) as real, y) == y
  {
  }

  lemma {:induction false} TenTimes(x: real, y: real)
    ensures Times(10.0 * x, y) == 10.0 * Times(x, y)
  {
    RegroupReal(10.0, x, y);
  }

  lemma {:induction false} RatioIs(m: nat, exp: int)
    ensures Ratio(Numerator(m, exp), Denominator(exp)) == Times(m as real, Ten(exp))
  {
    if exp > 0 {
      Product(m, Pow10(exp));
    } else if exp < 0 {
      Fractional(m as real, Pow10(-exp) as real);
    }
  }

  lemma {:induction false} Product(a: nat, b: nat)
    ensures (a * b) as real == a as real * b as real
  {
  }

  lemma {:induction false} Fractional(a: real, b: real)
    requires b > 0.0
    ensures a / b == a * (1.0 / b)
  {
  }

  /** What is converted is the value of the literal, cut off after the digits that count. */
  lemma {:induction false} CutOff(l: Literal)
    requires WellFormed(l)
    ensures var m, x := Significand(l) as real, Ten(Scale(l));
      Times(m, x) <= LiteralValue(l) < Times(m + 1.0, x) && (NothingLost(l) ==> LiteralValue(l) == Times(m, x))
  {
    hide Decimal10, Ten, Times, Scale, Significand, Digits;
    var lost := if |Digits(l)| > 18 then |Digits(l)| - 18 else 0;
    var e := PowerValue(l.power) - |l.frac|;
    var n, m := Decimal10(l.whole + l.frac), Significand(l);
    CutDigits(l, lost);
    TenAdd(lost, e);
    assert lost + e == Scale(l);
    Scaling(m, Pow10(lost), Ten(e)); Scaling(m + 1, Pow10(lost), Ten(e));
    var w := Ten(e);
    OrderInUnits((m * Pow10(lost)) as real, n as real, w);
    OrderInUnits(n as real, ((m + 1) * Pow10(lost)) as real, w);
  }

  lemma {:induction false} Scaling(m: nat, w: nat, t: real)
    ensures Times((m * w) as real, t) == Times(m as real, Times(w as real, t))
  {
    Product(m, w);
    RegroupReal(m as real, w as real, t);
  }

  lemma {:induction false} CutDigits(l: Literal, lost: nat)
    requires WellFormed(l) && lost == (if |Digits(l)| > 18 then |Digits(l)| - 18 else 0)
    ensures Scale(l) == PowerValue(l.power) - |l.frac| + lost
    ensures var n, m, w := Decimal10(l.whole + l.frac), Significand(l), Pow10(lost);
      m * w <= n < (m + 1) * w && (NothingLost(l) ==> n == m * w)
  {
    hide Decimal10, Strip, NothingLost;
    SignificandIs(l);
    if |Digits(l)| <= 18 {
      assert Pow10(0) == 1;
    } else if NothingLost(l) {
      ExactCut(l);
    }
  }

  lemma {:induction false} ExactCut(l: Literal)
    requires WellFormed(l) && |Digits(l)| > 18 && NothingLost(l)
    ensures Decimal10(l.whole + l.frac) == Decimal10(Digits(l)[..18]) * Pow10(|Digits(l)| - 18)
  {
    hide Decimal10, Pow10, Digits;
    DigitsWorth(l);
    CutZeros(Digits(l), 18);
  }

  /** Leading zeros are worth nothing. */
  lemma {:induction false} DigitsWorth(l: Literal)
    ensures Decimal10(l.whole + l.frac) == Decimal10(Digits(l))
  {
    hide Decimal10, Strip;
    StripIs(l.whole);
    var zeros := l.whole[..|l.whole| - |Strip(l.whole)|];
    assert l.whole + l.frac == zeros + (Strip(l.whole) + l.frac);
    ZerosInFront(zeros, Digits(l));
  }

  lemma {:induction false} CutZeros(ds: seq<nat>, k: nat)
    requires k <= |ds| && forall i :: k <= i < |ds| ==> ds[i] == 0
    ensures Decimal10(ds) == Decimal10(ds[..k]) * Pow10(|ds| - k)
  {
    hide Decimal10, Pow10;
    assert ds == ds[..k] + ds[k..];
    NoValue(ds[k..]);
    DecimalSplit(ds[..k], ds[k..]);
  }

  // ----- Exactly when the conversion is accurate -----

  /** The significand at exponent p that the conversion gives m/d. */
  function Rounded(m: nat, d: nat, p: int): int
    requires d > 0 && p <= 51
  {
    Scaled(m, p) / d + if Rest(m, d, p) == 0 || 2 * Rest(m, d, p) == d then 0 else 1
  }

  /** What the literal is worth does not lie too far above what is converted. */
  ghost predicate CloseAt(l: Literal, p: int)
    requires p <= 51
  {
    2.0 * LiteralValue(l)
      <= Times(Limit(Rounded(Numerator(Significand(l), Scale(l)), Denominator(Scale(l)), p)) as real, Two(p - 52))
  }

  predicate LeadsAt(l: Literal, p: int) { Leads(Numerator(Significand(l), Scale(l)), Denominator(Scale(l)), p) }

  predicate ConvertedAt(l: Literal, p: int, hi: Word, lo: Word)
  {
    Converted(Numerator(Significand(l), Scale(l)), Denominator(Scale(l)), p, hi, lo)
  }

  /** The result is a nearest binary64 value to the literal, or next to one, exactly if
      the digits that were cut off do not carry the literal too far. */
  lemma {:induction false} LiteralExactly(l: Literal, p: int, hi: Word, lo: Word)
    requires WellFormed(l) && LeadsAt(l, p) && ConvertedAt(l, p, hi, lo)
    ensures p <= 51 && (NextToNearest(Produced(hi, lo), LiteralValue(l)) <==> CloseAt(l, p))
  {
    hide Leads, Rest, Scaled, Two, Value, Exponent, Mantissa, Produced, SignificandAt, Pow2, Ten, Numerator, Denominator,
      Significand, Scale, LiteralValue, NextToNearest, Ratio, Times, Limit, WellFormed;
    var m, d := Numerator(Significand(l), Scale(l)), Denominator(Scale(l));
    var u, sig, y := Two(p - 52), SignificandAt(p, hi, lo), LiteralValue(l);
    var q := Ratio(Scaled(m, p), d);
    ProducedUnits(m, d, p, hi, lo);
    WholeUnits(m, d, p);
    QuotientInUnits(m, d, p);
    CutOff(l);
    RatioIs(Significand(l), Scale(l));
    var v := y / u;
    Divided(y, u);
    OrderInUnits(q, v, u);
    NextExactly(p, sig, v);
    TwiceInUnits(v, Limit(sig) as real, u);
  }

  lemma {:induction false} Divided(y: real, u: real)
    requires u > 0.0
    ensures Times(y / u, u) == y
  {
  }

  lemma {:induction false} TwiceInUnits(v: real, limit: real, u: real)
    requires u > 0.0
    ensures 2.0 * v <= limit <==> 2.0 * Times(v, u) <= Times(limit, u)
  {
    OrderInUnits(2.0 * v, limit, u);
    RegroupReal(2.0, v, u);
  }

  /** With at most eighteen digits, or zeros behind them, the result is always one of these. */
  lemma {:induction false} ShortLiteral(l: Literal, p: int, hi: Word, lo: Word)
    requires WellFormed(l) && LeadsAt(l, p) && ConvertedAt(l, p, hi, lo) && NothingLost(l)
    ensures NextToNearest(Produced(hi, lo), LiteralValue(l))
  {
    hide Leads, Rest, Scaled, Two, Exponent, Mantissa, Produced, SignificandAt, Pow2, Ten, Numerator, Denominator,
      Significand, Scale, LiteralValue, NextToNearest, Ratio, Times, WellFormed, NothingLost;
    var m, d := Numerator(Significand(l), Scale(l)), Denominator(Scale(l));
    CutOff(l);
    RatioIs(Significand(l), Scale(l));
    QuotientInUnits(m, d, p);
    WholeUnits(m, d, p);
    LiteralExactly(l, p, hi, lo);
    var q := Ratio(Scaled(m, p), d);
    InLimit(q, q, Scaled(m, p) / d, Rounded(m, d, p), m, d, p, hi, lo);
    TwiceInUnits(q, Limit(Rounded(m, d, p)) as real, Two(p - 52));
  }

  /** A value less than a tenth of a unit above q is within the limit. */
  lemma {:induction false} InLimit(v: real, q: real, k: int, sig: int, m: nat, d: nat, p: int, hi: Word, lo: Word)
    requires d > 0 && Converted(m, d, p, hi, lo) && k == Scaled(m, p) / d && sig == Rounded(m, d, p)
    requires k as real <= q < (k + 1) as real && (Scaled(m, p) % d == 0 <==> q == k as real) && v <= q + 0.5
    ensures 2.0 * v <= Limit(sig) as real
  {
    hide Rest, Scaled, Exponent, Mantissa, SignificandAt, Converted;
    ProducedUnits(m, d, p, hi, lo);
  }

  /** If the literal's first digit that counts is not zero, the result is one of these,
      however many digits follow. */
  lemma {:induction false} LongLiteral(l: Literal, p: int, hi: Word, lo: Word)
    requires WellFormed(l) && LeadsAt(l, p) && ConvertedAt(l, p, hi, lo) && Digits(l) != [] && Digits(l)[0] != 0
    ensures NextToNearest(Produced(hi, lo), LiteralValue(l))
  {
    hide Leads, Rest, Scaled, Two, Exponent, Mantissa, Produced, SignificandAt, Pow2, Ten, Numerator, Denominator,
      Significand, Scale, LiteralValue, NextToNearest, Ratio, Times, WellFormed, Digits, Limit, Rounded;
    if |Digits(l)| <= 18 {
      ShortLiteral(l, p, hi, lo);
    } else {
      var m, d := Numerator(Significand(l), Scale(l)), Denominator(Scale(l));
      var u, y := Two(p - 52), LiteralValue(l);
      var q := Ratio(Scaled(m, p), d);
      CutOff(l);
      RatioIs(Significand(l), Scale(l));
      QuotientInUnits(m, d, p);
      WholeUnits(m, d, p);
      LiteralExactly(l, p, hi, lo);
      LargeSignificand(l);
      Divided(y, u);
      SmallCut(y / u, q, u, Significand(l) as real, Ten(Scale(l)));
      InLimit(y / u, q, Scaled(m, p) / d, Rounded(m, d, p), m, d, p, hi, lo);
      TwiceInUnits(y / u, Limit(Rounded(m, d, p)) as real, u);
    }
  }

  lemma {:induction false} LargeSignificand(l: Literal)
    requires WellFormed(l) && |Digits(l)| > 18 && Digits(l)[0] != 0
    ensures Significand(l) >= 100_000_000_000_000_000
  {
    hide Digits, Decimal10;
    var ds := Digits(l)[..18];
    assert ds == [ds[0]] + ds[1..];
    DecimalSplit([ds[0]], ds[1..]);
    OneDigitIs(ds[0]);
    Pow10Seventeen();
    MulMono(ds[0], 1, Pow10(17), Pow10(17));
  }

  lemma {:induction false} OneDigitIs(d: nat)
    ensures Decimal10([d]) == d
  {
    assert [d][..0] == [];
  }

  lemma {:induction false} Pow10Seventeen()
    ensures Pow10(17) == 100_000_000_000_000_000
  {
    SmallPowers();
    Pow10Next(17);
  }

  /** One unit of a significand of eighteen digits is less than half a unit in the last place. */
  lemma {:induction false} SmallCut(v: real, q: real, u: real, m: real, t: real)
    requires u > 0.0 && t > 0.0 && m >= 100_000_000_000_000_000.0 && q < (2 * M52) as real
    requires Times(m, t) == Times(q, u) && Times(v, u) < Times(m + 1.0, t)
    ensures v <= q + 0.5
  {
    hide Times;
    var w := 100_000_000_000_000_000.0;
    OneMore(m, t);
    OrderInUnits(w, m, t);
    OrderInUnits(q, (2 * M52) as real, u);
    HalfUnit(t, u);
    HalfMore(q, u);
    OrderInUnits(v, q + 0.5, u);
  }

  lemma {:induction false} OneMore(m: real, t: real)
    ensures Times(m + 1.0, t) == Times(m, t) + t
  {
  }

  lemma {:induction false} HalfUnit(t: real, u: real)
    requires Times(100_000_000_000_000_000.0, t) < Times((2 * M52) as real, u) && u > 0.0
    ensures t <= 0.5 * u
  {
  }

  lemma {:induction false} HalfMore(q: real, u: real)
    ensures Times(q + 0.5, u) == Times(q, u) + 0.5 * u
  {
  }

  // ----- When the digits that count are zeros -----

  /** Every binary64 value is a whole number of the smallest ones. */
  lemma {:induction false} Smallest(s: int, e: int) returns (j: int)
    requires IsDouble(s, e)
    ensures Value(s, e) == Times(j as real, Two(-1074))
  {
    hide Two, Times, Pow2;
    var w := Pow2(e + 1022);
    j := s * w;
    PowerAdd(e + 1022, -1074);
    assert e + 1022 + -1074 == e - 52;
    TwoWhole(e + 1022);
    Repeated(s, w, Two(-1074));
    ValueTimes(s, e);
  }

  lemma {:induction false} Repeated(s: int, w: int, u: real)
    ensures Times(s as real, Times(w as real, u)) == Times((s * w) as real, u)
  {
    assert (s * w) as real == s as real * w as real;
    RegroupReal(s as real, w as real, u);
  }

  lemma {:induction false} TwoWhole(k: nat)
    ensures Two(k) == Pow2(k) as real
  {
  }

  lemma {:induction false} ValueTimes(s: int, e: int)
    ensures Value(s, e) == Times(s as real, Two(e - 52))
  {
    hide Two;
  }

  lemma {:induction false} SmallDouble(j: int)
    requires 0 <= j <= 2
    ensures IsDouble(j, -1022) && Value(j, -1022) == Times(j as real, Two(-1074))
  {
  }

  /** Zero is a nearest value, or next to one, exactly up to one and a half of the
      smallest positive binary64 value. */
  lemma {:induction false} ZeroExactly(x: real)
    requires x >= 0.0
    ensures NextToNearest(0.0, x) <==> 2.0 * x <= Times(3.0, Two(-1074))
  {
    hide Two, Value, Times;
    var u := Two(-1074);
    var v := x / u;
    Divided(x, u);
    TwiceInUnits(v, 3.0, u);
    OrderInUnits(0.0, v, u);
    ZeroTimes(u);
    if 2.0 * v <= 3.0 { ZeroIfSmall(v); } else { NotZeroIfLarge(v); }
  }

  lemma {:induction false} ZeroTimes(u: real)
    ensures Times(0.0, u) == 0.0
  {
  }

  lemma {:induction false} ZeroIfSmall(v: real)
    requires 0.0 <= v && 2.0 * v <= 3.0
    ensures NextToNearest(0.0, Times(v, Two(-1074)))
  {
    hide Two, Value, Times, IsDouble;
    var u := Two(-1074);
    var near := if 2.0 * v <= 1.0 then 0 else 1;
    SmallDouble(near);
    ZeroTimes(u);
    forall s, e | IsDouble(s, e)
      ensures Apart(Times(near as real, u), Times(v, u)) <= Apart(Value(s, e), Times(v, u))
      ensures !(Times(near as real, u) < Value(s, e) < 0.0) && !(0.0 < Value(s, e) < Times(near as real, u))
    {
      var j := Smallest(s, e);
      WholeApart(j, v, near);
      NearerInUnits(near as real, j as real, v, u);
      OrderInUnits(0.0, j as real, u); OrderInUnits(j as real, near as real, u);
      OrderInUnits(j as real, 0.0, u); OrderInUnits(near as real, j as real, u);
    }
    assert IsDouble(near, -1022) && NearestTo(Value(near, -1022), Times(v, u)) && NothingBetween(Value(near, -1022), 0.0);
  }

  lemma {:induction false} WholeApart(j: int, v: real, near: int)
    requires 0.0 <= v && 2.0 * v <= 3.0 && near == if 2.0 * v <= 1.0 then 0 else 1
    ensures Apart(near as real, v) <= Apart(j as real, v)
  {
    if j >= 2 { assert j as real >= 2.0; } else if j < 0 { assert j as real <= -1.0; }
  }

  lemma {:induction false} NotZeroIfLarge(v: real)
    requires 2.0 * v > 3.0
    ensures !NextToNearest(0.0, Times(v, Two(-1074)))
  {
    hide Two, Value, Times, IsDouble;
    var u := Two(-1074);
    if NextToNearest(0.0, Times(v, u)) {
      var s, e :| IsDouble(s, e) && NearestTo(Value(s, e), Times(v, u)) && NothingBetween(Value(s, e), 0.0);
      SmallDouble(1); SmallDouble(2);
      ZeroTimes(u);
      var j := Smallest(s, e);
      assert if j >= 2 then j as real >= 2.0 else j as real <= 1.0;
      OrderInUnits(0.0, 1.0, u); OrderInUnits(1.0, j as real, u);
      NearerInUnits(j as real, 2.0, v, u);
      assert false;
    }
  }

  // ----- The program -----

  /** What the result is worth without its sign. */
  function Worth(hi: Word, lo: Word): real
  {
    if lo == 0 && hi % 0x8000_0000 == 0 then 0.0 else Produced(hi, lo)
  }

  /** The literal is converted accurately. */
  ghost predicate Close(l: Literal)
  {
    if Significand(l) == 0 then 2.0 * LiteralValue(l) <= Times(3.0, Two(-1074))
    else exists p: int :: p <= 51 && LeadsAt(l, p) && CloseAt(l, p)
  }

  /** Reads a literal.  The result is a nearest binary64 value to the literal itself, or
      next to one, if and only if the literal is close to its first eighteen digits. */
  method ParseExactly(s: string, ghost l: Literal, ghost tail: string) returns (lo: Word, hi: Word)
    requires WellFormed(l) && Ends(tail) && s == Print(l, tail)
    requires Significand(l) == 0 || InRange(Significand(l), Scale(l))
    ensures NextToNearest(Worth(hi, lo), LiteralValue(l)) <==> Close(l)
    ensures Digits(l) != [] && Digits(l)[0] != 0 ==> NextToNearest(Worth(hi, lo), LiteralValue(l))
    ensures NothingLost(l) ==> NextToNearest(Worth(hi, lo), LiteralValue(l))
    ensures hi >= 0x8000_0000 <==> l.sign.Minus?
  {
    hide Leads, Converted, NextToNearest, LiteralValue, CloseAt, Produced, Significand, Scale, Print, WellFormed, Ends, Digits,
      NothingLost, InRange;
    lo, hi := ParseFloatLiteral(s, l, tail);
    if Significand(l) == 0 {
      ZeroResult(l);
    } else {
      AccurateResult(l, hi, lo);
    }
  }

  lemma {:induction false} ZeroResult(l: Literal)
    requires WellFormed(l) && Significand(l) == 0
    ensures NextToNearest(0.0, LiteralValue(l)) <==> Close(l)
    ensures NothingLost(l) ==> NextToNearest(0.0, LiteralValue(l))
    ensures !(Digits(l) != [] && Digits(l)[0] != 0)
  {
    hide NextToNearest, LiteralValue, Times, Two, Significand, NothingLost;
    NotNegative(l);
    ZeroExactly(LiteralValue(l));
    CutOff(l);
    ZeroTimes(Ten(Scale(l)));
    ThreePositive();
    if Digits(l) != [] && Digits(l)[0] != 0 { FirstCounts(l); }
  }

  lemma {:induction false} NotNegative(l: Literal)
    ensures LiteralValue(l) >= 0.0
  {
  }

  lemma {:induction false} ThreePositive()
    ensures Times(3.0, Two(-1074)) > 0.0
  {
    hide Two;
  }

  lemma {:induction false} FirstCounts(l: Literal)
    requires Digits(l) != [] && Digits(l)[0] != 0
    ensures Significand(l) > 0
  {
    hide Digits, Decimal10;
    var n := Least(18, |Digits(l)|);
    var ds := Digits(l)[..n];
    assert ds == [ds[0]] + ds[1..];
    DecimalSplit([ds[0]], ds[1..]);
    OneDigitIs(ds[0]);
    Pow10Positive(|ds| - 1);
    MulMono(ds[0], 1, Pow10(|ds| - 1), 1);
  }

  lemma {:induction false} Pow10Positive(n: nat)
    ensures Pow10(n) >= 1
  {
  }

  lemma {:induction false} AccurateResult(l: Literal, hi: Word, lo: Word)
    requires WellFormed(l) && Significand(l) > 0 && Accurate(Significand(l), Scale(l), l.sign.Minus?, hi, lo)
    ensures Worth(hi, lo) == Produced(hi, lo) && (hi >= 0x8000_0000 <==> l.sign.Minus?)
    ensures NextToNearest(Worth(hi, lo), LiteralValue(l)) <==> Close(l)
    ensures Digits(l) != [] && Digits(l)[0] != 0 ==> NextToNearest(Worth(hi, lo), LiteralValue(l))
    ensures NothingLost(l) ==> NextToNearest(Worth(hi, lo), LiteralValue(l))
  {
    hide Leads, NextToNearest, LiteralValue, CloseAt, Produced, Significand, Scale, WellFormed, Digits, NothingLost, Numerator,
      Denominator, Converted;
    var m, d := Numerator(Significand(l), Scale(l)), Denominator(Scale(l));
    var p: int :| Leads(m, d, p) && Converted(m, d, p, hi, lo) && Negative(hi) == l.sign.Minus?;
    NotZeroBits(m, d, p, hi, lo);
    LiteralExactly(l, p, hi, lo);
    if Close(l) {
      var p2: int :| p2 <= 51 && LeadsAt(l, p2) && CloseAt(l, p2);
      LeadsOnce(m, d, p, p2);
    }
    if Digits(l) != [] && Digits(l)[0] != 0 { LongLiteral(l, p, hi, lo); }
    if NothingLost(l) { ShortLiteral(l, p, hi, lo); }
  }

  lemma {:induction false} NotZeroBits(m: nat, d: nat, p: int, hi: Word, lo: Word)
    requires d > 0 && Converted(m, d, p, hi, lo)
    ensures hi % 0x8000_0000 != 0
  {
    hide Rest, Scaled, Exponent, SignificandAt;
    NoExponent(hi);
  }

  lemma {:induction false} NoExponent(hi: Word)
    ensures hi % 0x8000_0000 == 0 ==> Exponent(hi) == -1023
  {
    assert hi % 0x8000_0000 == 0 ==> hi == 0 || hi == 0x8000_0000;
  }

  /** The leading bit has one position. */
  lemma {:induction false} LeadsOnce(m: nat, d: nat, p: int, q: int)
    requires d > 0 && p <= 51 && q <= 51 && Leads(m, d, p) && Leads(m, d, q)
    ensures p == q
  {
    hide Leads, Scaled, Pow2;
    ScaledRange(m, d, p); ScaledRange(m, d, q);
    if p < q { ScaledTwice(m, p, q); }
    if q < p { ScaledTwice(m, q, p); }
    assert 2 * (M52 * d) == 2 * M52 * d;
  }

  lemma {:induction false} ScaledTwice(m: nat, p: int, q: int)
    requires p < q <= 51
    ensures Scaled(m, p) >= 2 * Scaled(m, q)
    decreases q - p
  {
    Pow2Next(51 - p);
    assert m * (2 * Pow2(51 - p)) == 2 * (m * Pow2(51 - p));
    if p + 1 < q { ScaledTwice(m, p + 1, q); }
  }

  // ----- Two literals -----

  function Nothing(n: nat): (ds: seq<nat>)
    ensures |ds| == n && forall i :: 0 <= i < n ==> ds[i] == 0
  {
    seq(n, _ => 0)
  }

  /** 0.0000000000000000001e5: the zeros behind the point use up the digits. */
  function AllZeros(): Literal { Literal(NoSign, [0], true, Nothing(18) + [1], Power('e', NoSign, [5])) }

  /** It is 10^-14, and it reads as zero, which is not even next to a nearest value. */
  lemma {:induction false} ZerosCount()
    ensures var l := AllZeros();
      WellFormed(l) && Significand(l) == 0 && LiteralValue(l) == Ten(-14) && !NextToNearest(0.0, LiteralValue(l))
  {
    hide Two, Pow2, NextToNearest, Times;
    var l := AllZeros();
    FracDigits(l, 18, [1]);
    assert (Nothing(18) + [1])[..18] == Nothing(18);
    NoValue(Nothing(18));
    OneDigitIs(1); OneDigitIs(5);
    OneTimes(Ten(-14));
    assert 1.0 * Ten(-14) == Ten(-14);
    ZeroExactly(Ten(-14));
    TinyPower();
    TenFourteen();
  }

  /** The digits of a literal with nothing but zeros up to place n. */
  lemma {:induction false} FracDigits(l: Literal, n: nat, ds: seq<nat>)
    requires l.whole == [0] && l.frac == Nothing(n) + ds
    ensures Digits(l) == l.frac && Decimal10(l.whole + l.frac) == Decimal10(ds)
  {
    hide Decimal10;
    assert Strip([0]) == Strip([]) by { assert [0][1..] == []; }
    ZerosInFront(Nothing(n), ds);
    ZerosInFront([0], l.frac);
  }

  lemma {:induction false} TinyPower()
    ensures Times(3.0, Two(-1074)) < 1.0 / 100_000_000_000_000_000.0
  {
    SmallPowers();
    Pow2Grows(60, 1074);
    Inverse(Pow2(1074) as real, 0x1000_0000_0000_0000 as real);
  }

  lemma {:induction false} Inverse(a: real, b: real)
    requires a >= b > 0.0
    ensures 1.0 / a <= 1.0 / b
  {
    OrderInUnits(b, a, 1.0 / a);
    OrderInUnits(b * (1.0 / a), 1.0, 1.0 / b);
  }

  lemma {:induction false} TenFourteen()
    ensures Ten(-14) == 1.0 / 100_000_000_000_000.0
  {
    Pow10Seventeen();
    Pow10Next(16); Pow10Next(15); Pow10Next(14);
  }

  /** 0.000000000000000001234567e6: only the 1 counts. */
  function MostlyZeros(): Literal
  {
    Literal(NoSign, [0], true, Nothing(17) + [1, 2, 3, 4, 5, 6, 7], Power('e', NoSign, [6]))
  }

  /** It is 1.234567 * 10^-12, and it is read as 10^-12. */
  lemma {:induction false} SixDigitsLost(p: int, hi: Word, lo: Word)
    requires LeadsAt(MostlyZeros(), p) && ConvertedAt(MostlyZeros(), p, hi, lo)
    ensures var l := MostlyZeros();
      && WellFormed(l) && Significand(l) == 1 && Scale(l) == -12 && LiteralValue(l) == 1234567.0 * Ten(-18)
      && !NextToNearest(Produced(hi, lo), LiteralValue(l))
  {
    hide Two, Pow2, NextToNearest, Times, Leads, Converted, Produced, LiteralValue, Ten, Significand, Scale, Rounded, Limit;
    var l := MostlyZeros();
    MostlyZerosIs();
    LiteralExactly(l, p, hi, lo);
    FarAbove(p, hi, lo);
  }

  lemma {:induction false} MostlyZerosIs()
    ensures var l := MostlyZeros();
      WellFormed(l) && Significand(l) == 1 && Scale(l) == -12 && LiteralValue(l) == 1234567.0 * Ten(-18)
  {
    hide Ten, Decimal10;
    var l := MostlyZeros();
    var ds: seq<nat> := [1, 2, 3, 4, 5, 6, 7];
    FracDigits(l, 17, ds);
    assert (Nothing(17) + ds)[..18] == Nothing(17) + [1];
    ZerosInFront(Nothing(17), [1]);
    OneDigitIs(1); OneDigitIs(6);
    SevenDigits();
    assert Strip([0]) == Strip([]) by { assert [0][1..] == []; }
  }

  lemma {:induction false} SevenDigits()
    ensures Decimal10([1, 2, 3, 4, 5, 6, 7]) == 1234567
  {
    hide Decimal10;
    OneDigitIs(1);
    DecimalSnoc([1], 2); DecimalSnoc([1, 2], 3); DecimalSnoc([1, 2, 3], 4); DecimalSnoc([1, 2, 3, 4], 5);
    DecimalSnoc([1, 2, 3, 4, 5], 6); DecimalSnoc([1, 2, 3, 4, 5, 6], 7);
    assert [1] + [2] == [1, 2] && [1, 2] + [3] == [1, 2, 3] && [1, 2, 3] + [4] == [1, 2, 3, 4];
    assert [1, 2, 3, 4] + [5] == [1, 2, 3, 4, 5] && [1, 2, 3, 4, 5] + [6] == [1, 2, 3, 4, 5, 6];
    assert [1, 2, 3, 4, 5, 6] + [7] == [1, 2, 3, 4, 5, 6, 7];
  }

  lemma {:induction false} FarAbove(p: int, hi: Word, lo: Word)
    requires LeadsAt(MostlyZeros(), p) && ConvertedAt(MostlyZeros(), p, hi, lo)
    ensures p <= 51 && !CloseAt(MostlyZeros(), p)
  {
    hide Two, Pow2, Times, Leads, Scaled, Rest, Exponent, Mantissa, LiteralValue, Ten, Significand, Scale, Ratio, SignificandAt;
    var l := MostlyZeros();
    MostlyZerosIs();
    var m, d, u := Numerator(1, -12), Denominator(-12), Two(p - 52);
    ProducedUnits(m, d, p, hi, lo);
    WholeUnits(m, d, p);
    QuotientInUnits(m, d, p);
    RatioIs(1, -12);
    var q, k := Ratio(Scaled(m, p), d), Scaled(m, p) / d;
    TenTwelve(q, u);
    var limit := Limit(Rounded(m, d, p)) as real;
    assert limit <= 2.0 * q + 8.0;
    assert 2.4 * q > limit;
    OrderInUnits(limit, 2.4 * q, u);
    Fraction24(q, u);
  }

  lemma {:induction false} Fraction24(q: real, u: real)
    ensures Times(2.4 * q, u) == 2.4 * Times(q, u)
  {
    RegroupReal(2.4, q, u);
  }

  lemma {:induction false} TenTwelve(q: real, u: real)
    requires Times(1.0, Ten(-12)) == Times(q, u) && u > 0.0
    ensures 2.0 * (1234567.0 * Ten(-18)) > 2.4 * Times(q, u)
  {
    hide Ten;
    TenAdd(6, -18);
    assert Pow10(6) == 1_000_000 by { Pow10Next(5); Pow10Next(4); Pow10Next(3); Pow10Next(2); Pow10Next(1); Pow10Next(0); }
    assert Ten(-12) == 1_000_000.0 * Ten(-18);
  }

  // ----- One literal -----

  /** -12.5e+3 is written with these characters and is worth 12500, apart from its sign. */
  lemma {:induction false} SpelledOut()
    ensures var l := Literal(Minus, [1, 2], true, [5], Power('e', Plus, [3]));
      WellFormed(l) && Print(l, "") == "-12.5e+3" && LiteralValue(l) == 12500.0
  {
    hide Decimal10, Ten, Pow10;
    var l := Literal(Minus, [1, 2], true, [5], Power('e', Plus, [3]));
    var w, f, p := Glyphs([1, 2]), Glyphs([5]), Glyphs([3]);
    assert w == "12" && f == "5" && p == "3";
    assert PowerText(l.power) == ['e'] + "+" + "3" == "e+3";
    assert AfterSign(l, "") == "12" + "." + "5" + ("e+3" + "") == "12.5e+3";
    assert "-" + "12.5e+3" == "-12.5e+3";
    OneDigitIs(1); OneDigitIs(3);
    DecimalSnoc([1], 2); DecimalSnoc([1, 2], 5);
    assert [1] + [2] == [1, 2] && [1, 2] + [5] == [1, 2, 5];
    Hundred();
  }

  lemma {:induction false} Hundred()
    ensures Ten(2) == 100.0
  {
    hide Pow10;
    assert Pow10(2) == 100 by { Pow10Next(1); Pow10Next(0); assert Pow10(0) == 1 by { PowNone(); } }
  }

  lemma {:induction false} PowNone()
    ensures Pow10(0) == 1
  {
  }
}
