/** The conversion of decimal literals against the binary64 values themselves: how near
    the value is that is produced, and exactly when it is the nearest one. */
module Rounding {
  import opened Words
  import opened Decimal

  /** 2^k. */
  function Two(k: int): (r: real)
    ensures r > 0.0
  {
    if k >= 0 then Pow2(k) as real else 1.0 / Pow2(-k) as real
  }

  /** The number with this significand and exponent. */
  function Value(s: int, e: int): real { s as real * Two(e - 52) }

  /** Every finite binary64 value has such a significand and exponent: normal values,
      subnormal ones and zero. */
  predicate IsDouble(s: int, e: int) { -2 * M52 < s < 2 * M52 && -1022 <= e <= 1023 }

  /** The value of the bit pattern, without its sign. */
  function Produced(hi: Word, lo: Word): real { Value(M52 + Mantissa(hi, lo), Exponent(hi)) }

  function Apart(a: real, b: real): real { if a >= b then a - b else b - a }

  function Ratio(m: int, d: nat): real
    requires d > 0
  {
    m as real / d as real
  }

  /** No binary64 value is nearer to x than y. */
  ghost predicate NearestTo(y: real, x: real)
  {
    forall s, e :: IsDouble(s, e) ==> Apart(y, x) <= Apart(Value(s, e), x)
  }

  ghost predicate Nearest(y: real, m: nat, d: nat)
    requires d > 0
  {
    NearestTo(y, Ratio(m, d))
  }

  /** No binary64 value lies between a and b. */
  ghost predicate NothingBetween(a: real, b: real)
  {
    forall s, e :: IsDouble(s, e) ==> !(a < Value(s, e) < b) && !(b < Value(s, e) < a)
  }

  /** y is a nearest binary64 value to x, or next to one: what section 6.4.4.2 of ISO C11
      asks for. */
  ghost predicate NextToNearest(y: real, x: real)
  {
    exists s, e :: IsDouble(s, e) && NearestTo(Value(s, e), x) && NothingBetween(Value(s, e), y)
  }

  lemma {:induction false} PowerNext(k: int)
    ensures Two(k + 1) == 2.0 * Two(k)
  {
    if k >= 0 { Pow2Next(k); } else { Pow2Next(-k - 1); }
  }

  lemma {:induction false} PowerAdd(a: int, b: int)
    ensures Two(a + b) == Times(Two(a), Two(b))
    decreases if a >= 0 then a else -a
  {
    hide Two, Times;
    if a == 0 {
      PowerZero(Two(b));
    } else {
      var c := if a > 0 then a - 1 else a;
      PowerAdd(if a > 0 then c else c + 1, b);
      PowerNext(c); PowerNext(c + b);
      assert c + 1 + b == c + b + 1;
      DoubledFactor(Two(c), Two(c + 1), Two(b), Two(c + b), Two(c + b + 1));
    }
  }

  lemma {:induction false} PowerZero(y: real)
    ensures Two(0) == 1.0 && Times(1.0, y) == y
  {
  }

  lemma {:induction false} DoubledFactor(x: real, x': real, y: real, z: real, z': real)
    requires x' == 2.0 * x && z' == 2.0 * z
    ensures z == Times(x, y) <==> z' == Times(x', y)
  {
    RegroupReal(2.0, x, y);
  }

  lemma {:induction false} RegroupReal(a: real, b: real, c: real)
    ensures a * (b * c) == (a * b) * c
  {
  }

  /** In units of 2^(p - 52). */
  function Units(s: int, e: int, p: int): real { s as real * Two(e - p) }

  function Times(y: real, u: real): real { y * u }

  lemma {:induction false} InUnits(s: int, e: int, p: int)
    ensures Value(s, e) == Times(Units(s, e, p), Two(p - 52))
  {
    hide Two;
    PowerAdd(e - p, p - 52);
    assert e - p + (p - 52) == e - 52;
    RegroupReal(s as real, Two(e - p), Two(p - 52));
  }

  lemma {:induction false} QuotientInUnits(m: nat, d: nat, p: int)
    requires d > 0 && p <= 51
    ensures Ratio(m, d) == Times(Ratio(Scaled(m, p), d), Two(p - 52))
  {
    PowerAdd(52 - p, p - 52);
    var w := Pow2(52 - p) as real;
    assert w == Two(52 - p) && w * Two(p - 52) == 1.0;
    ScaledQuotient(m as real, w, d as real, Two(p - 52));
  }

  lemma {:induction false} ScaledQuotient(m: real, w: real, d: real, u: real)
    requires d > 0.0 && w * u == 1.0
    ensures m / d == m * w / d * u
  {
    assert m * w / d * u == m * (w * u) / d;
  }

  /** Every binary64 value is a whole number of units, or less than 2^52 of them. */
  lemma {:induction false} Grid(s: int, e: int, p: int) returns (whole: bool, j: int)
    requires IsDouble(s, e)
    ensures whole ==> Units(s, e, p) == j as real
    ensures !whole ==> Units(s, e, p) < M52 as real
  {
    whole, j := e >= p, 0;
    if whole {
      j := s * Pow2(e - p);
    } else {
      Pow2Next(p - e - 1);
      Halved(s as real, Pow2(p - e) as real);
    }
  }

  lemma {:induction false} Halved(s: real, w: real)
    requires s < 2.0 * M52 as real && w >= 2.0
    ensures s * (1.0 / w) < M52 as real
  {
    var f := s / w;
    assert s * (1.0 / w) == f && Times(f, w) == s;
    OrderInUnits(f, M52 as real, w);
  }

  lemma {:induction false} ApartInUnits(a: real, b: real, u: real)
    requires u > 0.0
    ensures Apart(Times(a, u), Times(b, u)) == Times(Apart(a, b), u)
  {
    assert (a - b) * u == a * u - b * u;
    if a >= b { assert (a - b) * u >= 0.0; } else { assert (a - b) * u < 0.0; }
  }

  lemma {:induction false} OrderInUnits(a: real, b: real, u: real)
    requires u > 0.0
    ensures Times(a, u) <= Times(b, u) <==> a <= b
    ensures Times(a, u) < Times(b, u) <==> a < b
  {
    assert (b - a) * u == b * u - a * u;
  }

  lemma {:induction false} NearerInUnits(a: real, b: real, q: real, u: real)
    requires u > 0.0
    ensures Apart(Times(a, u), Times(q, u)) <= Apart(Times(b, u), Times(q, u)) <==> Apart(a, q) <= Apart(b, q)
  {
    hide Apart, Times;
    ApartInUnits(a, q, u); ApartInUnits(b, q, u);
    OrderInUnits(Apart(a, q), Apart(b, q), u);
  }

  /** The whole units below the value. */
  lemma {:induction false} WholeUnits(m: nat, d: nat, p: int)
    requires d > 0 && p <= 51 && Leads(m, d, p)
    ensures var x, k := Scaled(m, p), Scaled(m, p) / d;
      && M52 <= k < 2 * M52 && k as real <= Ratio(x, d) < (k + 1) as real
      && (2 * (x % d) >= d <==> Apart((k + 1) as real, Ratio(x, d)) <= Apart(k as real, Ratio(x, d)))
      && (x % d == 0 <==> Ratio(x, d) == k as real)
  {
    hide Scaled;
    var x := Scaled(m, p);
    var k, r := x / d, x % d;
    ScaledRange(m, d, p);
    RangeOfQuotient(x, d);
    ExactDivision(x, d);
    RealQuotient(x, k, r, d);
  }

  lemma {:induction false} RangeOfQuotient(x: nat, d: nat)
    requires d > 0 && M52 * d <= x < 2 * M52 * d
    ensures M52 <= x / d < 2 * M52
  {
    var k := x / d;
    ExactDivision(x, d);
    if k < M52 { TimesAtMost(k + 1, M52, d); SumTimes(k, 1, d); }
    if k >= 2 * M52 { TimesAtMost(2 * M52, k, d); }
  }

  lemma {:induction false} RealQuotient(x: int, k: int, r: int, d: nat)
    requires d > 0 && x == k * d + r && 0 <= r < d
    ensures Ratio(x, d) == k as real + Ratio(r, d) && 0.0 <= Ratio(r, d) < 1.0
    ensures (2 * r >= d <==> Ratio(r, d) >= 0.5) && (r == 0 <==> Ratio(r, d) == 0.0)
  {
    var y, z := d as real, r as real;
    assert (k * d) as real == k as real * y;
    assert x as real == k as real * y + z;
    Parts(k as real, z, y);
    Fraction(z, y);
    assert 2 * r >= d <==> 2.0 * z >= y;
  }

  lemma {:induction false} Parts(k: real, z: real, y: real)
    requires y > 0.0
    ensures (k * y + z) / y == k + z / y
  {
  }

  lemma {:induction false} Fraction(z: real, y: real)
    requires 0.0 <= z < y
    ensures 0.0 <= z / y < 1.0 && (2.0 * z >= y <==> z / y >= 0.5) && (z == 0.0 <==> z / y == 0.0)
  {
    var f := z / y;
    assert f * y == z;
    OrderInUnits(f, 1.0, y); OrderInUnits(0.5, f, y); OrderInUnits(0.0, f, y); OrderInUnits(f, 0.0, y);
  }

  /** The leading bit is bit 52 of the significand. */
  lemma {:induction false} ScaledRange(m: nat, d: nat, p: int)
    requires d > 0 && p <= 51 && Leads(m, d, p)
    ensures M52 * d <= Scaled(m, p) < 2 * M52 * d
  {
    hide Pow2;
    SmallPowers();
    if p >= 0 {
      var w := Pow2(52 - p);
      Pow2Add(p, 52 - p); Pow2Next(p);
      Between(Pow2(p) * d, m, 2 * Pow2(p) * d, w);
      MulOrder(Pow2(p), d, w);
    } else {
      Pow2Add(-p, 52);
      assert 52 - p == -p + 52;
      MulAssoc(m, Pow2(-p), M52);
      Between(d, m * Pow2(-p), 2 * d, M52);
    }
  }

  lemma {:induction false} MulOrder(a: int, d: int, w: int)
    ensures a * d * w == a * w * d && 2 * a * d * w == 2 * (a * w * d)
  {
    assert a * d * w == a * (d * w) == a * (w * d) == a * w * d;
    assert 2 * a * d * w == 2 * (a * d) * w == 2 * (a * d * w);
  }

  lemma {:induction false} Between(a: int, b: int, c: int, w: int)
    requires a <= b < c && w > 0
    ensures a * w <= b * w < c * w
  {
    TimesAtMost(a, b, w);
    TimesAtMost(b + 1, c, w);
    SumTimes(b, 1, w);
  }

  /** What was produced, in units: the whole units below the value, or one more. */
  lemma {:induction false} ProducedUnits(m: nat, d: nat, p: int, hi: Word, lo: Word)
    requires d > 0 && Converted(m, d, p, hi, lo)
    ensures var x, sig := Scaled(m, p), SignificandAt(p, hi, lo);
      && Produced(hi, lo) == Times(sig as real, Two(p - 52))
      && (if Rest(m, d, p) == 0 || 2 * Rest(m, d, p) == d then sig == x / d && x % d == 0 else sig == x / d + 1)
  {
    hide Exponent, Mantissa, Rest, Scaled, Two;
    UpToUnit(SignificandAt(p, hi, lo), d, Scaled(m, p));
    PowerNext(p - 52);
    assert p + 1 - 52 == p - 52 + 1;
    if Exponent(hi) == p + 1 {
      var s, u := (M52 + Mantissa(hi, lo)) as real, Two(p - 52);
      assert s * (2.0 * u) == 2.0 * s * u;
    }
  }

  /** The values on both sides of m/d are binary64 values. */
  lemma {:induction false} SidesAreDoubles(k: int, p: int)
    requires M52 <= k < 2 * M52 && -1022 <= p <= 1022
    ensures IsDouble(k, p) && Value(k, p) == Times(k as real, Two(p - 52))
    ensures exists s, e :: IsDouble(s, e) && Value(s, e) == Times((k + 1) as real, Two(p - 52))
  {
    hide Two;
    if k + 1 < 2 * M52 {
      assert IsDouble(k + 1, p) && Value(k + 1, p) == (k + 1) as real * Two(p - 52);
    } else {
      PowerNext(p - 52);
      assert p + 1 - 52 == p - 52 + 1;
      var u := Two(p - 52);
      assert M52 as real * (2.0 * u) == (k + 1) as real * u;
      assert IsDouble(M52, p + 1) && Value(M52, p + 1) == (k + 1) as real * u;
    }
  }

  /** No binary64 value lies between k and k + 1 units. */
  lemma {:induction false} NotBetween(s: int, e: int, p: int, k: int)
    requires IsDouble(s, e) && M52 <= k
    ensures Units(s, e, p) <= k as real || Units(s, e, p) >= (k + 1) as real
  {
    hide Units, IsDouble, Pow2;
    var whole, j := Grid(s, e, p);
    if whole && j <= k {
      assert j as real <= k as real;
    } else if whole {
      assert j as real >= (k + 1) as real;
    } else {
      assert M52 as real <= k as real;
    }
  }

  /** The value that is produced is a nearest one exactly when what the leading bit
      leaves is 0 or 1/2, or the part that is cut off is at least half a unit: the
      rounding only ever goes up. */
  lemma {:induction false} NearestExactly(m: nat, d: nat, p: int, hi: Word, lo: Word)
    requires d > 0 && Leads(m, d, p) && Converted(m, d, p, hi, lo)
    ensures Nearest(Produced(hi, lo), m, d)
      <==> Rest(m, d, p) == 0 || 2 * Rest(m, d, p) == d || 2 * (Scaled(m, p) % d) >= d
  {
    hide Times, Leads, Rest, Scaled, Two, Value, Units, Exponent, Mantissa, Ratio, Produced, IsDouble, Apart, SignificandAt, Pow2;
    var x, u, sig := Scaled(m, p), Two(p - 52), SignificandAt(p, hi, lo);
    var q, k := Ratio(x, d), x / d;
    WholeUnits(m, d, p);
    ProducedUnits(m, d, p, hi, lo);
    QuotientInUnits(m, d, p);
    SidesAreDoubles(k, p);
    NearerInUnits(sig as real, k as real, q, u);
    UpperOrExact(q, k, sig);
    if Apart(sig as real, q) <= Apart(k as real, q) {
      forall s, e | IsDouble(s, e) ensures Apart(Produced(hi, lo), Ratio(m, d)) <= Apart(Value(s, e), Ratio(m, d)) {
        NotBetween(s, e, p, k);
        InUnits(s, e, p);
        NearerInUnits(sig as real, Units(s, e, p), q, u);
        NoneNearer(q, k, sig, Units(s, e, p));
      }
    } else {
      assert IsDouble(k, p);
    }
  }

  lemma {:induction false} UpperOrExact(q: real, k: int, sig: int)
    requires k as real <= q < (k + 1) as real && (sig == k || sig == k + 1)
    ensures sig == k && q == k as real ==> Apart(sig as real, q) <= Apart(k as real, q)
  {
  }

  /** Values that are not between k and k + 1 are no nearer to q. */
  lemma {:induction false} NoneNearer(q: real, k: int, sig: int, y: real)
    requires k as real <= q < (k + 1) as real && (sig == k || sig == k + 1)
    requires Apart(sig as real, q) <= Apart(k as real, q) && (sig == k ==> q == k as real)
    requires y <= k as real || y >= (k + 1) as real
    ensures Apart(sig as real, q) <= Apart(y, q)
  {
    assert (k + 1) as real == k as real + 1.0;
  }

  /** Whatever the nearest binary64 value is, the one that is produced is that or a
      neighbour of it: no binary64 value lies between them. */
  lemma {:induction false} NearestOrNeighbour(m: nat, d: nat, p: int, hi: Word, lo: Word, s: int, e: int, t: int, f: int)
    requires d > 0 && Leads(m, d, p) && Converted(m, d, p, hi, lo)
    requires IsDouble(s, e) && Nearest(Value(s, e), m, d) && IsDouble(t, f)
    ensures !(Value(s, e) < Value(t, f) < Produced(hi, lo)) && !(Produced(hi, lo) < Value(t, f) < Value(s, e))
  {
    hide Times, Leads, Rest, Scaled, Two, Value, Units, Exponent, Mantissa, Ratio, Produced, IsDouble, Apart, NearestTo, SignificandAt, Pow2;
    var x, u, sig := Scaled(m, p), Two(p - 52), SignificandAt(p, hi, lo);
    var q, k := Ratio(x, d), x / d;
    var y, z := Units(s, e, p), Units(t, f, p);
    WholeUnits(m, d, p);
    ProducedUnits(m, d, p, hi, lo);
    NearestInUnits(m, d, p, s, e);
    InUnits(s, e, p); InUnits(t, f, p);
    OnOneSide(q, k, y);
    NotBetween(t, f, p, k);
    OrderInUnits(y, z, u); OrderInUnits(z, y, u);
    OrderInUnits(z, sig as real, u); OrderInUnits(sig as real, z, u);
  }

  lemma {:induction false} OnOneSide(q: real, k: int, y: real)
    requires k as real <= q < (k + 1) as real
    requires Apart(y, q) <= Apart(k as real, q) && Apart(y, q) <= Apart((k + 1) as real, q)
    ensures k as real <= y <= (k + 1) as real
  {
    assert (k + 1) as real == k as real + 1.0;
  }

  /** A nearest value is at most as far away as the values on both sides. */
  lemma {:induction false} NearestInUnits(m: nat, d: nat, p: int, s: int, e: int)
    requires d > 0 && -1022 <= p <= 51 && Leads(m, d, p) && IsDouble(s, e) && Nearest(Value(s, e), m, d)
    ensures var q, k := Ratio(Scaled(m, p), d), Scaled(m, p) / d;
      Apart(Units(s, e, p), q) <= Apart(k as real, q) && Apart(Units(s, e, p), q) <= Apart((k + 1) as real, q)
  {
    hide Times, Leads, Scaled, Two, Value, Units, Ratio, IsDouble, Apart, Pow2;
    var x, u := Scaled(m, p), Two(p - 52);
    var q, k := Ratio(x, d), x / d;
    WholeUnits(m, d, p);
    QuotientInUnits(m, d, p);
    SidesAreDoubles(k, p);
    InUnits(s, e, p);
    var y := Units(s, e, p);
    var t, f :| IsDouble(t, f) && Value(t, f) == Times((k + 1) as real, u);
    NearerInUnits(y, k as real, q, u);
    NearerInUnits(y, (k + 1) as real, q, u);
  }

  /** A multiple of d in [x, x + d] is x itself or the first one above x. */
  lemma {:induction false} UpToUnit(sig: nat, d: nat, x: nat)
    requires d > 0 && x <= sig * d <= x + d
    ensures sig * d == x ==> sig == x / d && x % d == 0
    ensures sig * d != x ==> sig == x / d + 1
  {
    var k := x / d;
    ExactDivision(x, d);
    SumTimes(k, 1, d); SumTimes(k, 2, d);
    if sig <= k { TimesAtMost(sig, k, d); }
    if sig < k { TimesAtMost(sig, k - 1, d); SumTimes(k, -1, d); }
    if sig >= k + 2 { MulMono(sig, k + 2, d, d); }
    if sig == k + 1 && x % d == 0 { assert sig * d == x + d; }
  }

  lemma {:induction false} TimesAtMost(a: int, b: int, d: nat)
    requires a <= b
    ensures a * d <= b * d
  {
    Distribute(b, a, d);
    assert (b - a) * d >= 0;
  }

  // ----- How far the value may lie above what was converted -----

  /** Twice the middle between the first and the second binary64 value above sig units. */
  function Limit(sig: int): int
  {
    if sig < 2 * M52 - 1 then 2 * sig + 3 else if sig == 2 * M52 - 1 then 2 * sig + 4 else 2 * sig + 6
  }

  /** The binary64 value above sig units. */
  function Above(sig: int): int { if sig < 2 * M52 then sig + 1 else sig + 2 }

  /** sig units is a binary64 value. */
  ghost predicate OnGrid(p: int, sig: int)
  {
    exists s, e :: IsDouble(s, e) && Value(s, e) == Times(sig as real, Two(p - 52))
  }

  lemma {:induction false} IsOnGrid(p: int, a: int)
    requires -1022 <= p <= 51 && (M52 <= a <= 2 * M52 || a == 2 * M52 + 2 || a == 2 * M52 + 4)
    ensures OnGrid(p, a)
  {
    hide Two, Times;
    if a <= 2 * M52 {
      SidesAreDoubles(if a < 2 * M52 then a else a - 1, p);
    } else {
      HalfUnits(a / 2, p);
    }
  }

  lemma {:induction false} HalfUnits(a: int, p: int)
    requires M52 <= a < 2 * M52 && -1022 <= p <= 51
    ensures OnGrid(p, 2 * a)
  {
    SidesAreDoubles(a, p + 1);
    Doubling(a as real, p);
    assert IsDouble(a, p + 1) && Value(a, p + 1) == Times((2 * a) as real, Two(p - 52));
  }

  lemma {:induction false} Doubling(a: real, p: int)
    ensures Times(a, Two(p + 1 - 52)) == Times(2.0 * a, Two(p - 52))
  {
    PowerNext(p - 52);
    assert p + 1 - 52 == p - 52 + 1;
  }

  /** Between sig units and the next binary64 value there is none. */
  lemma {:induction false} NoneAbove(s: int, e: int, p: int, a: int)
    requires IsDouble(s, e) && (M52 <= a <= 2 * M52 || a == 2 * M52 + 2)
    ensures Units(s, e, p) <= a as real || Units(s, e, p) >= Above(a) as real
  {
    hide Units, Pow2, IsDouble;
    if a < 2 * M52 {
      NotBetween(s, e, p, a);
    } else {
      NotBetween(s, e, p + 1, a / 2);
      UnitsDouble(s, e, p);
    }
  }

  lemma {:induction false} UnitsDouble(s: int, e: int, p: int)
    ensures Units(s, e, p) == 2.0 * Units(s, e, p + 1)
  {
    PowerNext(e - p - 1);
    assert e - (p + 1) == e - p - 1 && e - p - 1 + 1 == e - p;
  }

  /** Of two neighbours, the one that is not further away is a nearest value. */
  lemma {:induction false} NeighbourNearest(p: int, a: int, v: real, near: int)
    requires (M52 <= a <= 2 * M52 || a == 2 * M52 + 2) && a as real <= v <= Above(a) as real
    requires near == a || near == Above(a)
    requires Apart(near as real, v) <= Apart(a as real, v) && Apart(near as real, v) <= Apart(Above(a) as real, v)
    ensures NearestTo(Times(near as real, Two(p - 52)), Times(v, Two(p - 52)))
  {
    hide Times, Two, Value, Units, Above, IsDouble;
    var u := Two(p - 52);
    forall s, e | IsDouble(s, e) ensures Apart(Times(near as real, u), Times(v, u)) <= Apart(Value(s, e), Times(v, u)) {
      NoneAbove(s, e, p, a);
      InUnits(s, e, p);
      Farther(Units(s, e, p), a as real, Above(a) as real, v, near as real);
      NearerInUnits(near as real, Units(s, e, p), v, u);
    }
  }

  lemma {:induction false} Farther(z: real, a: real, b: real, v: real, near: real)
    requires a <= v <= b && (z <= a || z >= b) && Apart(near, v) <= Apart(a, v) && Apart(near, v) <= Apart(b, v)
    ensures Apart(near, v) <= Apart(z, v)
  {
  }

  lemma {:induction false} GapIsEmpty(p: int, a: int)
    requires M52 <= a <= 2 * M52 || a == 2 * M52 + 2
    ensures NothingBetween(Times(a as real, Two(p - 52)), Times(Above(a) as real, Two(p - 52)))
  {
    hide Times, Two, Value, Units, Above, IsDouble;
    var u := Two(p - 52);
    forall s, e | IsDouble(s, e)
      ensures !(Times(a as real, u) < Value(s, e) < Times(Above(a) as real, u))
      ensures !(Times(Above(a) as real, u) < Value(s, e) < Times(a as real, u))
    {
      NoneAbove(s, e, p, a);
      InUnits(s, e, p);
      var z := Units(s, e, p);
      OrderInUnits(a as real, z, u); OrderInUnits(z, Above(a) as real, u);
      OrderInUnits(Above(a) as real, z, u); OrderInUnits(z, a as real, u);
      AboveLess(a);
    }
  }

  lemma {:induction false} AboveLess(a: int)
    ensures a as real < Above(a) as real
  {
  }

  lemma {:induction false} Same(a: real)
    ensures NothingBetween(a, a)
  {
  }

  lemma {:induction false} Turned(a: real, b: real)
    requires NothingBetween(a, b)
    ensures NothingBetween(b, a)
  {
  }

  /** A value from just below sig units on: sig units is a nearest value or next to one
      exactly if the value is not above the limit. */
  lemma {:induction false} NextExactly(p: int, sig: int, v: real)
    requires -1022 <= p <= 51 && M52 <= sig <= 2 * M52 && v >= sig as real - 1.0 && (sig == M52 ==> v >= sig as real)
    ensures NextToNearest(Times(sig as real, Two(p - 52)), Times(v, Two(p - 52))) <==> 2.0 * v <= Limit(sig) as real
  {
    hide NextToNearest, Times, Two;
    if 2.0 * v <= Limit(sig) as real { NextIfBelow(p, sig, v); } else { NotNextIfAbove(p, sig, v); }
  }

  lemma {:induction false} NextIfBelow(p: int, sig: int, v: real)
    requires -1022 <= p <= 51 && M52 <= sig <= 2 * M52 && v >= sig as real - 1.0 && (sig == M52 ==> v >= sig as real)
    requires 2.0 * v <= Limit(sig) as real
    ensures NextToNearest(Times(sig as real, Two(p - 52)), Times(v, Two(p - 52)))
  {
    hide Times, Two, Value, IsDouble, NearestTo, NothingBetween;
    var u := Two(p - 52);
    var low := if v < sig as real then sig - 1 else if v <= Above(sig) as real then sig else Above(sig);
    var near := if Apart(low as real, v) <= Apart(Above(low) as real, v) then low else Above(low);
    IsOnGrid(p, near);
    NeighbourNearest(p, low, v, near);
    GapIsEmpty(p, if low == Above(sig) then sig else low);
    Same(Times(sig as real, u));
    Turned(Times((if low == Above(sig) then sig else low) as real, u), Times(Above(if low == Above(sig) then sig else low) as real, u));
    var s, e :| IsDouble(s, e) && Value(s, e) == Times(near as real, u);
  }

  lemma {:induction false} NotNextIfAbove(p: int, sig: int, v: real)
    requires -1022 <= p <= 51 && M52 <= sig <= 2 * M52 && 2.0 * v > Limit(sig) as real
    ensures !NextToNearest(Times(sig as real, Two(p - 52)), Times(v, Two(p - 52)))
  {
    hide Times, Two, Value, IsDouble, Units, Pow2;
    var u := Two(p - 52);
    var one := Above(sig);
    var two := Above(one);
    if NextToNearest(Times(sig as real, u), Times(v, u)) {
      var s, e :| IsDouble(s, e) && NearestTo(Value(s, e), Times(v, u)) && NothingBetween(Value(s, e), Times(sig as real, u));
      IsOnGrid(p, one); IsOnGrid(p, two);
      var s1, e1 :| IsDouble(s1, e1) && Value(s1, e1) == Times(one as real, u);
      var s2, e2 :| IsDouble(s2, e2) && Value(s2, e2) == Times(two as real, u);
      var z := Units(s, e, p);
      InUnits(s, e, p);
      NoneAbove(s, e, p, one);
      OrderInUnits(sig as real, one as real, u); OrderInUnits(one as real, z, u);
      NearerInUnits(z, two as real, v, u);
      assert false;
    }
  }

  /** 1.99999999999999978 becomes 2, although the number below 2 is nearer. */
  lemma {:induction false} NearlyTwo(hi: Word, lo: Word)
    requires Converted(199_999_999_999_999_978, 100_000_000_000_000_000, 0, hi, lo)
    ensures Exponent(hi) == 1 && Mantissa(hi, lo) == 0
    ensures !Nearest(Produced(hi, lo), 199_999_999_999_999_978, 100_000_000_000_000_000)
  {
    hide NearestTo, Produced, Exponent;
    var m, d := 199_999_999_999_999_978, 100_000_000_000_000_000;
    SmallPowers(); Pow2Next(0);
    assert Leads(m, d, 0);
    NearestExactly(m, d, 0, hi, lo);
    assert Scaled(m, 0) == m * M52;
    ProducedUnits(m, d, 0, hi, lo);
  }

  /** 5 / 4 is a binary64 value, but its conversion is one unit too high. */
  lemma {:induction false} OneAndAQuarter(hi: Word, lo: Word, p: int)
    requires Leads(125, 100, p) && Converted(125, 100, p, hi, lo)
    ensures p == 0 && SignificandAt(0, hi, lo) * 100 == Scaled(125, 0) + 100 && !Nearest(Produced(hi, lo), 125, 100)
  {
    hide NearestTo, Produced, Exponent, Mantissa;
    OnlyZero(p);
    SmallPowers();
    NearestExactly(125, 100, p, hi, lo);
    assert Scaled(125, 0) == 125 * M52 && Scaled(125, 0) % 100 == 0;
    ProducedUnits(125, 100, p, hi, lo);
  }

  lemma {:induction false} OnlyZero(p: int)
    requires Leads(125, 100, p)
    ensures p == 0
  {
    hide Pow2;
    Pow2Next(0);
    if p >= 1 { Pow2Grows(1, p); }
    if p < 0 { Pow2Grows(1, -p); }
  }

  // ----- The bit pattern -----

  /** The two words as the 64 bits of section 3.4 of IEEE 754: bit 63 is the sign, bits 62 to
      52 the exponent with a bias of 1023, the other 52 the digits behind the point. */
  lemma {:induction false} PatternMeans(hi: Word, lo: Word)
    ensures var b := hi * 0x1_0000_0000 + lo;
      var exponent, digits := b / 0x10_0000_0000_0000 % 0x800, b % 0x10_0000_0000_0000;
      && (Negative(hi) <==> b / 0x8000_0000_0000_0000 == 1)
      && Produced(hi, lo) == (1.0 + digits as real / 0x10_0000_0000_0000 as real) * Two(exponent - 1023)
  {
    hide Two, Pow2;
    var b := hi * 0x1_0000_0000 + lo;
    PatternFields(hi, lo);
    PowerAdd(Exponent(hi), -52);
    FiftyTwo();
    SplitUnit(Mantissa(hi, lo), Two(Exponent(hi)), Two(-52));
  }

  lemma {:induction false} PatternFields(hi: Word, lo: Word)
    ensures var b := hi * 0x1_0000_0000 + lo;
      && (Negative(hi) <==> b / 0x8000_0000_0000_0000 == 1)
      && Exponent(hi) == b / 0x10_0000_0000_0000 % 0x800 - 1023 && Mantissa(hi, lo) == b % 0x10_0000_0000_0000
  {
    var b, q, r := hi * 0x1_0000_0000 + lo, hi / 0x10_0000, hi % 0x10_0000;
    assert b == q * 0x10_0000_0000_0000 + (r * 0x1_0000_0000 + lo);
    DivModUnique(b, 0x10_0000_0000_0000, q, r * 0x1_0000_0000 + lo);
    if Negative(hi) {
      DivModUnique(b, 0x8000_0000_0000_0000, 1, b - 0x8000_0000_0000_0000);
    } else {
      DivModUnique(b, 0x8000_0000_0000_0000, 0, b);
    }
  }

  lemma {:induction false} FiftyTwo()
    ensures Two(-52) == 1.0 / 0x10_0000_0000_0000 as real
  {
    hide Two, Pow2;
    SmallPowers();
    TwoIs(52);
  }

  lemma {:induction false} TwoIs(k: int)
    requires k > 0
    ensures Two(-k) == 1.0 / Pow2(k) as real
  {
  }

  lemma {:induction false} SplitUnit(m: nat, e: real, u: real)
    requires u == 1.0 / 0x10_0000_0000_0000 as real
    ensures (M52 + m) as real * (e * u) == (1.0 + m as real / 0x10_0000_0000_0000 as real) * e
  {
    var n := 0x10_0000_0000_0000 as real;
    assert (M52 + m) as real == n + m as real;
    assert (n + m as real) * u == 1.0 + m as real / n;
  }
}
