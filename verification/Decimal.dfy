/** Decimal literals to binary64 with pairs of 32-bit words only: long division in
    base ten, then in base two. */
module Decimal {
  import opened Words

  // ----- Words and powers -----

  type Word = w: int | 0 <= w < 0x1_0000_0000

  /** The 64-bit value of a pair of words. */
  function Pair(hi: Word, lo: Word): nat { hi * 0x1_0000_0000 + lo }

  function Pow10(k: nat): (p: nat)
    ensures p >= 1
  {
    if k == 0 then 1 else 10 * Pow10(k - 1)
  }

  lemma {:induction false} Pow10Add(a: nat, b: nat)
    ensures Pow10(a + b) == Pow10(a) * Pow10(b)
    decreases a
  {
    if a > 0 {
      Pow10Add(a - 1, b);
      assert a + b - 1 == a - 1 + b;
      MulAssoc(10, Pow10(a - 1), Pow10(b));
    }
  }

  lemma {:induction false} MulAssoc(a: int, b: int, c: int)
    ensures a * (b * c) == a * b * c
  {
  }

  lemma {:induction false} Pow2Add(a: nat, b: nat)
    ensures Pow2(a + b) == Pow2(a) * Pow2(b)
    decreases a
  {
    if a > 0 {
      Pow2Add(a - 1, b);
      assert a + b - 1 == a - 1 + b;
      MulAssoc(2, Pow2(a - 1), Pow2(b));
    }
  }

  lemma {:induction false} Pow2Grows(a: nat, b: nat)
    requires a <= b
    ensures Pow2(a) <= Pow2(b)
    decreases b
  {
    if a < b { Pow2Grows(a, b - 1); }
  }

  lemma {:induction false} Pow10Grows(a: nat, b: nat)
    requires a <= b
    ensures Pow10(a) <= Pow10(b)
    decreases b
  {
    if a < b { Pow10Grows(a, b - 1); }
  }

  lemma {:induction false} SmallPowers()
    ensures Pow2(20) == 0x10_0000 && Pow2(32) == 0x1_0000_0000 && Pow2(31) == 0x8000_0000
    ensures Pow2(52) == 0x10_0000_0000_0000 && Pow2(60) == 0x1000_0000_0000_0000
    ensures Pow10(18) == 1_000_000_000_000_000_000
  {
    assert Pow2(5) == 32;
    assert Pow2(10) == 1024 by { Pow2Add(5, 5); }
    assert Pow2(20) == 0x10_0000 by { Pow2Add(10, 10); }
    assert Pow2(30) == 0x4000_0000 by { Pow2Add(20, 10); }
    assert Pow2(31) == 2 * Pow2(30);
    assert Pow2(32) == 2 * Pow2(31);
    assert Pow2(40) == 0x100_0000_0000 by { Pow2Add(20, 20); }
    assert Pow2(50) == 0x4_0000_0000_0000 by { Pow2Add(40, 10); }
    assert Pow2(52) == 2 * Pow2(51) && Pow2(51) == 2 * Pow2(50);
    assert Pow2(60) == 0x1000_0000_0000_0000 by { Pow2Add(50, 10); }
    assert Pow10(3) == 1000;
    assert Pow10(6) == 1000000 by { Pow10Add(3, 3); }
    assert Pow10(12) == 1000000000000 by { Pow10Add(6, 6); }
    assert Pow10(18) == 1_000_000_000_000_000_000 by { Pow10Add(12, 6); }
  }

  // ----- 64-bit arithmetic on pairs -----

  /** Times ten, modulo 2^64: twice plus eight times. */
  method Mul10(hi: Word, lo: Word) returns (hi': Word, lo': Word)
    ensures Pair(hi', lo') == (10 * Pair(hi, lo)) % 0x1_0000_0000_0000_0000
  {
    var lo2: Word := lo * 2 % 0x1_0000_0000;
    var hi2: Word := (hi * 2 + lo / 0x8000_0000) % 0x1_0000_0000;
    var lo8: Word := lo * 8 % 0x1_0000_0000;
    var hi8: Word := (hi * 8 + lo / 0x2000_0000) % 0x1_0000_0000;
    lo' := (lo2 + lo8) % 0x1_0000_0000;
    hi' := (hi2 + hi8 + if lo' < lo2 then 1 else 0) % 0x1_0000_0000;
    hide Pair;
    LowShift(lo);
    ShiftPair(hi, lo, 2, lo / 0x8000_0000, lo2, hi2);
    ShiftPair(hi, lo, 8, lo / 0x2000_0000, lo8, hi8);
    AddPair(hi2, lo2, hi8, lo8, hi', lo');
    ModSum(2 * Pair(hi, lo), 8 * Pair(hi, lo), 0x1_0000_0000_0000_0000);
  }

  lemma {:induction false} LowShift(lo: Word)
    ensures lo * 2 == lo / 0x8000_0000 * 0x1_0000_0000 + lo * 2 % 0x1_0000_0000
    ensures lo * 8 == lo / 0x2000_0000 * 0x1_0000_0000 + lo * 8 % 0x1_0000_0000
  {
    var a, b := lo / 0x8000_0000, lo / 0x2000_0000;
    DivModUnique(lo * 2, 0x1_0000_0000, a, 2 * (lo - a * 0x8000_0000));
    DivModUnique(lo * 8, 0x1_0000_0000, b, 8 * (lo - b * 0x2000_0000));
  }

  /** Shifting both words and moving the top bits c across. */
  lemma {:induction false} ShiftPair(hi: Word, lo: Word, f: int, c: nat, lo': Word, hi': Word)
    requires lo * f == c * 0x1_0000_0000 + lo' && hi' == (hi * f + c) % 0x1_0000_0000
    ensures Pair(hi', lo') == (f * Pair(hi, lo)) % 0x1_0000_0000_0000_0000
  {
    var top := hi * f + c;
    SumTimes(hi * 0x1_0000_0000, lo, f);
    assert hi * 0x1_0000_0000 * f == hi * f * 0x1_0000_0000;
    assert f * Pair(hi, lo) == top * 0x1_0000_0000 + lo';
    HighModulus(top, lo');
  }

  lemma {:induction false} HighModulus(top: int, low: Word)
    ensures (top * 0x1_0000_0000 + low) % 0x1_0000_0000_0000_0000 == top % 0x1_0000_0000 * 0x1_0000_0000 + low
  {
    var q, r := top / 0x1_0000_0000, top % 0x1_0000_0000;
    DivModUnique(top * 0x1_0000_0000 + low, 0x1_0000_0000_0000_0000, q, r * 0x1_0000_0000 + low);
  }

  lemma {:induction false} AddPair(ah: Word, al: Word, bh: Word, bl: Word, h: Word, l: Word)
    requires l == (al + bl) % 0x1_0000_0000 && h == (ah + bh + if l < al then 1 else 0) % 0x1_0000_0000
    ensures Pair(h, l) == (Pair(ah, al) + Pair(bh, bl)) % 0x1_0000_0000_0000_0000
  {
    var c := if l < al then 1 else 0;
    assert al + bl == l + c * 0x1_0000_0000;
    var q := (ah + bh + c) / 0x1_0000_0000;
    DivModUnique(Pair(ah, al) + Pair(bh, bl), 0x1_0000_0000_0000_0000, q, Pair(h, l));
  }

  lemma {:induction false} ModSum(a: int, b: int, w: int)
    requires w > 0
    ensures (a % w + b % w) % w == (a + b) % w
  {
    ModShift(a % w + b % w, a / w + b / w, w);
    assert a % w + b % w + (a / w + b / w) * w == a + b;
  }

  /** Divides by ten, using 2^32 = 10 * 429496729 + 6, and gives the remainder. */
  method Div10(hi: Word, lo: Word) returns (hi': Word, lo': Word, r: nat)
    ensures Pair(hi', lo') == Pair(hi, lo) / 10 && r == Pair(hi, lo) % 10
  {
    var qh, rh := hi / 10, hi % 10;
    var extra := lo / 10 + (rh * 6 + lo % 10) / 10;
    var ql: Word := (rh * 429496729 + extra) % 0x1_0000_0000;
    var carry := if ql < rh * 429496729 then 1 else 0;
    r := (rh * 6 + lo % 10) % 10;
    assert rh * 429496729 + extra < 0x1_0000_0000;
    assert carry == 0;
    hi', lo' := qh + carry, ql;
    DivModUnique(Pair(hi, lo), 10, Pair(hi', lo'), r);
  }

  method AddDigit(hi: Word, lo: Word, d: nat) returns (hi': Word, lo': Word)
    requires d < 10
    ensures Pair(hi', lo') == (Pair(hi, lo) + d) % 0x1_0000_0000_0000_0000
  {
    lo' := (lo + d) % 0x1_0000_0000;
    hi' := (hi + if lo' < lo then 1 else 0) % 0x1_0000_0000;
    AddPair(hi, lo, 0, d, hi', lo');
  }

  /** Twice, for a value below 2^63. */
  method Double(hi: Word, lo: Word) returns (hi': Word, lo': Word)
    requires Pair(hi, lo) < 0x8000_0000_0000_0000
    ensures Pair(hi', lo') == 2 * Pair(hi, lo)
  {
    lo' := lo * 2 % 0x1_0000_0000;
    hi' := (hi * 2 + lo / 0x8000_0000) % 0x1_0000_0000;
    ShiftPair(hi, lo, 2, lo / 0x8000_0000, lo', hi');
    DivModUnique(2 * Pair(hi, lo), 0x1_0000_0000_0000_0000, 0, 2 * Pair(hi, lo));
  }

  method AtLeast(ah: Word, al: Word, bh: Word, bl: Word) returns (ge: bool)
    ensures ge <==> Pair(ah, al) >= Pair(bh, bl)
  {
    ge := ah > bh || (ah == bh && al >= bl);
  }

  method Subtract(ah: Word, al: Word, bh: Word, bl: Word) returns (h: Word, l: Word)
    requires Pair(ah, al) >= Pair(bh, bl)
    ensures Pair(h, l) == Pair(ah, al) - Pair(bh, bl)
  {
    l := (al - bl) % 0x1_0000_0000;
    var borrow := if l > al then 1 else 0;
    assert al - bl == l - borrow * 0x1_0000_0000;
    h := (ah - bh - borrow) % 0x1_0000_0000;
    assert 0 <= ah - bh - borrow;
  }

  // ----- Base ten: M = Q * 10^k + R -----

  /** Digits, least significant first. */
  function DigitsValue(ds: seq<nat>): nat
  {
    if ds == [] then 0 else ds[0] + 10 * DigitsValue(ds[1..])
  }

  lemma {:induction false} DigitsSnoc(ds: seq<nat>, d: nat)
    ensures DigitsValue(ds + [d]) == DigitsValue(ds) + d * Pow10(|ds|)
    decreases |ds|
  {
    if ds == [] {
      assert ([] + [d])[1..] == [];
    } else {
      assert (ds + [d])[1..] == ds[1..] + [d];
      DigitsSnoc(ds[1..], d);
      MulAssoc(10, d, Pow10(|ds| - 1));
      assert 10 * (d * Pow10(|ds| - 1)) == d * (10 * Pow10(|ds| - 1));
    }
  }

  lemma {:induction false} DigitsBound(ds: seq<nat>)
    requires forall i :: 0 <= i < |ds| ==> ds[i] < 10
    ensures DigitsValue(ds) < Pow10(|ds|)
    decreases |ds|
  {
    if ds != [] { DigitsBound(ds[1..]); }
  }

  /** k divisions by ten; the remainders, read backwards, are the digits of R. */
  method DivideDown(hi: Word, lo: Word, k: nat) returns (qh: Word, ql: Word, rh: Word, rl: Word, dh: Word, dl: Word)
    requires k <= 18
    ensures Pair(hi, lo) == Pair(qh, ql) * Pow10(k) + Pair(rh, rl)
    ensures Pair(rh, rl) < Pow10(k) && Pair(dh, dl) == (if k > 0 then Pow10(k) else 0)
  {
    qh, ql := hi, lo;
    rh, rl, dh, dl := 0, 0, 0, 0;
    if k > 0 {
      var rems: seq<nat> := [];
      rems, qh, ql := Remainders(hi, lo, k);
      rh, rl, dh, dl := Rebuild(rems, k);
    }
  }

  method Remainders(hi: Word, lo: Word, k: nat) returns (rems: seq<nat>, qh: Word, ql: Word)
    ensures |rems| == k && Pair(hi, lo) == Pair(qh, ql) * Pow10(k) + DigitsValue(rems)
    ensures forall i :: 0 <= i < k ==> rems[i] < 10
  {
    rems, qh, ql := [], hi, lo;
    var di := 0;
    while di < k
      invariant 0 <= di <= k && |rems| == di && forall i :: 0 <= i < di ==> rems[i] < 10
      invariant Pair(hi, lo) == Pair(qh, ql) * Pow10(di) + DigitsValue(rems)
    {
      ghost var q := Pair(qh, ql);
      var r;
      qh, ql, r := Div10(qh, ql);
      DigitsSnoc(rems, r);
      Regroup10(q, Pair(qh, ql), r, Pow10(di));
      rems := rems + [r];
      di := di + 1;
    }
  }

  lemma {:induction false} Regroup10(q: nat, q': nat, r: nat, p: nat)
    requires q == 10 * q' + r
    ensures q * p == q' * (10 * p) + r * p
  {
  }

  method Rebuild(rems: seq<nat>, k: nat) returns (rh: Word, rl: Word, dh: Word, dl: Word)
    requires 0 < k <= 18 && |rems| == k && forall i :: 0 <= i < k ==> rems[i] < 10
    ensures Pair(rh, rl) == DigitsValue(rems) < Pow10(k) && Pair(dh, dl) == Pow10(k)
  {
    hide Pair, DigitsValue, Pow10;
    rh, rl := Small(0);
    dh, dl := Small(1);
    NoDigits(rems, k);
    var di := k - 1;
    Pow10Zero(k - 1 - di);
    while di >= 0
      invariant -1 <= di <= k - 1
      invariant Pair(rh, rl) == DigitsValue(rems[di + 1..]) && Pair(dh, dl) == Pow10(k - 1 - di)
    {
      rh, rl, dh, dl := OneDigit(rems, di, rh, rl, dh, dl);
      di := di - 1;
    }
    assert di == -1;
    AllDigits(rems, di + 1);
  }

  /** One remainder more: R becomes 10 R + digit (just the digit the first time), D becomes 10 D. */
  method OneDigit(rems: seq<nat>, di: nat, rh: Word, rl: Word, dh: Word, dl: Word)
    returns (rh': Word, rl': Word, dh': Word, dl': Word)
    requires di < |rems| <= 18 && forall i :: 0 <= i < |rems| ==> rems[i] < 10
    requires Pair(rh, rl) == DigitsValue(rems[di + 1..]) && Pair(dh, dl) == Pow10(|rems| - 1 - di)
    ensures Pair(rh', rl') == DigitsValue(rems[di..]) && Pair(dh', dl') == Pow10(|rems| - di)
  {
    hide Pair, DigitsValue, Pow10;
    MoreDigits(rems, di);
    Below18(|rems| - 1 - di);
    rh', rl' := rh, rl;
    if di < |rems| - 1 { rh', rl' := Mul10Small(rh, rl); }
    rh', rl' := AddSmall(rh', rl', rems[di]);
    dh', dl' := Mul10Small(dh, dl);
  }

  lemma {:induction false} AllDigits(rems: seq<nat>, i: nat)
    requires i == 0 && forall i :: 0 <= i < |rems| ==> rems[i] < 10
    ensures DigitsValue(rems[i..]) == DigitsValue(rems) < Pow10(|rems|)
  {
    assert rems[i..] == rems;
    DigitsBound(rems);
  }

  method Small(v: Word) returns (hi: Word, lo: Word)
    ensures Pair(hi, lo) == v
  {
    hi, lo := 0, v;
    PairLow(hi, lo);
  }

  lemma {:induction false} PairLow(hi: Word, lo: Word)
    requires hi == 0
    ensures Pair(hi, lo) == lo
  {
  }

  lemma {:induction false} Pow10Zero(k: nat)
    requires k == 0
    ensures Pow10(k) == 1
  {
  }

  lemma {:induction false} NoDigits(rems: seq<nat>, k: nat)
    requires |rems| == k
    ensures DigitsValue(rems[k..]) == 0
  {
  }

  lemma {:induction false} MoreDigits(rems: seq<nat>, di: nat)
    requires di < |rems| && forall i :: 0 <= i < |rems| ==> rems[i] < 10
    ensures DigitsValue(rems[di..]) == rems[di] + 10 * DigitsValue(rems[di + 1..])
    ensures DigitsValue(rems[di + 1..]) < Pow10(|rems| - 1 - di)
    ensures di == |rems| - 1 ==> DigitsValue(rems[di + 1..]) == 0
    ensures Pow10(|rems| - di) == 10 * Pow10(|rems| - 1 - di)
  {
    assert rems[di..][1..] == rems[di + 1..];
    DigitsBound(rems[di + 1..]);
  }

  method Mul10Small(hi: Word, lo: Word) returns (hi': Word, lo': Word)
    requires Pair(hi, lo) <= 100_000_000_000_000_000
    ensures Pair(hi', lo') == 10 * Pair(hi, lo)
  {
    hi', lo' := Mul10(hi, lo);
    Small64(10 * Pair(hi, lo));
  }

  method AddSmall(hi: Word, lo: Word, d: nat) returns (hi': Word, lo': Word)
    requires d < 10 && Pair(hi, lo) <= 1_000_000_000_000_000_000
    ensures Pair(hi', lo') == Pair(hi, lo) + d
  {
    hi', lo' := AddDigit(hi, lo, d);
    Small64(Pair(hi, lo) + d);
  }

  lemma {:induction false} Small64(x: nat)
    requires x < 0x1_0000_0000_0000_0000
    ensures x % 0x1_0000_0000_0000_0000 == x
  {
  }

  lemma {:induction false} Below18(i: nat)
    requires i < 18
    ensures Pow10(i) <= 100_000_000_000_000_000
  {
    SmallPowers();
    Pow10Grows(i, 17);
    assert Pow10(18) == 10 * Pow10(17);
  }

  // ----- Base two -----

  /** The position of the highest bit of a non-zero word. */
  method HighBit(v: Word) returns (b: nat)
    requires v > 0
    ensures Pow2(b) <= v < Pow2(b + 1) && b < 32
  {
    hide Pow2;
    b := 0;
    var t := v;
    ghost var low := 0;
    Times1(v);
    while t > 1
      invariant 1 <= t && v == t * Pow2(b) + low && 0 <= low < Pow2(b)
      decreases t
    {
      HalfStep(v, t, b, low);
      low := low + (t % 2) * Pow2(b);
      t := t / 2;
      b := b + 1;
    }
    assert t == 1 && t * Pow2(b) == Pow2(b);
    Pow2Next(b);
    BitBelow32(b, v);
  }

  lemma {:induction false} HalfStep(v: nat, t: nat, b: nat, low: nat)
    requires v == t * Pow2(b) + low && low < Pow2(b)
    ensures v == t / 2 * Pow2(b + 1) + (low + t % 2 * Pow2(b)) && low + t % 2 * Pow2(b) < Pow2(b + 1)
  {
    var h, r, p := t / 2, t % 2, Pow2(b);
    assert t == 2 * h + r;
    assert t * p == h * (2 * p) + r * p;
    if r == 0 { assert r * p == 0; } else { assert r * p == p; }
  }

  lemma {:induction false} BitBelow32(b: nat, v: nat)
    requires Pow2(b) <= v < 0x1_0000_0000
    ensures b < 32
  {
    SmallPowers();
    if b >= 32 { Pow2Grows(32, b); }
  }

  /** The position of the highest bit of a pair. */
  method TopBit(hi: Word, lo: Word) returns (p: nat)
    requires Pair(hi, lo) > 0
    ensures Pow2(p) <= Pair(hi, lo) < Pow2(p + 1) && (p < 32 <==> hi == 0)
  {
    hide Pow2;
    if hi > 0 {
      var b := HighBit(hi);
      p := b + 32;
      SmallPowers();
      Pow2Add(b, 32);
      Pow2Add(b + 1, 32);
      assert b + 1 + 32 == p + 1;
      Scale32(hi, lo, Pow2(b), Pow2(b + 1));
    } else {
      p := HighBit(lo);
    }
  }

  lemma {:induction false} Scale32(hi: nat, lo: nat, a: nat, b: nat)
    requires a <= hi < b && lo < 0x1_0000_0000
    ensures a * 0x1_0000_0000 <= hi * 0x1_0000_0000 + lo < b * 0x1_0000_0000
  {
  }

  /** A fraction R/D below one: its leading bit is at -(lz + 1); what is left of R. */
  method LeadingBit(rh: Word, rl: Word, dh: Word, dl: Word) returns (lz: nat, rh': Word, rl': Word)
    requires 0 < Pair(rh, rl) < Pair(dh, dl) <= 1_000_000_000_000_000_000
    ensures lz < 60 && Pair(rh', rl') < Pair(dh, dl)
    ensures Pair(rh, rl) * Pow2(lz + 1) == Pair(dh, dl) + Pair(rh', rl')
  {
    hide Pair;
    ghost var r0, d := Pair(rh, rl), Pair(dh, dl);
    rh', rl', lz := rh, rl, 0;
    Times1(r0);
    while lz < 2048
      invariant Pair(rh', rl') == r0 * Pow2(lz) < d && lz < 60
    {
      rh', rl' := Double(rh', rl');
      TwiceMore(r0, lz);
      var ge := AtLeast(rh', rl', dh, dl);
      if ge {
        rh', rl' := Subtract(rh', rl', dh, dl);
        return;
      }
      Below60(r0, lz + 1, d);
      lz := lz + 1;
    }
  }

  lemma {:induction false} Times1(r: nat)
    ensures r * Pow2(0) == r
  {
  }

  lemma {:induction false} TwiceMore(r: nat, k: nat)
    ensures 2 * (r * Pow2(k)) == r * Pow2(k + 1)
  {
  }

  lemma {:induction false} Below60(r: nat, k: nat, d: nat)
    requires r > 0 && r * Pow2(k) < d <= 1_000_000_000_000_000_000
    ensures k < 60
  {
    if k >= 60 {
      MulAtLeast(r, Pow2(k));
      SmallPowers();
      Pow2Grows(60, k);
    }
  }

  /** x with bit p set, for p below 32. */
  function SetBit(x: Word, p: nat): int
  {
    if x / Pow2(p) % 2 == 0 then x + Pow2(p) else x
  }

  /** Setting a bit that is clear in a multiple of twice its weight adds it. */
  lemma {:induction false} SetClear(x: Word, p: nat, q: nat)
    requires x == q * Pow2(p + 1)
    ensures SetBit(x, p) == x + Pow2(p)
  {
    assert q * (2 * Pow2(p)) == (2 * q) * Pow2(p) + 0;
    DivModUnique(x, Pow2(p), 2 * q, 0);
  }

  /** mant |= 1 << p on the pair, where the bits below p + 1 are still clear. */
  method SetPairBit(hi: Word, lo: Word, p: nat, ghost q: nat) returns (hi': Word, lo': Word)
    requires p < 52 && Pair(hi, lo) == q * Pow2(p + 1) && Pair(hi, lo) + Pow2(p) < 0x10_0000_0000_0000
    ensures Pair(hi', lo') == Pair(hi, lo) + Pow2(p)
  {
    SmallPowers();
    if p < 32 {
      ghost var k := LowMultiple(hi, lo, p, q);
      SetClear(lo, p, k);
      LowFits(lo, p, k);
      hi', lo' := hi, SetBit(lo, p);
    } else {
      ghost var k := HighMultiple(hi, lo, p, q);
      SetClear(hi, p - 32, k);
      Pow2Add(p - 32, 32);
      hi', lo' := hi, lo;
      HighFits(hi, lo, p);
      hi' := SetBit(hi, p - 32);
    }
  }

  lemma {:induction false} LowMultiple(hi: Word, lo: Word, p: nat, q: nat) returns (k: nat)
    requires p < 32 && Pair(hi, lo) == q * Pow2(p + 1)
    ensures lo == k * Pow2(p + 1)
  {
    SmallPowers();
    Pow2Add(31 - p, p + 1);
    k := Multiple(hi, lo, q, Pow2(31 - p), Pow2(p + 1));
  }

  lemma {:induction false} Multiple(hi: nat, lo: nat, q: nat, m: nat, w: nat) returns (k: nat)
    requires m * w == 0x1_0000_0000 && w >= 1 && hi * 0x1_0000_0000 + lo == q * w
    ensures lo == k * w
  {
    MulAssoc(hi, m, w);
    Distribute(q, hi * m, w);
    var d := q - hi * m;
    assert lo == d * w;
    if d < 0 { NegativeTimes(d, w); }
    k := d;
  }

  lemma {:induction false} Distribute(a: int, b: int, w: int)
    ensures (a - b) * w == a * w - b * w
  {
  }

  lemma {:induction false} SumTimes(a: int, b: int, w: int)
    ensures (a + b) * w == a * w + b * w
  {
  }

  lemma {:induction false} NegativeTimes(a: int, w: int)
    requires a < 0 && w >= 1
    ensures a * w < 0
  {
  }

  lemma {:induction false} LowFits(lo: Word, p: nat, k: nat)
    requires p < 32 && lo == k * Pow2(p + 1)
    ensures lo + Pow2(p) < 0x1_0000_0000
  {
    SmallPowers();
    Pow2Add(31 - p, p + 1);
    NextMultiple(lo, k, Pow2(31 - p), Pow2(p + 1));
  }

  /** Below 2^32, the next multiple of a divisor of 2^32 is at most 2^32. */
  lemma {:induction false} NextMultiple(lo: nat, k: nat, m: nat, w: nat)
    requires m * w == 0x1_0000_0000 && w >= 1 && lo == k * w && lo < 0x1_0000_0000
    ensures lo + w <= 0x1_0000_0000
  {
    if k >= m {
      MulMono(k, m, w, w);
    } else {
      MulMono(m, k + 1, w, w);
      Distribute(k, -1, w);
    }
  }

  lemma {:induction false} HighMultiple(hi: Word, lo: Word, p: nat, q: nat) returns (k: nat)
    requires p >= 32 && Pair(hi, lo) == q * Pow2(p + 1)
    ensures lo == 0 && hi == k * Pow2(p - 32 + 1)
  {
    hide Pow2;
    SmallPowers();
    Pow2Add(p - 31, 32);
    HighParts(hi, lo, q, Pow2(p - 31));
    k := q;
  }

  lemma {:induction false} HighParts(hi: Word, lo: Word, q: nat, w: nat)
    requires Pair(hi, lo) == q * (w * 0x1_0000_0000)
    ensures lo == 0 && hi == q * w
  {
    MulAssoc(q, w, 0x1_0000_0000);
    var n := q * w;
    assert hi * 0x1_0000_0000 + lo == n * 0x1_0000_0000;
  }

  lemma {:induction false} HighFits(hi: Word, lo: Word, p: nat)
    requires 32 <= p < 52 && Pair(hi, lo) + Pow2(p) < 0x10_0000_0000_0000
    ensures hi + Pow2(p - 32) < 0x1_0000_0000 && Pow2(p) == Pow2(p - 32) * 0x1_0000_0000
  {
    SmallPowers();
    Pow2Add(p - 32, 32);
  }

  // ----- The mantissa -----

  const M52: nat := 0x10_0000_0000_0000

  function ClearBit(x: Word, p: nat): int
  {
    if x / Pow2(p) % 2 == 1 then x - Pow2(p) else x
  }

  lemma {:induction false} ClearTop(x: Word, p: nat)
    requires Pow2(p) <= x < Pow2(p + 1)
    ensures ClearBit(x, p) == x - Pow2(p)
  {
    DivModUnique(x, Pow2(p), 1, x - Pow2(p));
  }

  /** Q without its leading bit, shifted so that the leading bit would be bit 52. */
  method ShiftQuotient(qh: Word, ql: Word, p: nat) returns (mh: Word, ml: Word)
    requires Pow2(p) <= Pair(qh, ql) < Pow2(p + 1) && p < 52 && (p < 32 <==> qh == 0)
    ensures Pair(mh, ml) == (Pair(qh, ql) - Pow2(p)) * Pow2(52 - p) && Pair(mh, ml) + Pow2(52 - p) <= M52
  {
    hide Pow2, Pair;
    mh, ml := DropTop(qh, ql, p);
    ghost var c := Pair(mh, ml);
    var si := 0;
    Times1(c);
    Pow2Next(p);
    while si < 52 - p
      invariant 0 <= si <= 52 - p && Pair(mh, ml) == c * Pow2(si)
    {
      Below52(c, p, si);
      TwiceMore(c, si);
      mh, ml := Double(mh, ml);
      si := si + 1;
    }
    assert si == 52 - p;
    Below52(c, p, si);
    TopFits(mh, ml, Pow2(si));
    mh := mh % 0x10_0000;
  }

  /** Nothing is lost above bit 52. */
  lemma {:induction false} TopFits(h: Word, l: Word, w: nat)
    requires Pair(h, l) + w <= M52 && w >= 1
    ensures h % 0x10_0000 == h
  {
  }

  method DropTop(qh: Word, ql: Word, p: nat) returns (mh: Word, ml: Word)
    requires Pow2(p) <= Pair(qh, ql) < Pow2(p + 1) && p < 52 && (p < 32 <==> qh == 0)
    ensures Pair(mh, ml) == Pair(qh, ql) - Pow2(p)
  {
    if p < 32 {
      ClearTop(ql, p);
      mh, ml := qh, ClearBit(ql, p);
    } else {
      TopOfHigh(qh, ql, p);
      ClearTop(qh, p - 32);
      mh, ml := ClearBit(qh, p - 32), ql;
    }
  }

  lemma {:induction false} TopOfHigh(hi: Word, lo: Word, p: nat)
    requires p >= 32 && Pow2(p) <= Pair(hi, lo) < Pow2(p + 1)
    ensures Pow2(p - 32) <= hi < Pow2(p - 32 + 1) && Pow2(p) == Pow2(p - 32) * 0x1_0000_0000
  {
    SmallPowers();
    Pow2Add(p - 32, 32);
    Pow2Add(p - 32 + 1, 32);
    assert p + 1 == p - 32 + 1 + 32;
    HighRange(hi, lo, Pow2(p - 32), Pow2(p - 32 + 1));
  }

  lemma {:induction false} HighRange(hi: nat, lo: nat, a: nat, b: nat)
    requires lo < 0x1_0000_0000 && a * 0x1_0000_0000 <= hi * 0x1_0000_0000 + lo < b * 0x1_0000_0000
    ensures a <= hi < b
  {
  }

  /** c below 2^p, shifted by si, stays below 2^(p + si). */
  lemma {:induction false} Below52(c: nat, p: nat, si: nat)
    requires c < Pow2(p) && p + si <= 52
    ensures c * Pow2(si) + Pow2(si) <= M52
  {
    SmallPowers();
    Pow2Add(p, si);
    Pow2Grows(p + si, 52);
    MulMono(Pow2(p), c + 1, Pow2(si), Pow2(si));
    Distribute(c, -1, Pow2(si));
  }

  /** One step of binary long division: doubles r and takes d off if it fits. */
  method DivideStep(rh: Word, rl: Word, dh: Word, dl: Word) returns (bit: bool, rh': Word, rl': Word)
    requires Pair(rh, rl) < Pair(dh, dl) <= 1_000_000_000_000_000_000
    ensures Pair(rh', rl') < Pair(dh, dl)
    ensures 2 * Pair(rh, rl) == (if bit then Pair(dh, dl) else 0) + Pair(rh', rl')
  {
    rh', rl' := Double(rh, rl);
    bit := AtLeast(rh', rl', dh, dl);
    if bit { rh', rl' := Subtract(rh', rl', dh, dl); }
  }

  /** The binary digits of R/D, mbits of them, go below base; then one more decides,
      together with any non-zero remainder on the way, whether to round up. */
  method Expand(rh: Word, rl: Word, dh: Word, dl: Word, mh: Word, ml: Word, mbits: nat, ghost c: nat)
    returns (mh': Word, ml': Word, up: bool)
    requires 0 < Pair(rh, rl) < Pair(dh, dl) <= 1_000_000_000_000_000_000 && 1 <= mbits <= 52
    requires Pair(mh, ml) == c * Pow2(mbits) && Pair(mh, ml) + Pow2(mbits) <= M52
    ensures Pair(mh', ml') == Pair(mh, ml) + Pair(rh, rl) * Pow2(mbits) / Pair(dh, dl) < M52
    ensures up <==> 2 * Pair(rh, rl) != Pair(dh, dl)
  {
    hide Pair, Pow2, Quotient;
    ghost var r0, d, base := Pair(rh, rl), Pair(dh, dl), Pair(mh, ml);
    ghost var b := 0;
    mh', ml' := mh, ml;
    var r, l := rh, rl;
    var carry, extra := false, false;
    var bi := 0;
    StartDivision(r0, d, base, mbits);
    while bi < mbits + 1
      invariant 0 <= bi <= mbits + 1 && Pair(r, l) < d && b >= 0
      invariant bi <= mbits ==> Quotient(r0, d, base, mbits, bi, b, Pair(r, l), Pair(mh', ml'))
      invariant bi == mbits + 1 ==> Pair(mh', ml') == base + r0 * Pow2(mbits) / d < M52
      invariant bi == 0 ==> Pair(r, l) == r0 && !extra
      invariant bi >= 1 && 2 * r0 == d ==> Pair(r, l) == 0 && !extra
      invariant bi >= 1 && 2 * r0 != d ==> extra
      invariant bi <= mbits ==> !carry
      invariant 2 * r0 == d ==> !carry
    {
      ghost var old_ := Pair(r, l);
      var bit;
      bit, r, l := DivideStep(r, l, dh, dl);
      if bi < mbits {
        NextBit(r0, d, base, mbits, bi, b, old_, bit, Pair(r, l), Pair(mh', ml'), c);
        mh', ml' := PlaceBit(bit, mh', ml', mbits - 1 - bi, c * Pow2(bi) + b);
        b := 2 * b + if bit then 1 else 0;
      } else {
        LastBit(r0, d, base, mbits, b, old_, Pair(mh', ml'));
        if bit { carry := true; }
      }
      if r > 0 || l > 0 { extra := true; }
      ZeroPair(r, l);
      bi := bi + 1;
    }
    assert bi == mbits + 1;
    up := carry || extra;
  }

  method PlaceBit(bit: bool, hi: Word, lo: Word, p: nat, ghost q: nat) returns (hi': Word, lo': Word)
    requires p < 52 && Pair(hi, lo) == q * Pow2(p + 1) && Pair(hi, lo) + Pow2(p) < M52
    ensures Pair(hi', lo') == Pair(hi, lo) + if bit then Pow2(p) else 0
  {
    hi', lo' := hi, lo;
    if bit { hi', lo' := SetPairBit(hi, lo, p, q); }
  }

  lemma {:induction false} ZeroPair(h: Word, l: Word)
    ensures Pair(h, l) > 0 <==> h > 0 || l > 0
  {
  }

  /** After bi bits of the quotient of r0/d the digits are b, the remainder is r, and
      the mantissa has grown from base to mant. */
  predicate Quotient(r0: nat, d: nat, base: nat, mbits: nat, bi: nat, b: nat, r: nat, mant: nat)
    requires bi <= mbits
  {
    && r0 * Pow2(bi) == b * d + r && r < d && b < Pow2(bi)
    && mant == base + b * Pow2(mbits - bi)
    && base + Pow2(mbits) <= M52
  }

  lemma {:induction false} StartDivision(r: nat, d: nat, base: nat, mbits: nat)
    requires base + Pow2(mbits) <= M52 && r < d
    ensures Quotient(r, d, base, mbits, 0, 0, r, base)
  {
  }

  /** The quotient gains a bit, and so does the mantissa. */
  lemma {:induction false} NextBit(r0: nat, d: nat, base: nat, mbits: nat, bi: nat, b: nat, r: nat, bit: bool, r': nat,
                                   m: nat, c: nat)
    requires bi < mbits <= 52 && Quotient(r0, d, base, mbits, bi, b, r, m) && r' < d
    requires 2 * r == (if bit then d else 0) + r' && base == c * Pow2(mbits)
    ensures var w := Pow2(mbits - 1 - bi);
      && Quotient(r0, d, base, mbits, bi + 1, 2 * b + if bit then 1 else 0, r', m + if bit then w else 0)
      && m == (c * Pow2(bi) + b) * Pow2(mbits - 1 - bi + 1)
      && m + w < M52
  {
    hide Pow2;
    var w := Pow2(mbits - 1 - bi);
    Pow2Next(mbits - 1 - bi); Pow2Next(bi);
    assert mbits - 1 - bi + 1 == mbits - bi && mbits - (bi + 1) == mbits - 1 - bi;
    TwiceMore(r0, bi);
    QuotientStep(b, d, r, bit, r');
    BitWeight(b, bit, w);
    Pow2Add(bi, mbits - bi);
    MulAssoc(c, Pow2(bi), 2 * w);
    SumTimes(c * Pow2(bi), b, 2 * w);
    RoomForBit(base, b, Pow2(bi), w, Pow2(mbits));
  }

  lemma {:induction false} Pow2Next(k: nat)
    ensures Pow2(k + 1) == 2 * Pow2(k)
  {
  }

  lemma {:induction false} QuotientStep(b: nat, d: nat, r: nat, bit: bool, r': nat)
    requires 2 * r == (if bit then d else 0) + r'
    ensures 2 * (b * d + r) == (2 * b + if bit then 1 else 0) * d + r'
  {
    if bit { Distribute(2 * b, -1, d); }
  }

  lemma {:induction false} BitWeight(b: nat, bit: bool, w: nat)
    ensures (2 * b + if bit then 1 else 0) * w == b * (2 * w) + if bit then w else 0
  {
    if bit { Distribute(2 * b, -1, w); }
  }

  lemma {:induction false} RoomForBit(base: nat, b: nat, p: nat, w: nat, whole: nat)
    requires b < p && whole == p * (2 * w) && base + whole <= M52 && w >= 1
    ensures base + b * (2 * w) + w < M52
  {
    MulMono(p, b + 1, 2 * w, 2 * w);
    Distribute(b, -1, 2 * w);
  }

  lemma {:induction false} LastBit(r0: nat, d: nat, base: nat, mbits: nat, b: nat, r: nat, m: nat)
    requires Quotient(r0, d, base, mbits, mbits, b, r, m)
    ensures m == base + r0 * Pow2(mbits) / d < M52
  {
    DivModUnique(r0 * Pow2(mbits), d, b, r);
    assert Pow2(mbits - mbits) == 1;
  }

  /** Adding one; a mantissa of all ones becomes the next power of two. */
  method RoundUp(mh: Word, ml: Word) returns (mh': Word, ml': Word, overflow: bool)
    requires Pair(mh, ml) < M52
    ensures overflow <==> Pair(mh, ml) + 1 == M52
    ensures Pair(mh', ml') == if overflow then 0 else Pair(mh, ml) + 1
  {
    mh', overflow := mh, false;
    ml' := (ml + 1) % 0x1_0000_0000;
    if ml' < ml {
      mh' := mh + 1;
      if mh' / 0x10_0000 % 2 == 1 {
        mh' := 0;
        overflow := true;
      }
    }
    mh' := mh' % 0x10_0000;
  }

  // ----- The conversion -----

  function Exponent(hi: Word): int { hi / 0x10_0000 % 0x800 - 1023 }

  function Mantissa(hi: Word, lo: Word): nat { hi % 0x10_0000 * 0x1_0000_0000 + lo }

  function Negative(hi: Word): bool { hi >= 0x8000_0000 }

  method Pack(neg: bool, e: int, mh: Word, ml: Word) returns (lo: Word, hi: Word)
    requires -1000 <= e <= 1000 && mh < 0x10_0000
    ensures Exponent(hi) == e && Mantissa(hi, lo) == Pair(mh, ml) && Negative(hi) == neg
  {
    hi := (if neg then 0x8000_0000 else 0) + (1023 + e) % 0x800 * 0x10_0000 + mh;
    lo := ml;
  }

  /** 2^p is the leading power of two of m/d. */
  predicate Leads(m: nat, d: nat, p: int)
  {
    if p >= 0 then Pow2(p) * d <= m < Pow2(p + 1) * d else d <= m * Pow2(-p) < 2 * d
  }

  /** What the leading bit leaves of m/d, over d, once m/d has been brought to at least one. */
  function Rest(m: nat, d: nat, p: int): int
    requires d > 0
  {
    if p >= 0 then m % d else m * Pow2(-p) - d
  }

  /** m/d as a significand of 53 bits with exponent e, times d. */
  function Scaled(m: nat, e: int): nat
    requires e <= 52
  {
    m * Pow2(52 - e)
  }

  /** The significand of the bit pattern, brought to exponent p; that is its own
      exponent, or one less if the mantissa has overflowed. */
  function SignificandAt(p: int, hi: Word, lo: Word): nat
  {
    if Exponent(hi) == p then M52 + Mantissa(hi, lo) else 2 * (M52 + Mantissa(hi, lo))
  }

  /** The bit pattern (hi, lo) is the value m/d, whose leading bit is at p, rounded up
      to 53 bits or one unit above it: never below, never more than one unit too high,
      and exact if and only if what the leading bit leaves is 0 or 1/2. */
  predicate Converted(m: nat, d: nat, p: int, hi: Word, lo: Word)
    requires d > 0
  {
    var sig := SignificandAt(p, hi, lo);
    && -1022 <= p <= 51 && (Exponent(hi) == p || (Exponent(hi) == p + 1 && Mantissa(hi, lo) == 0))
    && Scaled(m, p) <= sig * d <= Scaled(m, p) + d
    && (sig * d == Scaled(m, p) <==> Rest(m, d, p) == 0 || 2 * Rest(m, d, p) == d)
  }

  /** The long division of the rest: x = f * d + r, where f is the 53-bit significand. */
  lemma {:induction false} WholeScaled(m: nat, q: nat, d: nat, r: nat, p: nat)
    requires m == q * d + r && r < d && Pow2(p) <= q < Pow2(p + 1) && p < 52
    ensures Scaled(m, p) == (M52 + (q - Pow2(p)) * Pow2(52 - p) + r * Pow2(52 - p) / d) * d + r * Pow2(52 - p) % d
    ensures Leads(m, d, p) && Rest(m, d, p) == r
  {
    hide Pow2;
    var w := Pow2(52 - p);
    SmallPowers();
    Pow2Add(p, 52 - p);
    Distribute(q, Pow2(p), w);
    ExactDivision(r * w, d);
    MulAssoc(q, d, w); MulAssoc(q, w, d);
    assert q * (d * w) == q * (w * d);
    SumTimes(q * d, r, w);
    SumTimes(q * w, r * w / d, d);
    QuotientRange(m, q, d, r, Pow2(p), Pow2(p + 1));
    DivModUnique(m, d, q, r);
  }

  lemma {:induction false} ExactDivision(x: nat, d: nat)
    requires d > 0
    ensures x == x / d * d + x % d
  {
  }

  lemma {:induction false} QuotientRange(m: nat, q: nat, d: nat, r: nat, a: nat, b: nat)
    requires m == q * d + r && r < d && a <= q < b
    ensures a * d <= m < b * d
  {
    MulMono(q, a, d, d);
    MulMono(b, q + 1, d, d);
    SumTimes(q, 1, d);
  }

  /** The same for a fraction below one, whose leading bit is at p. */
  lemma {:induction false} FractionScaled(m: nat, d: nat, p: int, r: nat)
    requires p < 0 && m * Pow2(-p) == d + r && r < d
    ensures Scaled(m, p) == (M52 + r * Pow2(52) / d) * d + r * Pow2(52) % d
    ensures Leads(m, d, p) && Rest(m, d, p) == r
  {
    hide Pow2;
    SmallPowers();
    Pow2Add(-p, 52);
    assert 52 - p == -p + 52;
    MulAssoc(m, Pow2(-p), M52);
    ExactDivision(r * M52, d);
    SumTimes(d, r, M52);
    SumTimes(M52, r * M52 / d, d);
    assert d * M52 == M52 * d;
  }

  /** From the long division to the bit pattern. */
  lemma {:induction false} ConvertedBits(m: nat, d: nat, p: int, f: nat, r: nat, rest: nat, up: bool, hi: Word, lo: Word)
    requires d > 0 && -1022 <= p <= 51 && M52 <= f < 2 * M52 && Scaled(m, p) == f * d + r && r < d
    requires Rest(m, d, p) == rest && (up <==> rest != 0 && 2 * rest != d) && (!up ==> r == 0)
    requires var sig := if up then f + 1 else f;
      if sig == 2 * M52 then Exponent(hi) == p + 1 && Mantissa(hi, lo) == 0
      else Exponent(hi) == p && Mantissa(hi, lo) == sig - M52
    ensures Converted(m, d, p, hi, lo)
  {
    hide Exponent, Mantissa, Rest, Scaled;
    SumTimes(f, 1, d);
    assert SignificandAt(p, hi, lo) == if up then f + 1 else f;
  }

  /** A half or nothing leaves no remainder in the long division. */
  lemma {:induction false} NoRemainder(rest: nat, d: nat, k: nat)
    requires d > 0 && k >= 1 && (rest == 0 || 2 * rest == d)
    ensures rest * Pow2(k) % d == 0
  {
    if rest == 0 {
      assert rest * Pow2(k) == 0;
    } else {
      Pow2Next(k - 1);
      assert rest * (2 * Pow2(k - 1)) == Pow2(k - 1) * d + 0;
      DivModUnique(rest * Pow2(k), d, Pow2(k - 1), 0);
    }
  }

  /** Mantissa, rounding and packing once the leading bit is known. */
  method Finish(neg: bool, p: int, mh: Word, ml: Word, rh: Word, rl: Word, dh: Word, dl: Word, mbits: nat, ghost c: nat,
                ghost m: nat, ghost d: nat)
    returns (lo: Word, hi: Word)
    requires -60 <= p <= 51 && 1 <= mbits <= 52 && d > 0
    requires Pair(rh, rl) > 0 ==> Pair(dh, dl) == d && Pair(rh, rl) < d <= 1_000_000_000_000_000_000
    requires Pair(mh, ml) == c * Pow2(mbits) && Pair(mh, ml) + Pow2(mbits) <= M52
    requires Leads(m, d, p) && Rest(m, d, p) == Pair(rh, rl) < d
    requires Scaled(m, p) == (M52 + Pair(mh, ml) + Pair(rh, rl) * Pow2(mbits) / d) * d + Pair(rh, rl) * Pow2(mbits) % d
    ensures Converted(m, d, p, hi, lo) && Negative(hi) == neg
  {
    hide Pow2, Leads, Rest, Exponent, Mantissa, Converted, Scaled;
    ghost var rest := Pair(rh, rl);
    var h, l, e := mh, ml, p;
    var up := false;
    if rh > 0 || rl > 0 {
      h, l, up := Expand(rh, rl, dh, dl, mh, ml, mbits, c);
    } else {
      ZeroRest(rest, Pow2(mbits), d);
    }
    ghost var f := M52 + Pair(h, l);
    if !up { NoRemainder(rest, d, mbits); }
    if up {
      var overflow;
      h, l, overflow := RoundUp(h, l);
      if overflow { e := e + 1; }
    }
    HighSmall(h, l);
    lo, hi := Pack(neg, e, h, l);
    ConvertedBits(m, d, p, f, rest * Pow2(mbits) % d, rest, up, hi, lo);
  }

  lemma {:induction false} ZeroRest(rest: nat, w: nat, d: nat)
    requires rest == 0 && d > 0
    ensures rest * w / d == 0
  {
    assert rest * w == 0;
  }

  lemma {:induction false} HighSmall(h: Word, l: Word)
    requires Pair(h, l) < M52
    ensures h < 0x10_0000
  {
  }

  /** Times 10^k, as long as it fits. */
  method ScaleUp(mh: Word, ml: Word, k: nat) returns (h: Word, l: Word)
    requires Pair(mh, ml) * Pow10(k) < M52
    ensures Pair(h, l) == Pair(mh, ml) * Pow10(k)
  {
    hide Pow10, Pair;
    h, l := mh, ml;
    var i := 0;
    TimesOne(Pair(mh, ml));
    while i < k
      invariant 0 <= i <= k && Pair(h, l) == Pair(mh, ml) * Pow10(i)
    {
      Pow10Grows(i + 1, k);
      MulMono(Pow10(k), Pow10(i + 1), Pair(mh, ml), Pair(mh, ml));
      TenMore(Pair(mh, ml), i);
      NotFull(h, l);
      if h > 0xFFFF_FFFF / 10 { break; }
      h, l := Mul10Small(h, l);
      i := i + 1;
    }
    assert i == k;
  }

  lemma {:induction false} TimesOne(m: nat)
    ensures m * Pow10(0) == m
  {
  }

  lemma {:induction false} TenMore(m: nat, i: nat)
    ensures m * Pow10(i + 1) == 10 * (m * Pow10(i))
  {
  }

  lemma {:induction false} NotFull(h: Word, l: Word)
    requires 10 * Pair(h, l) < M52
    ensures h <= 0xFFFF_FFFF / 10 && Pair(h, l) <= 100_000_000_000_000_000
  {
  }

  /** The numerator and denominator of m * 10^exp. */
  function Numerator(m: nat, exp: int): nat { if exp > 0 then m * Pow10(exp) else m }

  function Denominator(exp: int): (d: nat)
    ensures d > 0
  {
    if exp < 0 then Pow10(-exp) else 1
  }

  /** Converts m * 10^exp for m > 0: the integer part must stay below 2^52 and at most
      18 digits may follow the point. */
  method Convert(neg: bool, mh: Word, ml: Word, exp: int) returns (lo: Word, hi: Word, ghost p: int)
    requires Pair(mh, ml) > 0 && -18 <= exp
    requires Numerator(Pair(mh, ml), exp) / Denominator(exp) < M52
    ensures Leads(Numerator(Pair(mh, ml), exp), Denominator(exp), p)
    ensures Converted(Numerator(Pair(mh, ml), exp), Denominator(exp), p, hi, lo) && Negative(hi) == neg
  {
    hide Pow2, Pow10, Pair, Leads, Rest, Converted, Scaled, DigitsValue;
    ghost var m, d := Numerator(Pair(mh, ml), exp), Denominator(exp);
    var h, l := mh, ml;
    if exp > 0 {
      DivideByOne(m);
      h, l := ScaleUp(mh, ml, exp);
    }
    var k := if exp < 0 then -exp else 0;
    var qh, ql, rh, rl, dh, dl := DivideDown(h, l, k);
    DenominatorIs(exp, k);
    DivModUnique(m, d, Pair(qh, ql), Pair(rh, rl));
    ZeroPair(qh, ql);
    if qh > 0 || ql > 0 {
      lo, hi, p := ConvertMixed(neg, qh, ql, rh, rl, dh, dl, m, d);
    } else {
      assert Pair(rh, rl) == m > 0 && k > 0 by { assert 0 * d == 0; }
      lo, hi, p := ConvertFraction(neg, rh, rl, dh, dl, m, d);
    }
  }

  lemma {:induction false} DenominatorIs(exp: int, k: nat)
    requires k <= 18 && k == if exp < 0 then -exp else 0
    ensures Denominator(exp) == Pow10(k) <= 1_000_000_000_000_000_000 && (k == 0 ==> Pow10(k) == 1)
  {
    SmallPowers();
    Pow10Grows(k, 18);
  }

  /** An integer part Q > 0 over the remainder R. */
  method ConvertMixed(neg: bool, qh: Word, ql: Word, rh: Word, rl: Word, dh: Word, dl: Word, ghost m: nat, ghost d: nat)
    returns (lo: Word, hi: Word, ghost p: int)
    requires 0 < Pair(qh, ql) < M52 && m == Pair(qh, ql) * d + Pair(rh, rl) && Pair(rh, rl) < d
    requires Pair(rh, rl) > 0 ==> Pair(dh, dl) == d <= 1_000_000_000_000_000_000
    ensures Leads(m, d, p) && Converted(m, d, p, hi, lo) && Negative(hi) == neg
  {
    hide Pow2, Pair, Leads, Rest, Converted, Scaled;
    var bit := TopBit(qh, ql);
    Below52Bits(bit, Pair(qh, ql));
    p := bit;
    var ah, al := ShiftQuotient(qh, ql, bit);
    WholeScaled(m, Pair(qh, ql), d, Pair(rh, rl), bit);
    lo, hi := Finish(neg, bit, ah, al, rh, rl, dh, dl, 52 - bit, Pair(qh, ql) - Pow2(bit), m, d);
  }

  /** A fraction below one: the leading bit comes out of R/D first. */
  method ConvertFraction(neg: bool, rh: Word, rl: Word, dh: Word, dl: Word, ghost m: nat, ghost d: nat)
    returns (lo: Word, hi: Word, ghost p: int)
    requires 0 < Pair(rh, rl) == m < d == Pair(dh, dl) <= 1_000_000_000_000_000_000
    ensures Leads(m, d, p) && Converted(m, d, p, hi, lo) && Negative(hi) == neg
  {
    hide Pow2, Pair, Leads, Rest, Converted, Scaled;
    var lz, fh, fl := LeadingBit(rh, rl, dh, dl);
    var zeros: int := lz;
    var top := -zeros - 1;
    p := top;
    FractionScaled(m, d, p, Pair(fh, fl));
    var zh, zl := Small(0);
    NoInteger();
    lo, hi := Finish(neg, top, zh, zl, fh, fl, dh, dl, 52, 0, m, d);
  }

  lemma {:induction false} NoInteger()
    ensures 0 * Pow2(52) == 0 && Pow2(52) == M52
  {
    SmallPowers();
  }

  lemma {:induction false} DivideByOne(m: nat)
    ensures m / 1 == m
  {
  }

  lemma {:induction false} Below52Bits(b: nat, v: nat)
    requires Pow2(b) <= v < M52
    ensures b < 52
  {
    SmallPowers();
    if b >= 52 { Pow2Grows(52, b); }
  }
}
