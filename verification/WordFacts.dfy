/** What the operations on machine words compute, bit by bit and digit by digit. */
module WordFacts {
  import opened Words

  // ----- Bits -----

  /** Bit i of a number in two's complement. */
  predicate Bit(x: int, i: nat) { x / Pow2(i) % 2 == 1 }

  lemma {:induction false} HalfOf(x: int, p: int)
    requires p > 0
    ensures x / (2 * p) == x / 2 / p
  {
    var h := x / 2;
    DivModUnique(x, 2 * p, h / p, 2 * (h % p) + x % 2);
  }

  lemma {:induction false} BitNext(x: int, i: nat)
    requires i > 0
    ensures Bit(x, i) == Bit(x / 2, i - 1)
  {
    HalfOf(x, Pow2(i - 1));
  }

  lemma {:induction false} PerBitAt(n: nat, f: (bool, bool) -> bool, x: int, y: int, i: nat)
    requires i < n
    ensures Bit(PerBit(n, f, x, y), i) == f(Bit(x, i), Bit(y, i))
    decreases n
  {
    var r := PerBit(n - 1, f, x / 2, y / 2);
    var c := if f(x % 2 == 1, y % 2 == 1) then 1 else 0;
    assert (c + 2 * r) / 2 == r && (c + 2 * r) % 2 == c;
    if i > 0 {
      PerBitAt(n - 1, f, x / 2, y / 2, i - 1);
      BitNext(c + 2 * r, i);
      BitNext(x, i);
      BitNext(y, i);
    }
  }

  /** The low n bits of a number do not change when it is reduced modulo 2^n. */
  lemma {:induction false} BitLow(x: int, n: nat, i: nat)
    requires i < n
    ensures Bit(Reduce(x, Pow2(n)), i) == Bit(x, i)
  {
    hide Pow2, Reduce, Bit;
    var w, q, a, b := Pow2(n), x / Pow2(n), Pow2(n - 1 - i), Pow2(i);
    IsMod(x, w);
    Pow2Split(n - 1 - i, i);
    Regroup(q, a, b, w);
    Quotient(x, w);
    BitAway(Reduce(x, w), q * a, i);
  }

  lemma {:induction false} Quotient(x: int, w: int)
    requires w > 0
    ensures x == x % w + x / w * w
  {
  }

  lemma {:induction false} Regroup(q: int, a: int, b: int, w: int)
    requires w == 2 * (a * b)
    ensures 2 * (q * a) * b == q * w
  {
    assert q * a * b == q * (a * b);
  }

  lemma {:induction false} Pow2Split(a: nat, b: nat)
    ensures Pow2(a) * Pow2(b) == Pow2(a + b) && 2 * Pow2(a + b) == Pow2(a + b + 1)
    decreases a
  {
    if a > 0 {
      Pow2Split(a - 1, b);
      assert Pow2(a) * Pow2(b) == 2 * (Pow2(a - 1) * Pow2(b));
    }
  }

  /** An even multiple of Pow2(i) does not change bit i. */
  lemma {:induction false} BitAway(x: int, k: int, i: nat)
    ensures Bit(x + 2 * k * Pow2(i), i) == Bit(x, i)
  {
    var p := Pow2(i);
    var q := x / p;
    assert x + 2 * k * p == (q + 2 * k) * p + x % p;
    DivModUnique(x + 2 * k * p, p, q + 2 * k, x % p);
    ModShift(q, k, 2);
  }

  /** What the bit operators compute, for all words in two's complement. */
  lemma {:induction false} AndBits(x: int, y: int, i: nat)
    requires i < 32
    ensures Bit(And32(x, y), i) <==> Bit(x, i) && Bit(y, i)
  {
    PerBitAt(32, (a, b) => a && b, U32(x), U32(y), i);
    WordSize();
    BitLow(x, 32, i); BitLow(y, 32, i);
  }

  lemma {:induction false} OrBits(x: int, y: int, i: nat)
    requires i < 32
    ensures Bit(Or32(x, y), i) <==> Bit(x, i) || Bit(y, i)
  {
    PerBitAt(32, (a, b) => a || b, U32(x), U32(y), i);
    WordSize();
    BitLow(x, 32, i); BitLow(y, 32, i);
  }

  lemma {:induction false} XorBits(x: int, y: int, i: nat)
    requires i < 32
    ensures Bit(Xor32(x, y), i) <==> Bit(x, i) != Bit(y, i)
  {
    PerBitAt(32, (a, b) => a != b, U32(x), U32(y), i);
    WordSize();
    BitLow(x, 32, i); BitLow(y, 32, i);
  }

  // ----- Truncating division -----

  function Size(a: int): nat { if a < 0 then -a else a }

  /** Section 6.5.5 of ISO C11: the quotient is the algebraic one with its fraction
      discarded, so the remainder is smaller than the divisor and has the sign of the
      dividend; and there is only one such quotient. */
  lemma {:induction false} TruncDivExactly(a: int, b: int, q: int, r: int)
    requires b != 0 && a == b * q + r && Size(r) < Size(b) && (r == 0 || (r < 0 <==> a < 0))
    ensures TruncDiv(a, b) == q && TruncMod(a, b) == r
  {
    var d := Size(b);
    var s := if b < 0 then -q else q;
    assert b * q == d * s;
    if a >= 0 {
      DivModUnique(a, d, s, r);
    } else {
      assert -a == d * (-s) + (-r);
      DivModUnique(-a, d, -s, -r);
    }
  }
}
