/** Machine words: 32-bit two's complement integers, little-endian byte fields,
    and the bit operations shared by C and by the x86-64 instructions. */
module Words {

  const W32: int := 0x1_0000_0000
  const W64: int := 0x1_0000_0000_0000_0000
  const INT_MIN: int := -0x8000_0000
  const INT_MAX: int := 0x7FFF_FFFF

  type Byte = b: int | 0 <= b < 256

  /** The values of C's int. */
  predicate IsInt(v: int) { INT_MIN <= v <= INT_MAX }

  /** x reduced modulo w.  The recursion keeps div and mod out of proofs that only
      need the lemmas below; IsMod says that it is the remainder. */
  function Reduce(x: int, w: int): (u: int)
    requires w > 0
    ensures 0 <= u < w
    decreases if x < 0 then w - x else x
  {
    if x < 0 then Reduce(x + w, w) else if x >= w then Reduce(x - w, w) else x
  }

  /** The unsigned 32-bit pattern of x (its low word). */
  function U32(x: int): (u: int)
    ensures 0 <= u < 0x1_0000_0000
  {
    Reduce(x, 0x1_0000_0000)
  }

  /** The unsigned 64-bit pattern of x. */
  function U64(x: int): (u: int)
    ensures 0 <= u < 0x1_0000_0000_0000_0000
  {
    Reduce(x, 0x1_0000_0000_0000_0000)
  }

  /** The signed reading of the low word of x. */
  function S32(x: int): (v: int)
    ensures IsInt(v)
  {
    var u := U32(x);
    if u < 0x8000_0000 then u else u - 0x1_0000_0000
  }

  /** The signed reading of the low 64 bits of x. */
  function S64(x: int): int
  {
    var u := U64(x);
    if u < 0x8000_0000_0000_0000 then u else u - 0x1_0000_0000_0000_0000
  }

  /** Signed reading of the low byte. */
  function S8(x: int): (v: int)
    ensures -128 <= v < 128
  {
    var u := x % 256;
    if u < 128 then u else u - 256
  }

  function Pow2(k: nat): (p: nat)
    ensures p >= 1
  {
    if k == 0 then 1 else 2 * Pow2(k - 1)
  }

  // ----- Bitwise operations on unsigned words -----

  /** The word of n bits in which each bit is f of the bits of x and y at its place. */
  function PerBit(n: nat, f: (bool, bool) -> bool, x: int, y: int): (r: int)
    ensures 0 <= r < Pow2(n)
  {
    if n == 0 then 0
    else (if f(x % 2 == 1, y % 2 == 1) then 1 else 0) + 2 * PerBit(n - 1, f, x / 2, y / 2)
  }

  function And32(x: int, y: int): (r: int)
    ensures 0 <= r < W32
  {
    WordSize();
    PerBit(32, (a, b) => a && b, U32(x), U32(y))
  }

  function Or32(x: int, y: int): (r: int)
    ensures 0 <= r < W32
  {
    WordSize();
    PerBit(32, (a, b) => a || b, U32(x), U32(y))
  }

  function Xor32(x: int, y: int): (r: int)
    ensures 0 <= r < W32
  {
    WordSize();
    PerBit(32, (a, b) => a != b, U32(x), U32(y))
  }

  function And64(x: int, y: int): int { PerBit(64, (a, b) => a && b, U64(x), U64(y)) }

  function Or64(x: int, y: int): int { PerBit(64, (a, b) => a || b, U64(x), U64(y)) }

  function Xor64(x: int, y: int): int { PerBit(64, (a, b) => a != b, U64(x), U64(y)) }

  lemma {:induction false} WordSize()
    ensures Pow2(32) == W32 && Pow2(64) == W64
  {
    assert Pow2(8) == 256 && Pow2(16) == 256 * Pow2(8) && Pow2(24) == 256 * Pow2(16) && Pow2(32) == 256 * Pow2(24);
    assert Pow2(40) == 256 * Pow2(32) && Pow2(48) == 256 * Pow2(40) && Pow2(56) == 256 * Pow2(48) && Pow2(64) == 256 * Pow2(56);
  }

  /** C division: the quotient is truncated toward zero. */
  function TruncDiv(a: int, b: int): int
    requires b != 0
  {
    if a >= 0 then (if b > 0 then a / b else -(a / -b))
    else (if b > 0 then -((-a) / b) else (-a) / (-b))
  }

  function TruncMod(a: int, b: int): int
    requires b != 0
  {
    a - b * TruncDiv(a, b)
  }

  /** a is a multiple of 4. */
  predicate Aligned(a: int) { Reduce(a, 4) == 0 }

  // ----- Facts -----

  lemma {:induction false} AlignedBy(a: int, k: int)
    ensures Aligned(a + 4 * k) == Aligned(a)
  {
    Reduced(a, k, 4);
  }

  lemma {:induction false} IsMod(x: int, w: int)
    requires w > 0
    ensures Reduce(x, w) == x % w
    decreases if x < 0 then w - x else x
  {
    if x < 0 {
      IsMod(x + w, w);
      ModShift(x, 1, w);
    } else if x >= w {
      IsMod(x - w, w);
      ModShift(x, -1, w);
    }
  }

  /** Adding a multiple changes nothing. */
  lemma {:induction false} Reduced(x: int, k: int, w: int)
    requires w > 0
    ensures Reduce(x + k * w, w) == Reduce(x, w)
  {
    IsMod(x, w); IsMod(x + k * w, w);
    ModShift(x, k, w);
  }

  /** The low word of the signed reading is the low word. */
  lemma {:induction false} U32OfS32(x: int)
    ensures U32(S32(x)) == U32(x)
  {
    Reduced(U32(x), 0, 0x1_0000_0000);
    Reduced(U32(x), -1, 0x1_0000_0000);
  }

  lemma {:induction false} U32OfInt(v: int)
    requires IsInt(v)
    ensures S32(U32(v)) == v && S32(v) == v
    ensures v >= 0 ==> U32(v) == v
  {
    Reduced(v, 1, 0x1_0000_0000);
  }

  lemma {:induction false} U32OfU32(x: int)
    ensures U32(U32(x)) == U32(x)
  {
  }

  lemma {:induction false} S32Unique(x: int, y: int)
    requires U32(x) == U32(y)
    ensures S32(x) == S32(y)
  {
  }

  lemma {:induction false} ModShift(x: int, k: int, w: int)
    requires w > 0
    ensures (x + k * w) % w == x % w
  {
    var q, r := x / w, x % w;
    assert x + k * w == (q + k) * w + r;
    DivModUnique(x + k * w, w, q + k, r);
  }

  lemma {:induction false} DivModUnique(x: int, w: int, q: int, r: int)
    requires w > 0 && x == q * w + r && 0 <= r < w
    ensures x / w == q && x % w == r
  {
    var q', r' := x / w, x % w;
    assert (q - q') * w == r' - r;
    if q > q' {
      MulAtLeast(q - q', w);
    } else if q < q' {
      assert (q' - q) * w == r - r';
      MulAtLeast(q' - q, w);
    }
  }

  lemma {:induction false} MulAtLeast(a: int, b: int)
    requires a >= 1 && b >= 0
    ensures a * b >= b
  {
  }

  /** x is its low word plus a multiple of 2^32. */
  lemma {:induction false} LowPart(x: int) returns (q: int)
    ensures x == U32(x) + q * 0x1_0000_0000
  {
    IsMod(x, 0x1_0000_0000);
    q := x / 0x1_0000_0000;
  }

  lemma {:induction false} HighPart(x: int, q: int)
    requires x == U32(x) + q * 0x1_0000_0000
    ensures (x - U32(x)) / 0x1_0000_0000 == q
  {
  }

  /** Low words are determined by low words: sums. */
  lemma {:induction false} U32Add(x: int, y: int, x': int, y': int)
    requires U32(x) == U32(x') && U32(y) == U32(y')
    ensures U32(x + y) == U32(x' + y') && U32(x - y) == U32(x' - y')
  {
    var a := LowPart(x);
    var b := LowPart(y);
    var c := LowPart(x');
    var d := LowPart(y');
    assert x + y == x' + y' + (a - c + b - d) * 0x1_0000_0000;
    assert x - y == x' - y' + (a - c - b + d) * 0x1_0000_0000;
    Reduced(x' + y', a - c + b - d, 0x1_0000_0000);
    Reduced(x' - y', a - c - b + d, 0x1_0000_0000);
  }

  /** Low words are determined by low words: products. */
  lemma {:induction false} U32Mul(x: int, y: int, x': int, y': int)
    requires U32(x) == U32(x') && U32(y) == U32(y')
    ensures U32(x * y) == U32(x' * y')
  {
    var p := LowPart(x);
    var q := LowPart(y);
    var r := LowPart(x');
    var s := LowPart(y');
    var a, b := p - r, q - s;
    MulOut(x, y, x', y', a, b);
    Reduced(x' * y, a * y, 0x1_0000_0000);
    Reduced(x' * y', x' * b, 0x1_0000_0000);
  }

  lemma {:induction false} MulOut(x: int, y: int, x': int, y': int, a: int, b: int)
    requires x == x' + a * 0x1_0000_0000 && y == y' + b * 0x1_0000_0000
    ensures x * y == x' * y + (a * y) * 0x1_0000_0000
    ensures x' * y == x' * y' + (x' * b) * 0x1_0000_0000
  {
  }

  lemma {:induction false} U32OfU64(x: int)
    ensures U32(U64(x)) == U32(x)
  {
    IsMod(x, 0x1_0000_0000_0000_0000);
    var q := x / 0x1_0000_0000_0000_0000;
    Reduced(U64(x), q * 0x1_0000_0000, 0x1_0000_0000);
  }

  lemma {:induction false} TruncDivBound(a: int, b: int)
    requires b != 0
    ensures -(if a < 0 then -a else a) <= TruncDiv(a, b) <= (if a < 0 then -a else a)
    ensures b != -1 && b != 1 && a != 0 ==> TruncDiv(a, b) != a && TruncDiv(a, b) != -a
  {
    var n := if a < 0 then -a else a;
    var d := if b < 0 then -b else b;
    DivBound(n, d);
  }

  lemma {:induction false} DivBound(n: int, d: int)
    requires n >= 0 && d >= 1
    ensures 0 <= n / d <= n
    ensures d > 1 && n > 0 ==> n / d < n
  {
    var q := n / d;
    assert n == q * d + n % d;
    if d > 1 && n > 0 && q >= n {
      assert q * d >= n * 2 by { MulMono(q, n, d, 2); }
    }
    if q > n { MulMono(q, n + 1, d, 1); }
  }

  lemma {:induction false} MulMono(a: int, b: int, c: int, d: int)
    requires a >= b >= 0 && c >= d >= 0
    ensures a * c >= b * d
  {
    assert a * c >= b * c;
    assert b * c >= b * d;
  }

  // ----- Little-endian fields -----

  /** The four bytes e4 emits: each one is the value shifted right and masked. */
  function LE4(v: int): (s: seq<Byte>)
    ensures |s| == 4
  {
    [v % 256, (v / 0x100) % 256, (v / 0x1_0000) % 256, (v / 0x100_0000) % 256]
  }

  function Join4(a: int, b: int, c: int, d: int): int
  {
    a + 0x100 * b + 0x1_0000 * c + 0x100_0000 * d
  }

  /** The signed reading of four bytes. */
  function FromLE4(s: seq<Byte>): int
    requires |s| == 4
  {
    S32(Join4(s[0], s[1], s[2], s[3]))
  }

  lemma {:induction false} LE4Sum(v: int)
    ensures Join4(v % 256, (v / 0x100) % 256, (v / 0x1_0000) % 256, (v / 0x100_0000) % 256) == U32(v)
  {
    var a := v / 0x100;
    var b := v / 0x1_0000;
    var c := v / 0x100_0000;
    assert b == a / 0x100;
    assert c == b / 0x100;
    assert v / 0x1_0000_0000 == c / 0x100;
    IsMod(v, 0x1_0000_0000);
  }

  /** Reading back what e4 wrote gives the value, for every 32-bit signed value. */
  lemma {:induction false} LE4RoundTrip(v: int)
    requires IsInt(v)
    ensures FromLE4(LE4(v)) == v
  {
    LE4Sum(v);
    U32OfInt(v);
    U32OfU32(v);
  }
}
