/** Byte buffers: little-endian fields, reads, in-place writes and a buffer that
    is filled with a running index. */
module Bytes {
  import opened Words

  function Zeros(n: nat): (s: seq<Byte>)
    ensures |s| == n && forall i :: 0 <= i < n ==> s[i] == 0
  {
    seq(n, _ => 0)
  }

  function LE2(v: int): (s: seq<Byte>)
    ensures |s| == 2
  {
    [v % 256, (v / 0x100) % 256]
  }

  /** The 64-bit field of v, low word first. */
  function LE8(v: int): (s: seq<Byte>)
    ensures |s| == 8
  {
    LE4(v) + LE4(v / 0x1_0000_0000)
  }

  function R16(s: seq<Byte>, p: int): (v: int)
    requires 0 <= p && p + 2 <= |s|
    ensures 0 <= v < 0x1_0000
  {
    Join4(s[p], s[p + 1], 0, 0)
  }

  function R32(s: seq<Byte>, p: int): (v: int)
    requires 0 <= p && p + 4 <= |s|
    ensures 0 <= v < 0x1_0000_0000
  {
    Join4(s[p], s[p + 1], s[p + 2], s[p + 3])
  }

  function R64(s: seq<Byte>, p: int): (v: int)
    requires 0 <= p && p + 8 <= |s|
    ensures 0 <= v < 0x1_0000_0000_0000_0000
  {
    R32(s, p) + 0x1_0000_0000 * R32(s, p + 4)
  }

  /** b is at position p of s. */
  predicate Sits(s: seq<Byte>, p: int, b: seq<Byte>)
  {
    0 <= p && p + |b| <= |s| && s[p..p + |b|] == b
  }

  /** s with b written at p. */
  function WriteAt(s: seq<Byte>, p: nat, b: seq<Byte>): (r: seq<Byte>)
    requires p + |b| <= |s|
    ensures |r| == |s|
  {
    s[..p] + b + s[p + |b|..]
  }

  lemma {:induction false} SitsByte(s: seq<Byte>, p: int, b: seq<Byte>, i: int)
    requires Sits(s, p, b) && 0 <= i < |b|
    ensures s[p + i] == b[i]
  {
    assert s[p..p + |b|][i] == s[p + i];
  }

  lemma {:induction false} Slices(s: seq<Byte>, p: nat, q: nat, r: nat)
    requires p <= q <= r <= |s|
    ensures s[p..r] == s[p..q] + s[q..r]
  {
  }

  lemma {:induction false} SitsParts(s: seq<Byte>, p: int, a: seq<Byte>, b: seq<Byte>)
    ensures Sits(s, p, a + b) <==> Sits(s, p, a) && Sits(s, p + |a|, b)
  {
    if Sits(s, p, a + b) {
      assert s[p..p + |a|] == s[p..p + |a + b|][..|a|];
      assert s[p + |a|..p + |a| + |b|] == s[p..p + |a + b|][|a|..];
    }
    if Sits(s, p, a) && Sits(s, p + |a|, b) {
      Slices(s, p, p + |a|, p + |a| + |b|);
    }
  }

  /** What is inside a part is inside the whole. */
  lemma {:induction false} SitsIn(s: seq<Byte>, p: int, a: seq<Byte>, q: int, b: seq<Byte>)
    requires Sits(s, p, a) && Sits(a, q, b)
    ensures Sits(s, p + q, b)
  {
    forall i | 0 <= i < |b| ensures s[p + q..p + q + |b|][i] == b[i] {
      SitsByte(a, q, b, i);
      SitsByte(s, p, a, q + i);
    }
  }

  lemma {:induction false} Read16(s: seq<Byte>, p: int, v: int)
    requires Sits(s, p, LE2(v)) && 0 <= v < 0x1_0000
    ensures R16(s, p) == v
  {
    SitsByte(s, p, LE2(v), 0); SitsByte(s, p, LE2(v), 1);
  }

  /** A 32-bit field reads back as the value modulo 2^32. */
  lemma {:induction false} Read32(s: seq<Byte>, p: int, v: int)
    requires Sits(s, p, LE4(v))
    ensures R32(s, p) == U32(v)
  {
    SitsByte(s, p, LE4(v), 0); SitsByte(s, p, LE4(v), 1); SitsByte(s, p, LE4(v), 2); SitsByte(s, p, LE4(v), 3);
    LE4Sum(v);
  }

  /** A 64-bit field reads back as the value modulo 2^64. */
  lemma {:induction false} Read64(s: seq<Byte>, p: int, v: int)
    requires Sits(s, p, LE8(v))
    ensures R64(s, p) == v % 0x1_0000_0000_0000_0000
  {
    hide LE4, R32, U32;
    var h := v / 0x1_0000_0000;
    SitsParts(s, p, LE4(v), LE4(h));
    Read32(s, p, v); Read32(s, p + 4, h);
    IsMod32(v); IsMod32(h);
    SplitWord(v);
  }

  lemma {:induction false} IsMod32(v: int)
    ensures U32(v) == v % 0x1_0000_0000
  {
    IsMod(v, 0x1_0000_0000);
  }

  lemma {:induction false} SplitWord(v: int)
    ensures v % 0x1_0000_0000_0000_0000 == v % 0x1_0000_0000 + 0x1_0000_0000 * ((v / 0x1_0000_0000) % 0x1_0000_0000)
  {
    var h := v / 0x1_0000_0000;
    var q, r := h / 0x1_0000_0000, h % 0x1_0000_0000;
    assert v == q * 0x1_0000_0000_0000_0000 + (r * 0x1_0000_0000 + v % 0x1_0000_0000);
    DivModUnique(v, 0x1_0000_0000_0000_0000, q, r * 0x1_0000_0000 + v % 0x1_0000_0000);
  }

  lemma {:induction false} WrittenAt(s: seq<Byte>, p: nat, b: seq<Byte>)
    requires p + |b| <= |s|
    ensures Sits(WriteAt(s, p, b), p, b)
    ensures forall i :: 0 <= i < |s| && !(p <= i < p + |b|) ==> WriteAt(s, p, b)[i] == s[i]
  {
    var r := WriteAt(s, p, b);
    assert r[p..p + |b|] == b;
  }

  lemma {:induction false} WrittenElsewhere(s: seq<Byte>, p: nat, b: seq<Byte>, q: int, a: seq<Byte>)
    requires p + |b| <= |s| && Sits(s, q, a) && (q + |a| <= p || p + |b| <= q)
    ensures Sits(WriteAt(s, p, b), q, a)
  {
    var r := WriteAt(s, p, b);
    WrittenAt(s, p, b);
    forall i | 0 <= i < |a| ensures r[q..q + |a|][i] == a[i] {
      SitsByte(s, q, a, i);
    }
  }

  lemma {:induction false} SitsBetween(a: seq<Byte>, b: seq<Byte>, c: seq<Byte>)
    ensures Sits(a + b + c, |a|, b)
  {
    assert (a + b + c)[|a|..|a| + |b|] == b;
  }

  // ----- Filling a file with a running index -----

  lemma {:induction false} PutAt(pre: seq<Byte>, b: seq<Byte>, n: nat)
    requires |b| <= n
    ensures WriteAt(pre + Zeros(n), |pre|, b) == pre + b + Zeros(n - |b|)
  {
  }

  lemma {:induction false} SkipZeros(pre: seq<Byte>, k: nat, n: nat)
    ensures pre + Zeros(k + n) == pre + Zeros(k) + Zeros(n)
  {
  }

  /** b goes behind what has been written. */
  method Put(buf: array<Byte>, p: nat, b: seq<Byte>, ghost pre: seq<Byte>) returns (q: nat)
    requires p == |pre| && p + |b| <= buf.Length && buf[..] == pre + Zeros(buf.Length - p)
    modifies buf
    ensures q == p + |b| && buf[..] == pre + b + Zeros(buf.Length - q)
  {
    PutAt(pre, b, buf.Length - p);
    var j := 0;
    while j < |b|
      invariant 0 <= j <= |b| && buf[..] == WriteAt(old(buf[..]), p, b[..j])
    {
      buf[p + j] := b[j];
      j := j + 1;
    }
    assert b[..j] == b;
    q := p + |b|;
  }

  /** The same for a field of a record that starts after base. */
  method PutField(buf: array<Byte>, p: nat, b: seq<Byte>, ghost base: seq<Byte>, ghost pre: seq<Byte>) returns (q: nat)
    requires p == |base| + |pre| && p + |b| <= buf.Length && buf[..] == base + pre + Zeros(buf.Length - p)
    modifies buf
    ensures q == p + |b| && buf[..] == base + (pre + b) + Zeros(buf.Length - q)
  {
    q := Put(buf, p, b, base + pre);
    assert base + pre + b == base + (pre + b);
  }
}
