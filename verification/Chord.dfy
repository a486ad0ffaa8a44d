/**
 The identifier ring of the distributed hash table: 160-bit identifiers as big-endian
 byte strings, the circular intervals between them, and finger identifiers.
 */
module ChordRing {
  import opened RingArithmetic

  // ---------- Identifiers as numbers ----------

  type Byte = x: nat | x < 256

  function Pow2(k: nat): (r: nat)
    ensures r > 0
  {
    if k == 0 then 1 else 2 * Pow2(k - 1)
  }

  ghost function Pow256(k: nat): (r: nat)
    ensures r > 0
  {
    if k == 0 then 1 else 256 * Pow256(k - 1)
  }

  lemma {:induction false} Pow2Sum(a: nat, b: nat)
    ensures Pow2(a + b) == Pow2(a) * Pow2(b)
  {
    if a > 0 {
      Pow2Sum(a - 1, b);
      assert 2 * Pow2(a - 1) * Pow2(b) == 2 * (Pow2(a - 1) * Pow2(b));
    }
  }

  lemma {:induction false} Pow256IsPow2(k: nat)
    ensures Pow256(k) == Pow2(8 * k)
  {
    if k > 0 {
      Pow256IsPow2(k - 1);
      Pow2Sum(8, 8 * (k - 1));
      assert Pow2(8) == 256 by {
        assert Pow2(4) == 16;
        Pow2Sum(4, 4);
      }
    }
  }

  /** The number that a big-endian byte string denotes. */
  ghost function Val(s: seq<Byte>): nat {
    if s == [] then 0 else s[0] * Pow256(|s| - 1) + Val(s[1..])
  }

  lemma {:induction false} ValBound(s: seq<Byte>)
    ensures Val(s) < Pow256(|s|)
  {
    if s != [] {
      ValBound(s[1..]);
      ByteTimes(s[0], Pow256(|s| - 1));
    }
  }

  lemma ByteTimes(b: Byte, p: nat)
    ensures b * p + p <= 256 * p
  {
    assert (b + 1) * p <= 256 * p;
  }

  /** memcmp */
  function Memcmp(a: seq<Byte>, b: seq<Byte>): int
    requires |a| == |b|
  {
    if a == [] then 0 else if a[0] != b[0] then a[0] - b[0] else Memcmp(a[1..], b[1..])
  }

  /** Comparing bytes is comparing numbers. */
  lemma {:induction false} MemcmpCompares(a: seq<Byte>, b: seq<Byte>)
    requires |a| == |b|
    ensures Memcmp(a, b) < 0 <==> Val(a) < Val(b)
    ensures Memcmp(a, b) == 0 <==> Val(a) == Val(b)
    ensures Memcmp(a, b) == 0 ==> a == b
  {
    if a != [] {
      MemcmpCompares(a[1..], b[1..]);
      ValBound(a[1..]);
      ValBound(b[1..]);
      FirstByteDecides(a[0], b[0], Pow256(|a| - 1), Val(a[1..]), Val(b[1..]));
      assert a == [a[0]] + a[1..] && b == [b[0]] + b[1..];
    }
  }

  lemma FirstByteDecides(x: nat, y: nat, p: nat, u: nat, v: nat)
    requires u < p && v < p
    ensures x < y ==> x * p + u < y * p + v
    ensures y < x ==> y * p + v < x * p + u
  {
    if x < y { assert (x + 1) * p <= y * p; }
    if y < x { assert (y + 1) * p <= x * p; }
  }

  // ---------- Circular intervals ----------

  /** How far it is clockwise from a to b on a ring of m. */
  function Dist(a: int, b: int, m: int): int {
    if a <= b then b - a else b - a + m
  }

  /** How long the open interval from a to b is: all the way round if they are equal. */
  function Span(a: int, b: int, m: int): int {
    if a == b then m else Dist(a, b, m)
  }

  /** x lies strictly inside the clockwise arc from lo to hi. */
  predicate InArc(x: int, lo: int, hi: int, m: int) {
    0 < Dist(lo, x, m) < Span(lo, hi, m)
  }

  /** in_range, on byte strings. */
  predicate InRange(n: seq<Byte>, lower: seq<Byte>, upper: seq<Byte>)
    requires |n| == |lower| == |upper|
  {
    if Memcmp(lower, upper) < 0
    then Memcmp(lower, n) < 0 && Memcmp(n, upper) < 0
    else Memcmp(lower, n) < 0 || Memcmp(n, upper) < 0
  }

  /** in_range is the open clockwise arc, whether or not it crosses zero and also when its
      two ends are equal. */
  lemma InRangeIsArc(n: seq<Byte>, lower: seq<Byte>, upper: seq<Byte>)
    requires |n| == |lower| == |upper|
    ensures InRange(n, lower, upper) <==> InArc(Val(n), Val(lower), Val(upper), Pow256(|n|))
  {
    MemcmpCompares(lower, upper);
    MemcmpCompares(lower, n);
    MemcmpCompares(n, upper);
    ValBound(n);
    ValBound(lower);
    ValBound(upper);
  }

  // ---------- Finger identifiers ----------

  /** The place that finger i of node n is to point to. */
  function FingerId(n: nat, i: nat, m: nat): nat
    requires i >= 1 && m > 0
  {
    (n + Pow2(i - 1)) % m
  }

  /** get_finger_id: adds 2^(i-1) byte by byte, from the last to the first. */
  method GetFingerId(dst: array<Byte>, n: seq<Byte>, i: nat)
    requires dst.Length == |n| && 1 <= i <= 8 * |n|
    modifies dst
    ensures Val(dst[..]) == FingerId(Val(n), i, Pow256(|n|))
  {
    var carry: nat := 0;
    var shift := i - 1;
    var j := |n|;
    while j > 0
      invariant 0 <= j <= |n| && carry <= 1
      invariant Val(dst[j..]) + carry * Pow256(|n| - j) == Val(n[j..]) + Addend(shift, |n| - j)
    {
      j := j - 1;
      ghost var below, c := dst[j + 1..], carry;
      var d: nat := carry;
      if |n| - 1 - shift / 8 == j {
        d := d + ByteOf(shift % 8);
      }
      carry := if n[j] >= 256 - d then 1 else 0;
      dst[j] := (d + n[j]) % 256;
      assert dst[j + 1..] == below;
      ByteStep(dst[j..], n[j..], c, carry, d - c, shift);
    }
    assert dst[0..] == dst[..] && n[0..] == n;
    Reduce(Val(dst[..]), carry, Val(n) + Pow2(shift), dst[..]);
  }

  /** 1 << k */
  function ByteOf(k: nat): (b: Byte)
    requires k < 8
  {
    if k == 0 then 1 else if k == 1 then 2 else if k == 2 then 4 else if k == 3 then 8
    else if k == 4 then 16 else if k == 5 then 32 else if k == 6 then 64 else 128
  }

  /** What has been added once `len` bytes are done. */
  ghost function Addend(shift: nat, len: nat): nat {
    if shift < 8 * len then Pow2(shift) else 0
  }

  /** One byte of the addition, with the carry from below and to above. */
  lemma ByteStep(d: seq<Byte>, n: seq<Byte>, c: nat, c': nat, bit: nat, shift: nat)
    requires |d| == |n| > 0 && c <= 1
    requires bit == if shift / 8 == |n| - 1 then ByteOf(shift % 8) else 0
    requires c' == (if n[0] >= 256 - (c + bit) then 1 else 0) && d[0] == (c + bit + n[0]) % 256
    requires Val(d[1..]) + c * Pow256(|n| - 1) == Val(n[1..]) + Addend(shift, |n| - 1)
    ensures Val(d) + c' * Pow256(|n|) == Val(n) + Addend(shift, |n|)
  {
    var p := Pow256(|n| - 1);
    assert d[0] + 256 * c' == c + bit + n[0];
    assert bit * p == Addend(shift, |n|) - Addend(shift, |n| - 1) by { BitValue(shift, |n|); }
    Distribute(d[0], c', c, bit, n[0], p);
  }

  lemma Distribute(d: nat, c': nat, c: nat, bit: nat, n: nat, p: nat)
    requires d + 256 * c' == c + bit + n
    ensures d * p + c' * (256 * p) == c * p + bit * p + n * p
  {
    assert (d + 256 * c') * p == (c + bit + n) * p;
  }

  lemma BitValue(shift: nat, len: nat)
    requires len > 0
    ensures (if shift / 8 == len - 1 then ByteOf(shift % 8) else 0) * Pow256(len - 1)
            == Addend(shift, len) - Addend(shift, len - 1)
  {
    if shift / 8 == len - 1 {
      Pow256IsPow2(len - 1);
      Pow2Sum(shift % 8, 8 * (len - 1));
      ByteIsPow2(shift % 8);
    }
  }

  lemma ByteIsPow2(k: nat)
    requires k < 8
    ensures ByteOf(k) == Pow2(k)
  {
    assert Pow2(1) == 2 && Pow2(2) == 4 && Pow2(3) == 8;
    assert Pow2(4) == 2 * Pow2(3) && Pow2(5) == 2 * Pow2(4) && Pow2(6) == 2 * Pow2(5) && Pow2(7) == 2 * Pow2(6);
  }

  /** The carry out of the first byte is dropped: that is the reduction modulo 2^160. */
  lemma Reduce(v: nat, carry: nat, sum: nat, d: seq<Byte>)
    requires carry <= 1 && v == Val(d) && v + carry * Pow256(|d|) == sum
    ensures v == sum % Pow256(|d|)
  {
    ValBound(d);
    ModStep(v, Pow256(|d|));
    if carry == 0 { assert carry * Pow256(|d|) == 0; }
    SmallModulo(v, Pow256(|d|));
  }
}
