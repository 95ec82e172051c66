/**
 * Little-endian two's-complement byte strings, as produced by
 * BitConverter.GetBytes and read back by BitConverter.ToInt16/ToInt32/ToInt64.
 */
module Bytes {

  newtype byte = x: int | 0 <= x < 256

  function Pow256(n: nat): (p: int)
    ensures p >= 1
  {
    if n == 0 then 1 else 256 * Pow256(n - 1)
  }

  /** The unsigned value of a byte string, least significant byte first. */
  function Unsigned(bs: seq<byte>): (v: nat)
    ensures v < Pow256(|bs|)
  {
    if bs == [] then 0 else bs[0] as nat + 256 * Unsigned(bs[1..])
  }

  /** The two's-complement value of a non-empty byte string, least significant byte first. */
  function Signed(bs: seq<byte>): (v: int)
    requires |bs| > 0
    ensures -Pow256(|bs|) / 2 <= v < Pow256(|bs|) / 2
  {
    var u := Unsigned(bs);
    if u < Pow256(|bs|) / 2 then u else u - Pow256(|bs|)
  }

  /** The `n` low-order bytes of `v` in two's complement, least significant first. */
  function LittleEndian(v: int, n: nat): (bs: seq<byte>)
    ensures |bs| == n
    decreases n
  {
    if n == 0 then [] else [(v % 256) as byte] + LittleEndian(v / 256, n - 1)
  }

  /** A remainder is the unique value in range that differs from `v` by a multiple. */
  lemma ModUnique(v: int, d: int, k: int, x: int)
    requires d > 0 && v == d * k + x && 0 <= x < d
    ensures v % d == x
  {
    var k', x' := v / d, v % d;
    var t := k' - k;
    assert d * k' + x' == d * k + x;
    assert d * t == x - x' by {
      assert d * k' == d * (k + t) == d * k + d * t;
    }
    if t >= 1 {
      MulAtLeast(d, t);
    } else if t <= -1 {
      MulAtLeast(d, -t);
    }
  }

  lemma MulAtLeast(d: int, t: int)
    requires d > 0 && t >= 1
    ensures d * t >= d
  {
    assert d * t == d * (t - 1) + d;
  }

  lemma ModSplit(v: int, p: int)
    requires p >= 1
    ensures v % 256 + 256 * ((v / 256) % p) == v % (256 * p)
  {
    var q, r := v / 256, v % 256;
    var k, m := q / p, q % p;
    assert q == p * k + m;
    assert 256 * q == (256 * p) * k + 256 * m;
    assert 0 <= r + 256 * m < 256 * p;
    ModUnique(v, 256 * p, k, r + 256 * m);
  }

  /** Encoding `v` into `n` bytes keeps it modulo 256^n. */
  lemma {:induction false} UnsignedOfLittleEndian(v: int, n: nat)
    ensures Unsigned(LittleEndian(v, n)) == v % Pow256(n)
    decreases n
  {
    if n > 0 {
      var bs := LittleEndian(v, n);
      assert bs[1..] == LittleEndian(v / 256, n - 1);
      UnsignedOfLittleEndian(v / 256, n - 1);
      ModSplit(v, Pow256(n - 1));
    }
  }

  /** Decoding an encoded in-range value gives it back, for both readings. */
  lemma LittleEndianRoundTrip(v: int, n: nat)
    ensures 0 <= v < Pow256(n) ==> Unsigned(LittleEndian(v, n)) == v
    ensures n > 0 && -Pow256(n) / 2 <= v < Pow256(n) / 2 ==> Signed(LittleEndian(v, n)) == v
  {
    UnsignedOfLittleEndian(v, n);
    if 0 <= v < Pow256(n) {
      ModUnique(v, Pow256(n), 0, v);
    }
    if n > 0 && -Pow256(n) / 2 <= v < 0 {
      ModUnique(v, Pow256(n), -1, v + Pow256(n));
    }
  }
}
