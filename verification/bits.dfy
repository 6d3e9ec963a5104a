/**
  Machine integer widths used by the walker and the byte-level reinterpretation
  `UlongToLong` (BitConverter.GetBytes followed by BitConverter.ToInt64).
 */
module Bits {

  const TWO_8: int := 0x100
  const TWO_16: int := 0x1_0000
  const TWO_31: int := 0x8000_0000
  const TWO_32: int := 0x1_0000_0000
  const TWO_63: int := 0x8000_0000_0000_0000
  const TWO_64: int := 0x1_0000_0000_0000_0000

  type uint8 = x: int | 0 <= x < TWO_8
  type uint16 = x: int | 0 <= x < TWO_16

  /**
    A .NET string as its UTF-16 code units: what `String.Length` and a
    StringBuilder's capacity count. A character outside the Basic Multilingual
    Plane is two units (a surrogate pair).
   */
  type Utf16 = seq<uint16>
  type uint32 = x: int | 0 <= x < TWO_32
  type uint64 = x: int | 0 <= x < TWO_64
  type int64 = x: int | -TWO_63 <= x < TWO_63

  /** 256 to the power k. */
  function Pow256(k: nat): (p: nat)
    ensures p >= 1
  {
    if k == 0 then 1 else 256 * Pow256(k - 1)
  }

  /** Euclidean division is unique: the quotient and remainder are determined. */
  lemma DivModUnique(x: int, m: int, q: int, r: int)
    requires m > 0 && 0 <= r < m && x == m * q + r
    ensures x / m == q && x % m == r
  {
    var q', r' := x / m, x % m;
    assert x == m * q' + r';
    if q' > q {
      assert m * (q' - q) >= m by { MulAtLeast(m, q' - q); }
      assert false;
    } else if q' < q {
      assert m * (q - q') >= m by { MulAtLeast(m, q - q'); }
      assert false;
    }
  }

  lemma MulAtLeast(m: int, d: int)
    requires m > 0 && d >= 1
    ensures m * d >= m
  {
  }

  /** The k least-significant bytes of n, least significant first. */
  function LeBytes(n: nat, k: nat): (bs: seq<uint8>)
    ensures |bs| == k
  {
    if k == 0 then [] else [n % 256] + LeBytes(n / 256, k - 1)
  }

  /** Unsigned little-endian value of a byte sequence. */
  function LeValue(bs: seq<uint8>): (v: nat)
    ensures v < Pow256(|bs|)
  {
    if |bs| == 0 then 0 else bs[0] + 256 * LeValue(bs[1..])
  }

  /** Reading back k little-endian bytes yields n modulo 256^k. */
  lemma {:induction false} LeRoundTrip(n: nat, k: nat)
    ensures LeValue(LeBytes(n, k)) == n % Pow256(k)
  {
    if k == 0 {
      assert n % 1 == 0;
    } else {
      var bs := LeBytes(n, k);
      assert bs[1..] == LeBytes(n / 256, k - 1);
      LeRoundTrip(n / 256, k - 1);
      ModSplit(n, Pow256(k - 1));
    }
  }

  /** The lowest byte and the remaining bytes of n modulo 256 * p. */
  lemma ModSplit(n: nat, p: nat)
    requires p > 0
    ensures n % (256 * p) == n % 256 + 256 * ((n / 256) % p)
  {
    var low, rest, q := n % 256, (n / 256) % p, (n / 256) / p;
    assert n == 256 * (n / 256) + low;
    assert n / 256 == p * q + rest;
    assert n == (256 * p) * q + (low + 256 * rest);
    assert 256 * rest <= 256 * (p - 1);
    DivModUnique(n, 256 * p, q, low + 256 * rest);
  }


  /** BitConverter.GetBytes(ulong): the eight bytes of n, little-endian. */
  function GetBytes(n: uint64): (bs: seq<uint8>)
    ensures |bs| == 8
  {
    LeBytes(n, 8)
  }

  /** Eight bytes hold exactly 64 bits. */
  lemma Pow256Eight()
    ensures Pow256(8) == TWO_64
  {
    assert Pow256(2) == TWO_16;
    assert Pow256(4) == TWO_32 by {
      assert Pow256(4) == 256 * (256 * Pow256(2));
    }
    assert Pow256(8) == TWO_32 * TWO_32 by {
      assert Pow256(8) == 256 * (256 * (256 * (256 * Pow256(4))));
    }
  }

  /**
    BitConverter.ToInt64(bytes, start): the eight bytes at `start`, read
    little-endian and interpreted in two's complement.
   */
  function ToInt64(bs: seq<uint8>, start: nat): (r: int64)
    requires start + 8 <= |bs|
    ensures r >= 0 <==> LeValue(bs[start..start + 8]) < TWO_63
    ensures r % TWO_64 == LeValue(bs[start..start + 8])
  {
    var u := LeValue(bs[start..start + 8]);
    Pow256Eight();
    if u < TWO_63 then u else u - TWO_64
  }

  /** The bytes of n read back from offset 0 are n in two's complement. */
  lemma BytesRoundTrip(n: uint64)
    ensures LeValue(GetBytes(n)[0..8]) == n
  {
    var bs := GetBytes(n);
    assert bs[0..8] == bs;
    LeRoundTrip(n, 8);
    Pow256Eight();
  }

  /**
    UlongToLong: reinterprets the 64 bits of n as a signed value by a byte
    round trip; it is the two's-complement reading of n.
   */
  function UlongToLong(n: uint64): (r: int64)
    ensures n < TWO_63 ==> r == n
    ensures n >= TWO_63 ==> r == n - TWO_64
    ensures r % TWO_64 == n
  {
    BytesRoundTrip(n);
    ToInt64(GetBytes(n), 0)
  }

  /** An unchecked C# cast from uint to int: the two's-complement reading of 32 bits. */
  function ToInt32(n: uint32): (v: int)
    ensures -0x8000_0000 <= v < 0x8000_0000
    ensures v % TWO_32 == n
  {
    if n < 0x8000_0000 then n else n - TWO_32
  }

  /** The inverse reinterpretation, from a signed value back to its 64 bits. */
  function LongToUlong(v: int64): (n: uint64)
    ensures v >= 0 ==> n == v
    ensures v < 0 ==> n == v + TWO_64
  {
    if v >= 0 then v else v + TWO_64
  }

  /** Reinterpreting back gives the original unsigned value. */
  lemma UlongToLongRoundTrip(n: uint64)
    ensures LongToUlong(UlongToLong(n)) == n
  {
  }

  /** Every signed value is the reinterpretation of exactly one unsigned value. */
  lemma LongToUlongRoundTrip(v: int64)
    ensures UlongToLong(LongToUlong(v)) == v
  {
  }
}
