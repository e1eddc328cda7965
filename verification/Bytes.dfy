/** Bytes and the little-endian images of fixed-width integers. */
module Bytes {
  import opened WordArithmetic

  type Byte = b: nat | b < 0x100
  type Int8 = n: int | -0x80 <= n < 0x80
  type Int64 = n: int | -0x8000_0000_0000_0000 <= n < 0x8000_0000_0000_0000
  type UInt16 = n: nat | n < 0x1_0000
  type UInt32 = n: nat | n < 0x1_0000_0000
  type UInt64 = n: nat | n < 0x1_0000_0000_0000_0000

  /** 256^k */
  function Range(k: nat): (r: nat)
    ensures r > 0
  {
    if k == 0 then 1 else 0x100 * Range(k - 1)
  }

  lemma Ranges()
    ensures Range(1) == 0x100 && Range(2) == 0x1_0000 && Range(4) == 0x1_0000_0000
    ensures Range(8) == 0x1_0000_0000_0000_0000
  {
    assert Range(1) == 0x100 && Range(2) == 0x1_0000 && Range(3) == 0x100_0000;
    assert Range(4) == 0x1_0000_0000 && Range(5) == 0x100_0000_0000;
  }

  /** The k bytes a k-byte integer holding n has in memory; a negative n is stored in two's complement. */
  function Little(n: int, k: nat): (s: seq<Byte>)
    ensures |s| == k
    decreases k
  {
    if k == 0 then [] else [n % 0x100] + Little(n / 0x100, k - 1)
  }

  function FromLittle(s: seq<Byte>): nat {
    if s == [] then 0 else s[0] + 0x100 * FromLittle(s[1..])
  }

  /** The k-byte signed integer with the memory image of n. */
  function AsSigned(n: int, k: nat): (r: int)
    ensures 0 - Range(k) <= 2 * r < Range(k)
  {
    var w := n % Range(k);
    if 2 * w < Range(k) then w else w - Range(k)
  }

  function AsInt8(n: int): Int8 {
    Ranges();
    AsSigned(n, 1)
  }

  lemma AsInt32IsSigned(n: int)
    ensures AsInt32(n) == AsSigned(n, 4)
  {
    Ranges();
  }

  function AsInt64(n: int): Int64 {
    Ranges();
    AsSigned(n, 8)
  }

  lemma ResidueStep(n: int, m: nat)
    requires m > 0
    ensures n % 0x100 + 0x100 * (n / 0x100 % m) == n % (0x100 * m)
  {
    var q, d := n / 0x100 / m, n % 0x100 + 0x100 * (n / 0x100 % m);
    assert n == q * (0x100 * m) + d;
    assert 0 <= d < 0x100 * m;
    QuotientUnique(n, 0x100 * m, q, d);
  }

  lemma QuotientUnique(n: int, m: nat, q: int, d: int)
    requires m > 0 && n == q * m + d && 0 <= d < m
    ensures n % m == d
  {
    var e := n / m - q;
    assert n % m == d - e * m;
    assert (e >= 1 ==> e * m >= m) && (e <= -1 ==> e * m <= 0 - m);
  }

  lemma {:induction false} LittleRoundTrip(n: int, k: nat)
    ensures FromLittle(Little(n, k)) == n % Range(k)
    decreases k
  {
    if k == 0 {
    } else {
      LittleRoundTrip(n / 0x100, k - 1);
      ResidueStep(n, Range(k - 1));
    }
  }

  lemma {:induction false} FromLittleRoundTrip(s: seq<Byte>)
    ensures FromLittle(s) < Range(|s|) && Little(FromLittle(s), |s|) == s
  {
    if s == [] {
    } else {
      FromLittleRoundTrip(s[1..]);
    }
  }

  /** A signed integer that fits its width survives being stored. */
  lemma SignedRoundTrip(v: int, k: nat)
    requires 0 - Range(k) <= 2 * v < Range(k)
    ensures AsSigned(FromLittle(Little(v, k)), k) == v
  {
    LittleRoundTrip(v, k);
    var m := Range(k);
    QuotientUnique(v, m, if v < 0 then -1 else 0, if v < 0 then v + m else v);
    QuotientUnique(v % m, m, 0, v % m);
  }

  lemma UnsignedRoundTrip(v: nat, k: nat)
    requires v < Range(k)
    ensures FromLittle(Little(v, k)) == v
  {
    LittleRoundTrip(v, k);
    QuotientUnique(v, Range(k), 0, v);
  }
}
