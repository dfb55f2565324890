/** Fixed-width unsigned integers and their byte encodings. */
module Bytes {
  type U8 = x: int | 0 <= x < 0x100
  type U16 = x: int | 0 <= x < 0x1_0000
  type U32 = x: int | 0 <= x < 0x1_0000_0000

  /** 256 to the n-th power. */
  function Pow256(n: nat): (p: nat)
    ensures p > 0
  {
    if n == 0 then 1 else 256 * Pow256(n - 1)
  }

  /** The n low-order bytes of v, most significant first. */
  function BigEndian(v: nat, n: nat): (b: seq<U8>)
    ensures |b| == n
  {
    if n == 0 then [] else BigEndian(v / 256, n - 1) + [v % 256]
  }

  /** The number whose bytes, most significant first, are b. */
  function FromBigEndian(b: seq<U8>): (v: nat)
  {
    if b == [] then 0 else FromBigEndian(b[..|b| - 1]) * 256 + b[|b| - 1]
  }

  /** The n low-order bytes of v, least significant first. */
  function LittleEndian(v: nat, n: nat): (b: seq<U8>)
    ensures |b| == n
  {
    if n == 0 then [] else [v % 256] + LittleEndian(v / 256, n - 1)
  }

  /** The number whose bytes, least significant first, are b. */
  function FromLittleEndian(b: seq<U8>): (v: nat)
  {
    if b == [] then 0 else b[0] + 256 * FromLittleEndian(b[1..])
  }

  lemma OneByte(b: seq<U8>)
    requires |b| == 1
    ensures FromBigEndian(b) == b[0]
  {
    assert FromBigEndian(b[..0]) == 0;
  }

  lemma {:induction false} BigEndianBound(b: seq<U8>)
    ensures FromBigEndian(b) < Pow256(|b|)
  {
    if b == [] {
    } else {
      BigEndianBound(b[..|b| - 1]);
    }
  }

  lemma {:induction false} DecodeBigEndian(v: nat, n: nat)
    requires v < Pow256(n)
    ensures FromBigEndian(BigEndian(v, n)) == v
  {
    if n == 0 {
    } else {
      DecodeBigEndian(v / 256, n - 1);
      assert BigEndian(v, n)[..n - 1] == BigEndian(v / 256, n - 1);
    }
  }

  lemma {:induction false} EncodeBigEndian(b: seq<U8>)
    ensures BigEndian(FromBigEndian(b), |b|) == b
  {
    if b == [] {
    } else {
      EncodeBigEndian(b[..|b| - 1]);
    }
  }

  lemma {:induction false} DecodeLittleEndian(v: nat, n: nat)
    requires v < Pow256(n)
    ensures FromLittleEndian(LittleEndian(v, n)) == v
  {
    if n == 0 {
    } else {
      DecodeLittleEndian(v / 256, n - 1);
      assert LittleEndian(v, n)[1..] == LittleEndian(v / 256, n - 1);
    }
  }

  /** The bytes of 16 and of 32 bits. */
  lemma LittleEndianBytes(v: nat)
    ensures LittleEndian(v, 2) == [v % 0x100, v / 0x100 % 0x100]
    ensures LittleEndian(v, 4) == [v % 0x100, v / 0x100 % 0x100, v / 0x1_0000 % 0x100, v / 0x100_0000 % 0x100]
  {
    var a, b := v / 0x100, v / 0x1_0000;
    assert a / 0x100 == b && b / 0x100 == v / 0x100_0000;
    assert LittleEndian(b, 2) == [b % 0x100] + LittleEndian(v / 0x100_0000, 1);
    assert LittleEndian(a, 1) == [a % 0x100] + LittleEndian(b, 0);
    assert LittleEndian(a, 3) == [a % 0x100] + LittleEndian(b, 2);
  }

  lemma BigEndianBytes(v: nat)
    ensures BigEndian(v, 2) == [v / 0x100 % 0x100, v % 0x100]
    ensures BigEndian(v, 4) == [v / 0x100_0000 % 0x100, v / 0x1_0000 % 0x100, v / 0x100 % 0x100, v % 0x100]
  {
    var a, b := v / 0x100, v / 0x1_0000;
    assert a / 0x100 == b && b / 0x100 == v / 0x100_0000;
    assert BigEndian(b, 2) == BigEndian(v / 0x100_0000, 1) + [b % 0x100];
    assert BigEndian(a, 1) == BigEndian(b, 0) + [a % 0x100];
    assert BigEndian(a, 3) == BigEndian(b, 2) + [a % 0x100];
  }

  /** The number of two bytes. */
  function Pair(high: U8, low: U8): U16
  {
    high as int * 0x100 + low
  }

  /** v shifted right by k whole bytes. */
  function ShiftRight(v: nat, k: nat): (r: nat)
  {
    if k == 0 then v else ShiftRight(v / 256, k - 1)
  }

  /** Byte k of v, counted from its low end. */
  lemma {:induction false} BigEndianByte(v: nat, n: nat, k: nat)
    requires k < n
    ensures BigEndian(v, n)[n - 1 - k] == ShiftRight(v, k) % 256
  {
    if k == 0 {
    } else {
      BigEndianByte(v / 256, n - 1, k - 1);
    }
  }
}
