/** Bytes, bit strings and big-endian numbers: the vocabulary in which FIPS 180-2 and
    RFC 4648 state their formats.  Bit strings are most significant bit first. */
module Bits {

  function BitsOfByte(b: bv8): (r: seq<bool>)
    ensures |r| == 8
  {
    [b & 0x80 != 0, b & 0x40 != 0, b & 0x20 != 0, b & 0x10 != 0,
     b & 0x08 != 0, b & 0x04 != 0, b & 0x02 != 0, b & 0x01 != 0]
  }

  function ByteOfBits(r: seq<bool>): bv8
    requires |r| == 8
  {
    (if r[0] then 0x80 else 0) | (if r[1] then 0x40 else 0) | (if r[2] then 0x20 else 0) | (if r[3] then 0x10 else 0) |
    (if r[4] then 0x08 else 0) | (if r[5] then 0x04 else 0) | (if r[6] then 0x02 else 0) | (if r[7] then 0x01 else 0)
  }

  lemma ByteBitsByte(b: bv8)
    ensures ByteOfBits(BitsOfByte(b)) == b
  {
  }

  lemma BitsByteBits(r: seq<bool>)
    requires |r| == 8
    ensures BitsOfByte(ByteOfBits(r)) == r
  {
  }

  function ToBits(s: seq<bv8>): (r: seq<bool>)
    ensures |r| == 8 * |s|
  {
    if s == [] then [] else ToBits(s[..|s| - 1]) + BitsOfByte(s[|s| - 1])
  }

  function ToBytes(r: seq<bool>): (s: seq<bv8>)
    requires |r| % 8 == 0
    ensures |s| == |r| / 8
  {
    if r == [] then [] else ToBytes(r[..|r| - 8]) + [ByteOfBits(r[|r| - 8..])]
  }

  lemma {:induction false} BytesBitsBytes(s: seq<bv8>)
    ensures ToBytes(ToBits(s)) == s
  {
    hide BitsOfByte, ByteOfBits;
    if s != [] {
      var front, last := s[..|s| - 1], s[|s| - 1];
      BytesBitsBytes(front);
      ByteBitsByte(last);
      assert ToBits(s)[..|ToBits(s)| - 8] == ToBits(front);
      assert ToBits(s)[|ToBits(s)| - 8..] == BitsOfByte(last);
    }
  }

  lemma {:induction false} ToBitsConcat(a: seq<bv8>, b: seq<bv8>)
    ensures ToBits(a + b) == ToBits(a) + ToBits(b)
  {
    hide BitsOfByte;
    if b == [] {
      assert a + b == a;
    } else {
      var front := b[..|b| - 1];
      ToBitsConcat(a, front);
      assert (a + b)[..|a + b| - 1] == a + front;
      assert (a + b)[|a + b| - 1] == b[|b| - 1];
    }
  }

  // ---- repeated elements ----

  function Fill<T>(x: T, n: nat): (r: seq<T>)
    ensures |r| == n && forall i :: 0 <= i < n ==> r[i] == x
  {
    seq(n, _ => x)
  }

  lemma {:induction false} ZeroBytesBits(n: nat)
    ensures ToBits(Fill(0, n)) == Fill(false, 8 * n)
  {
    if n > 0 {
      ZeroBytesBits(n - 1);
      var z: seq<bv8> := Fill(0, n);
      assert z[..n - 1] == Fill(0, n - 1);
    }
  }

  // ---- big-endian numbers ----

  /** The low w binary digits of n. */
  function NatBits(n: nat, w: nat): (r: seq<bool>)
    ensures |r| == w
  {
    if w == 0 then [] else NatBits(n / 2, w - 1) + [n % 2 == 1]
  }

  /** The number that a bit string writes, most significant bit first. */
  function Binary(r: seq<bool>): nat {
    if r == [] then 0 else 2 * Binary(r[..|r| - 1]) + if r[|r| - 1] then 1 else 0
  }

  function PowerOf2(w: nat): nat {
    if w == 0 then 1 else 2 * PowerOf2(w - 1)
  }

  /** The digits denote the number, if there are enough. */
  lemma {:induction false} NatBitsNumber(n: nat, w: nat)
    requires n < PowerOf2(w)
    ensures Binary(NatBits(n, w)) == n
  {
    if w > 0 {
      NatBitsNumber(n / 2, w - 1);
      assert NatBits(n, w)[..w - 1] == NatBits(n / 2, w - 1);
    }
  }

  /** The (uint8_t) cast: the byte with the low eight binary digits of n. */
  function LowByte(n: nat): bv8 {
    ByteOfBits(NatBits(n, 8))
  }

  /** The low k bytes of n, most significant first. */
  function NatBytes(n: nat, k: nat): (r: seq<bv8>)
    ensures |r| == k
  {
    if k == 0 then [] else NatBytes(n / 256, k - 1) + [LowByte(n)]
  }

  lemma NatBits2(n: nat, w: nat)
    ensures NatBits(n, w + 2) == NatBits(n / 4, w) + [n / 2 % 2 == 1, n % 2 == 1]
  {
    assert n / 2 / 2 == n / 4;
    assert NatBits(n, w + 2) == NatBits(n / 2, w + 1) + [n % 2 == 1];
    assert NatBits(n / 2, w + 1) == NatBits(n / 4, w) + [n / 2 % 2 == 1];
  }

  function Nibble(n: nat): seq<bool> {
    [n / 8 % 2 == 1, n / 4 % 2 == 1, n / 2 % 2 == 1, n % 2 == 1]
  }

  lemma NatBits4(n: nat, w: nat)
    ensures NatBits(n, w + 4) == NatBits(n / 16, w) + Nibble(n)
  {
    hide NatBits;
    NatBits2(n, w + 2);
    NatBits2(n / 4, w);
    assert n / 4 / 4 == n / 16 && n / 4 / 2 == n / 8;
  }

  lemma NatBits8(n: nat, w: nat)
    ensures NatBits(n, w + 8) == NatBits(n / 256, w) + (Nibble(n / 16) + Nibble(n))
  {
    hide NatBits, Nibble;
    NatBits4(n, w + 4);
    NatBits4(n / 16, w);
    assert n / 16 / 16 == n / 256;
  }

  lemma NatBitsByte(n: nat)
    ensures NatBits(n, 8) == Nibble(n / 16) + Nibble(n)
  {
    hide Nibble;
    NatBits8(n, 0);
  }

  lemma {:induction false} NatBytesBits(n: nat, k: nat)
    ensures ToBits(NatBytes(n, k)) == NatBits(n, 8 * k)
  {
    hide BitsOfByte, ByteOfBits, Nibble, NatBits;
    if k == 0 {
      assert |NatBits(n, 0)| == 0;
    } else {
      NatBytesBits(n / 256, k - 1);
      BitsByteBits(NatBits(n, 8));
      NatBits8(n, 8 * k - 8);
      NatBitsByte(n);
      var b := NatBytes(n, k);
      assert b[..|b| - 1] == NatBytes(n / 256, k - 1);
    }
  }

  // ---- numbers held in machine words ----

  lemma NibbleMod(q: nat, d: nat)
    ensures Nibble(16 * q + d) == Nibble(d)
  {
    EvenMore(8 * q, d);
    assert (16 * q + d) / 8 == 2 * q + d / 8;
    EvenMore(q, d / 8);
    assert (16 * q + d) / 4 == 4 * q + d / 4;
    EvenMore(2 * q, d / 4);
    assert (16 * q + d) / 2 == 8 * q + d / 2;
    EvenMore(4 * q, d / 2);
  }

  lemma EvenMore(p: nat, d: nat)
    ensures (2 * p + d) % 2 == d % 2
  {
  }

  lemma LowByteMod(q: nat, d: nat)
    ensures LowByte(256 * q + d) == LowByte(d)
  {
    hide Nibble, ByteOfBits, NatBits;
    var n := 256 * q + d;
    NatBitsByte(n);
    NatBitsByte(d);
    NibbleMod(16 * q, d);
    assert n == 16 * (16 * q) + d;
    assert n / 16 == 16 * q + d / 16;
    NibbleMod(q, d / 16);
  }

  function FourBytes(n: nat): (r: seq<bv8>)
    ensures |r| == 4
  {
    [LowByte(n / 0x1000000), LowByte(n / 0x10000), LowByte(n / 0x100), LowByte(n)]
  }

  lemma NatBytes4(n: nat, k: nat)
    ensures NatBytes(n, k + 4) == NatBytes(n / 0x1_0000_0000, k) + FourBytes(n)
  {
    hide LowByte;
    var n1, n2, n3 := n / 0x100, n / 0x10000, n / 0x1000000;
    assert n1 / 256 == n2 && n2 / 256 == n3 && n3 / 256 == n / 0x1_0000_0000;
    assert NatBytes(n, k + 4) == NatBytes(n1, k + 3) + [LowByte(n)];
    assert NatBytes(n1, k + 3) == NatBytes(n2, k + 2) + [LowByte(n1)];
    assert NatBytes(n2, k + 2) == NatBytes(n3, k + 1) + [LowByte(n2)];
    assert NatBytes(n3, k + 1) == NatBytes(n / 0x1_0000_0000, k) + [LowByte(n3)];
  }

  lemma FourBytesMod(q: nat, d: nat)
    ensures FourBytes(0x1_0000_0000 * q + d) == FourBytes(d)
  {
    hide LowByte;
    var n := 0x1_0000_0000 * q + d;
    assert n / 0x1000000 == 256 * q + d / 0x1000000;
    assert n / 0x10000 == 256 * (256 * q) + d / 0x10000;
    assert n / 0x100 == 256 * (65536 * q) + d / 0x100;
    assert n == 256 * (0x1000000 * q) + d;
    LowByteMod(q, d / 0x1000000);
    LowByteMod(256 * q, d / 0x10000);
    LowByteMod(65536 * q, d / 0x100);
    LowByteMod(0x1000000 * q, d);
  }

  /** A 64-bit number held in two 32-bit words. */
  lemma TwoWords32(high: nat, low: nat)
    requires low < 0x1_0000_0000
    ensures NatBytes(high * 0x1_0000_0000 + low, 8) == FourBytes(high) + FourBytes(low)
  {
    hide LowByte, FourBytes;
    var n := high * 0x1_0000_0000 + low;
    NatBytes4(n, 4);
    NatBytes4(high, 0);
    FourBytesMod(high, low);
    assert NatBytes(high / 0x1_0000_0000, 0) == [];
  }

  function EightBytes(n: nat): (r: seq<bv8>)
    ensures |r| == 8
  {
    FourBytes(n / 0x1_0000_0000) + FourBytes(n)
  }

  lemma SplitWords(high: nat, low: nat)
    ensures var n := high * 0x1_0000_0000_0000_0000 + low;
      n / 0x1_0000_0000 == 0x1_0000_0000 * high + low / 0x1_0000_0000
      && n == 0x1_0000_0000 * (n / 0x1_0000_0000) + low % 0x1_0000_0000
  {
  }

  /** A 128-bit number held in two 64-bit words. */
  lemma TwoWords64(high: nat, low: nat)
    requires low < 0x1_0000_0000_0000_0000
    ensures NatBytes(high * 0x1_0000_0000_0000_0000 + low, 16) == EightBytes(high) + EightBytes(low)
  {
    hide LowByte, FourBytes, NatBytes;
    var n := high * 0x1_0000_0000_0000_0000 + low;
    SplitWords(high, low);
    NatBytes4(n, 12);
    FourBytesMod(n / 0x1_0000_0000, low % 0x1_0000_0000);
    FourBytesMod(low / 0x1_0000_0000, low % 0x1_0000_0000);
    NatBytes12(high, low / 0x1_0000_0000);
  }

  lemma NatBytes12(high: nat, low: nat)
    requires low < 0x1_0000_0000
    ensures NatBytes(0x1_0000_0000 * high + low, 12) == EightBytes(high) + FourBytes(low)
  {
    hide LowByte, FourBytes, NatBytes;
    NatBytes4(0x1_0000_0000 * high + low, 8);
    FourBytesMod(high, low);
    NatBytes4(high, 4);
    NatBytes4(high / 0x1_0000_0000, 0);
  }

  /** Cutting the last sextet off a number. */
  lemma SplitSextet(q: nat, d: nat, w: nat)
    requires d < 64
    ensures NatBits(64 * q + d, w + 6) == NatBits(q, w) + NatBits(d, 6)
  {
    hide NatBits, Nibble;
    TopPair(q, d, w);
    NatBits4(64 * q + d, w + 2);
    NatBits4(d, 2);
    NibbleMod(4 * q, d);
    assert (64 * q + d) / 16 == 4 * q + d / 16;
    assert 64 * q + d == 16 * (4 * q) + d;
  }

  lemma TopPair(q: nat, d: nat, w: nat)
    requires d < 64
    ensures NatBits(4 * q + d / 16, w + 2) == NatBits(q, w) + NatBits(d / 16, 2)
  {
    hide NatBits;
    var e := d / 16;
    assert e < 4 && (4 * q + e) / 4 == q && e / 4 == 0;
    NatBits2(4 * q + e, w);
    NatBits2(e, 0);
    EvenMore(2 * q, e);
    assert (4 * q + e) / 2 == 2 * q + e / 2;
    EvenMore(q, e / 2);
    assert |NatBits(e / 4, 0)| == 0;
  }

  /** Cutting the last byte off a number. */
  lemma SplitOctet(q: nat, d: nat, w: nat)
    requires d < 256
    ensures NatBits(256 * q + d, w + 8) == NatBits(q, w) + NatBits(d, 8)
  {
    hide NatBits, Nibble;
    var n := 256 * q + d;
    NatBits8(n, w);
    NatBitsByte(d);
    NibbleMod(16 * q, d);
    assert n == 16 * (16 * q) + d && n / 16 == 16 * q + d / 16 && n / 256 == q;
    NibbleMod(q, d / 16);
  }
}
