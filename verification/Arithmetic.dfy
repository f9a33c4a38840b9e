/** Facts about division and remainder that the padding and counter proofs rest on. */
module Arithmetic {

  lemma RemainderOf(q: int, r: int, m: int)
    requires m == 512 || m == 1024
    requires 0 <= r < m
    ensures (m * q + r) % m == r
  {
    if m == 512 {
      assert (512 * q + r) % 512 == r;
    } else {
      assert (1024 * q + r) % 1024 == r;
    }
  }

  /** Zero fill after a pad byte in 64-byte blocks with an 8-byte length field. */
  lemma ZeroFill64(n: int, t: int)
    requires 0 <= n && 0 <= t < 8
    ensures (447 - (8 * n + t)) % 512 == 7 - t + 8 * (if n % 64 < 56 then 55 - n % 64 else 119 - n % 64)
  {
    var q, i := n / 64, n % 64;
    var z := 7 - t + 8 * (if i < 56 then 55 - i else 119 - i);
    var p := if i < 56 then -q else -q - 1;
    assert 447 - (8 * n + t) == 512 * p + z;
    RemainderOf(p, z, 512);
  }

  /** Zero fill after a pad byte in 128-byte blocks with a 16-byte length field. */
  lemma ZeroFill128(n: int, t: int)
    requires 0 <= n && 0 <= t < 8
    ensures (895 - (8 * n + t)) % 1024 == 7 - t + 8 * (if n % 128 < 112 then 111 - n % 128 else 239 - n % 128)
  {
    var q, i := n / 128, n % 128;
    var z := 7 - t + 8 * (if i < 112 then 111 - i else 239 - i);
    var p := if i < 112 then -q else -q - 1;
    assert 895 - (8 * n + t) == 1024 * p + z;
    RemainderOf(p, z, 1024);
  }

  lemma WholeBytes(bits: int, m: int)
    requires m == 64 || m == 128
    requires 0 <= bits && bits % (8 * m) == 0
    ensures bits % 8 == 0 && bits / 8 % m == 0
  {
    if m == 64 {
      var q := bits / 512;
      assert bits == 8 * (64 * q) && bits / 8 == 64 * q;
    } else {
      var q := bits / 1024;
      assert bits == 8 * (128 * q) && bits / 8 == 128 * q;
    }
  }

  /** The smallest k with length + 1 + k = r modulo m. */
  lemma SolveZeros(length: int, r: int, m: int)
    requires (m == 512 && r == 448) || (m == 1024 && r == 896)
    ensures (length + 1 + (r - 1 - length) % m) % m == r
  {
    if m == 512 {
      var p := (447 - length) / 512;
      assert length + 1 + (447 - length) % 512 == 512 * (-p) + 448;
      RemainderOf(-p, 448, 512);
    } else {
      var p := (895 - length) / 1024;
      assert length + 1 + (895 - length) % 1024 == 1024 * (-p) + 896;
      RemainderOf(-p, 896, 1024);
    }
  }

  lemma FillsBlocks(length: int, k: int, m: int, field: int)
    requires (m == 512 && field == 64) || (m == 1024 && field == 128)
    requires 0 <= length && 0 <= k && (length + 1 + k) % m == m - field
    ensures (length + 1 + k + field) % m == 0
  {
    if m == 512 {
      var q := (length + 1 + k) / 512;
      assert length + 1 + k + field == 512 * (q + 1);
    } else {
      var q := (length + 1 + k) / 1024;
      assert length + 1 + k + field == 1024 * (q + 1);
    }
  }

  // Adding n to a two-word counter (h, l) with words of 32 or 64 bits.

  lemma CounterStep32(h: int, l: int, n: int)
    requires 0 <= h < 0x1_0000_0000 && 0 <= l < 0x1_0000_0000 && 0 <= n < 0x1_0000_0000
    ensures (l + n) % 0x1_0000_0000 == if l + n < 0x1_0000_0000 then l + n else l + n - 0x1_0000_0000
    ensures (h + 1) % 0x1_0000_0000 == if h + 1 < 0x1_0000_0000 then h + 1 else 0
  {
  }

  lemma CounterStep64(h: int, l: int, n: int)
    requires 0 <= h < 0x1_0000_0000_0000_0000 && 0 <= l < 0x1_0000_0000_0000_0000 && 0 <= n < 0x1_0000_0000_0000_0000
    ensures (l + n) % 0x1_0000_0000_0000_0000 == if l + n < 0x1_0000_0000_0000_0000 then l + n else l + n - 0x1_0000_0000_0000_0000
    ensures (h + 1) % 0x1_0000_0000_0000_0000 == if h + 1 < 0x1_0000_0000_0000_0000 then h + 1 else 0
  {
  }

  lemma NextRemainder64(n: int)
    ensures (n - n % 64) % 64 == 0 && (n + 1) % 64 == if n % 64 + 1 == 64 then 0 else n % 64 + 1
  {
    var q, i := n / 64, n % 64;
    assert n - i == 64 * q;
    if i + 1 == 64 {
      assert n + 1 == 64 * (q + 1);
    } else {
      assert n + 1 == 64 * q + (i + 1);
    }
  }

  lemma NextRemainder128(n: int)
    ensures (n - n % 128) % 128 == 0 && (n + 1) % 128 == if n % 128 + 1 == 128 then 0 else n % 128 + 1
  {
    var q, i := n / 128, n % 128;
    assert n - i == 128 * q;
    if i + 1 == 128 {
      assert n + 1 == 128 * (q + 1);
    } else {
      assert n + 1 == 128 * q + (i + 1);
    }
  }

  lemma OneBlockLess(n: int, m: int)
    requires m == 64 || m == 128
    requires 0 < n && n % m == 0
    ensures m <= n && (n - m) % m == 0
  {
    if m == 64 {
      assert n - 64 == 64 * (n / 64 - 1);
    } else {
      assert n - 128 == 128 * (n / 128 - 1);
    }
  }

  /** The bytes of a number built from four bytes. */
  lemma UnpackFour(a: int, b: int, c: int, d: int)
    requires 0 <= a < 256 && 0 <= b < 256 && 0 <= c < 256 && 0 <= d < 256
    ensures var w := a + 0x100 * b + 0x10000 * c + 0x1000000 * d;
      0 <= w < 0x1_0000_0000 && w % 256 == a && w / 0x100 % 256 == b && w / 0x10000 % 256 == c && w / 0x1000000 % 256 == d
  {
    var w := a + 0x100 * b + 0x10000 * c + 0x1000000 * d;
    assert w == 256 * (b + 0x100 * c + 0x10000 * d) + a;
    assert w / 0x100 == 256 * (c + 0x100 * d) + b;
    assert w / 0x10000 == 256 * d + c;
    assert w / 0x1000000 == d;
  }

  /** Three bytes and the four sextets cut from them are the digits of one number. */
  lemma SameNumber(a: int, b: int, c: int)
    requires 0 <= a < 256 && 0 <= b < 256 && 0 <= c < 256
    ensures 64 * (64 * (64 * (a / 4) + (a % 4 * 16 + b / 16)) + (b % 16 * 4 + c / 64)) + c % 64 == 256 * (256 * a + b) + c
  {
    assert a == 4 * (a / 4) + a % 4 && b == 16 * (b / 16) + b % 16 && c == 64 * (c / 64) + c % 64;
  }
}
