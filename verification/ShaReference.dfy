/** The compression functions by a second definition: each as the one or two sequences of words that
    its working variables run through, with rotations for pairs of shifts, disjunctions for exclusive
    ones and sums for the words; and where the constants come from. */
module ShaReference {
  import opened Bits
  import opened ShaSpec
  import Sha1
  import Sha256
  import Sha512

  // ---- words and their bytes ----

  /** A word holds its bytes, most significant first. */
  lemma WordsHoldBytes(b0: bv8, b1: bv8, b2: bv8, b3: bv8, b4: bv8, b5: bv8, b6: bv8, b7: bv8)
    ensures WordBytes32(Sha1.Word(b0, b1, b2, b3)) == WordBytes32(Sha256.Word(b0, b1, b2, b3)) == [b0, b1, b2, b3]
    ensures WordBytes64(Sha512.Word(b0, b1, b2, b3, b4, b5, b6, b7)) == [b0, b1, b2, b3, b4, b5, b6, b7]
  {
  }

  function Top32(w: bv32): seq<bool> {
    [w & 0x8000_0000 != 0, w & 0x4000_0000 != 0, w & 0x2000_0000 != 0, w & 0x1000_0000 != 0,
     w & 0x0800_0000 != 0, w & 0x0400_0000 != 0, w & 0x0200_0000 != 0, w & 0x0100_0000 != 0]
  }

  function Top64(w: bv64): seq<bool> {
    [w & 0x8000_0000_0000_0000 != 0, w & 0x4000_0000_0000_0000 != 0,
     w & 0x2000_0000_0000_0000 != 0, w & 0x1000_0000_0000_0000 != 0,
     w & 0x0800_0000_0000_0000 != 0, w & 0x0400_0000_0000_0000 != 0,
     w & 0x0200_0000_0000_0000 != 0, w & 0x0100_0000_0000_0000 != 0]
  }

  /** The bits of a word, from the most significant one on, are those of its bytes in order. */
  lemma BytesHoldBits32(w: bv32)
    ensures BitsOfByte(WordBytes32(w)[0]) == Top32(w) && BitsOfByte(WordBytes32(w)[1]) == Top32(w << 8)
    ensures BitsOfByte(WordBytes32(w)[2]) == Top32(w << 16) && BitsOfByte(WordBytes32(w)[3]) == Top32(w << 24)
  {
  }

  lemma FirstByte64(w: bv64)
    ensures BitsOfByte(WordBytes64(w)[0]) == Top64(w)
  {
  }

  lemma Bytes64Shift(w: bv64)
    ensures WordBytes64(w << 8)[0] == WordBytes64(w)[1] && WordBytes64(w << 16)[0] == WordBytes64(w)[2]
    ensures WordBytes64(w << 24)[0] == WordBytes64(w)[3] && WordBytes64(w << 32)[0] == WordBytes64(w)[4]
    ensures WordBytes64(w << 40)[0] == WordBytes64(w)[5] && WordBytes64(w << 48)[0] == WordBytes64(w)[6]
    ensures WordBytes64(w << 56)[0] == WordBytes64(w)[7]
  {
  }

  lemma BytesHoldBits64(w: bv64)
    ensures BitsOfByte(WordBytes64(w)[0]) == Top64(w) && BitsOfByte(WordBytes64(w)[1]) == Top64(w << 8)
    ensures BitsOfByte(WordBytes64(w)[2]) == Top64(w << 16) && BitsOfByte(WordBytes64(w)[3]) == Top64(w << 24)
    ensures BitsOfByte(WordBytes64(w)[4]) == Top64(w << 32) && BitsOfByte(WordBytes64(w)[5]) == Top64(w << 40)
    ensures BitsOfByte(WordBytes64(w)[6]) == Top64(w << 48) && BitsOfByte(WordBytes64(w)[7]) == Top64(w << 56)
  {
    hide BitsOfByte, Top64;
    Bytes64Shift(w);
    hide WordBytes64;
    FirstByte64(w);
    FirstByte64(w << 8);
    FirstByte64(w << 16);
    FirstByte64(w << 24);
    FirstByte64(w << 32);
    FirstByte64(w << 40);
    FirstByte64(w << 48);
    FirstByte64(w << 56);
  }

  // ---- the bitwise functions ----

  lemma ModifiedCh(x: bv32, y: bv32, z: bv32)
    ensures Sha256.Ch(x, y, z) == (x & (y ^ z)) ^ z
  {
  }

  lemma ModifiedMaj(x: bv32, y: bv32, z: bv32)
    ensures Sha256.Maj(x, y, z) == (x & (y | z)) | (y & z)
  {
  }

  lemma SameMacros(x: bv32, y: bv32, z: bv32)
    ensures Sha1.Ch(x, y, z) == Sha256.Ch(x, y, z) && Sha1.Maj(x, y, z) == Sha256.Maj(x, y, z)
  {
  }

  /** Both sets of macros for Ch and Maj compute the same. */
  lemma ModifiedMacros(x: bv32, y: bv32, z: bv32)
    ensures Sha256.Ch(x, y, z) == Sha1.Ch(x, y, z) == (x & (y ^ z)) ^ z
    ensures Sha256.Maj(x, y, z) == Sha1.Maj(x, y, z) == (x & (y | z)) | (y & z)
  {
    hide Sha256.Ch, Sha1.Ch, Sha256.Maj, Sha1.Maj;
    SameMacros(x, y, z);
    ModifiedCh(x, y, z);
    ModifiedMaj(x, y, z);
  }

  /** Where a bit of x is set, Ch has that of y, and elsewhere that of z. */
  lemma ChBitByBit(x: bv32, y: bv32, z: bv32)
    ensures Sha256.Ch(x, y, z) & x == y & x && Sha256.Ch(x, y, z) & !x == z & !x
  {
  }

  /** Maj has the bit on which two words agree. */
  lemma MajBitByBit(x: bv32, y: bv32, z: bv32)
    ensures Sha256.Maj(x, y, z) & !(x ^ y) == x & !(x ^ y) && Sha256.Maj(x, y, z) & !(y ^ z) == y & !(y ^ z)
  {
  }

  // ---- SHA-224 and SHA-256 ----

  /** Four bytes as a number, most significant first. */
  function Four32(m: seq<bv8>, i: nat): bv32
    requires i + 4 <= |m|
  {
    0x100_0000 * (m[i] as bv32) + 0x1_0000 * (m[i + 1] as bv32) + 0x100 * (m[i + 2] as bv32) + m[i + 3] as bv32
  }

  function Plus32(x: bv32, y: bv32): bv32 { x + y }

  function Sum32(v: bv32, w: bv32, x: bv32, y: bv32, z: bv32): bv32 { v + w + x + y + z }

  function SumOfFour32(w: bv32, x: bv32, y: bv32, z: bv32): bv32 { w + x + y + z }

  /** The message schedule. */
  function W256(m: seq<bv8>, t: nat): bv32
    requires |m| == 64 && t < 64
  {
    if t < 16 then Four32(m, 4 * t) else Next256(W256(m, t - 16), W256(m, t - 15), W256(m, t - 7), W256(m, t - 2))
  }

  function Next256(w: bv32, x: bv32, v: bv32, y: bv32): bv32 {
    SumOfFour32(y.RotateRight(17) ^ y.RotateRight(19) ^ (y / 1024), v,
      x.RotateRight(7) ^ x.RotateRight(18) ^ (x / 8), w)
  }

  /** What a round adds to both new words: where a bit of e is set, that of f is taken, and elsewhere that of g. */
  function Common256(e: bv32, f: bv32, g: bv32, h: bv32, k: bv32, w: bv32): bv32 {
    Sum32(h, e.RotateRight(6) ^ e.RotateRight(11) ^ e.RotateRight(25), (e & f) | (!e & g), k, w)
  }

  /** What it adds to one of them: the bits set in two of three words are taken. */
  function Other256(a: bv32, b: bv32, c: bv32): bv32 {
    Plus32(a.RotateRight(2) ^ a.RotateRight(13) ^ a.RotateRight(22), (a & b) | (a & c) | (b & c))
  }

  /** The words that pass through a, b, c and d; round t makes the one at t + 4. */
  function A256(h: seq<bv32>, m: seq<bv8>, t: nat): bv32
    requires |h| == 8 && |m| == 64 && t < 68
  {
    if t < 4 then h[3 - t] else
      Plus32(Common256(E256(h, m, t - 1), E256(h, m, t - 2), E256(h, m, t - 3), E256(h, m, t - 4),
                       Sha256.K(t - 4), W256(m, t - 4)),
             Other256(A256(h, m, t - 1), A256(h, m, t - 2), A256(h, m, t - 3)))
  }

  /** The words that pass through e, f, g and h. */
  function E256(h: seq<bv32>, m: seq<bv8>, t: nat): bv32
    requires |h| == 8 && |m| == 64 && t < 68
  {
    if t < 4 then h[7 - t] else
      Plus32(A256(h, m, t - 4),
             Common256(E256(h, m, t - 1), E256(h, m, t - 2), E256(h, m, t - 3), E256(h, m, t - 4),
                       Sha256.K(t - 4), W256(m, t - 4)))
  }

  lemma Choice256(x: bv32, y: bv32, z: bv32)
    ensures Sha256.Ch(x, y, z) == (x & y) | (!x & z)
    ensures Sha256.Maj(x, y, z) == (x & y) | (x & z) | (y & z)
  {
  }

  lemma Rotations256(x: bv32)
    ensures Sha256.BigSigma0(x) == x.RotateRight(2) ^ x.RotateRight(13) ^ x.RotateRight(22)
    ensures Sha256.BigSigma1(x) == x.RotateRight(6) ^ x.RotateRight(11) ^ x.RotateRight(25)
    ensures Sha256.SmallSigma0(x) == x.RotateRight(7) ^ x.RotateRight(18) ^ (x / 8)
    ensures Sha256.SmallSigma1(x) == x.RotateRight(17) ^ x.RotateRight(19) ^ (x / 1024)
  {
  }

  lemma Adds256(x: bv32, y: bv32)
    ensures Sha256.Add(x, y) == Plus32(x, y)
  {
  }

  lemma Sums256(a: bv32, b: bv32, c: bv32, e: bv32, f: bv32, g: bv32, h: bv32, k: bv32, w: bv32)
    ensures Sha256.T1(e, f, g, h, k, w) == Sum32(h, Sha256.BigSigma1(e), Sha256.Ch(e, f, g), k, w)
    ensures Sha256.T2(a, b, c) == Plus32(Sha256.BigSigma0(a), Sha256.Maj(a, b, c))
  {
    hide Sha256.BigSigma0, Sha256.BigSigma1, Sha256.Ch, Sha256.Maj;
  }

  lemma Commons256(e: bv32, f: bv32, g: bv32, h: bv32, k: bv32, w: bv32)
    ensures Sha256.T1(e, f, g, h, k, w) == Common256(e, f, g, h, k, w)
  {
    hide Sha256.BigSigma1, Sha256.Ch, Sha256.T1, Sum32;
    Choice256(e, f, g);
    Rotations256(e);
    Sums256(e, f, g, e, f, g, h, k, w);
  }

  lemma Others256(a: bv32, b: bv32, c: bv32)
    ensures Sha256.T2(a, b, c) == Other256(a, b, c)
  {
    hide Sha256.BigSigma0, Sha256.Maj, Sha256.T2, Plus32;
    Choice256(a, b, c);
    Rotations256(a);
    Sums256(a, b, c, a, b, c, a, b, c);
  }

  lemma FourSums256(w: bv32, x: bv32, v: bv32, y: bv32)
    ensures Sha256.Extend(y, v, x, w) == SumOfFour32(Sha256.SmallSigma1(y), v, Sha256.SmallSigma0(x), w)
  {
    hide Sha256.SmallSigma0, Sha256.SmallSigma1;
  }

  lemma Extends256(w: bv32, x: bv32, v: bv32, y: bv32)
    ensures Sha256.Extend(y, v, x, w) == Next256(w, x, v, y)
  {
    hide Sha256.SmallSigma0, Sha256.SmallSigma1, Sha256.Extend, SumOfFour32;
    FourSums256(w, x, v, y);
    Rotations256(x);
    Rotations256(y);
  }

  lemma Words256(m: seq<bv8>, t: nat)
    requires |m| == 64 && t < 16
    ensures Sha256.BlockWord(m, t) == Four32(m, 4 * t)
  {
  }

  lemma {:induction false} Schedule256(m: seq<bv8>, t: nat)
    requires |m| == 64 && t < 64
    ensures Sha256.Schedule(m, t) == W256(m, t)
  {
    hide Sha256.BlockWord, Sha256.Extend, Next256, Four32;
    if t < 16 {
      Words256(m, t);
    } else {
      Schedule256(m, t - 16);
      Schedule256(m, t - 15);
      Schedule256(m, t - 7);
      Schedule256(m, t - 2);
      Extends256(W256(m, t - 16), W256(m, t - 15), W256(m, t - 7), W256(m, t - 2));
    }
  }

  lemma Steps256(v: Sha256.Vars, k: bv32, w: bv32)
    ensures Sha256.Round(v, k, w) == Sha256.Vars(
      Plus32(Common256(v.e, v.f, v.g, v.h, k, w), Other256(v.a, v.b, v.c)), v.a, v.b, v.c,
      Plus32(v.d, Common256(v.e, v.f, v.g, v.h, k, w)), v.e, v.f, v.g)
  {
    hide Sha256.Add, Sha256.T1, Sha256.T2, Plus32, Common256, Other256;
    Commons256(v.e, v.f, v.g, v.h, k, w);
    Others256(v.a, v.b, v.c);
    Adds256(Common256(v.e, v.f, v.g, v.h, k, w), Other256(v.a, v.b, v.c));
    Adds256(v.d, Common256(v.e, v.f, v.g, v.h, k, w));
  }

  /** Four words of each sequence are the working variables after t rounds. */
  lemma {:induction false} Rounds256(h: seq<bv32>, m: seq<bv8>, t: nat)
    requires |h| == 8 && |m| == 64 && t <= 64
    ensures Sha256.Rounds(Sha256.StartVars(h), m, t) == Sha256.Vars(
      A256(h, m, t + 3), A256(h, m, t + 2), A256(h, m, t + 1), A256(h, m, t),
      E256(h, m, t + 3), E256(h, m, t + 2), E256(h, m, t + 1), E256(h, m, t))
  {
    hide Sha256.Round, Sha256.K, Sha256.Schedule, W256, Plus32, Common256, Other256;
    if t > 0 {
      Rounds256(h, m, t - 1);
      Schedule256(m, t - 1);
      Steps256(Sha256.Rounds(Sha256.StartVars(h), m, t - 1), Sha256.K(t - 1), W256(m, t - 1));
    }
  }

  /** The compression function adds the last four words of both sequences to the hash value. */
  lemma Compress256(h: seq<bv32>, m: seq<bv8>)
    requires |h| == 8 && |m| == 64
    ensures Sha256.Compress(h, m) == [
      Plus32(h[0], A256(h, m, 67)), Plus32(h[1], A256(h, m, 66)),
      Plus32(h[2], A256(h, m, 65)), Plus32(h[3], A256(h, m, 64)),
      Plus32(h[4], E256(h, m, 67)), Plus32(h[5], E256(h, m, 66)),
      Plus32(h[6], E256(h, m, 65)), Plus32(h[7], E256(h, m, 64))]
  {
    hide Sha256.Rounds, A256, E256, Sha256.Add, Plus32;
    Rounds256(h, m, 64);
    var v := Sha256.Rounds(Sha256.StartVars(h), m, 64);
    Adds256(h[0], v.a);
    Adds256(h[1], v.b);
    Adds256(h[2], v.c);
    Adds256(h[3], v.d);
    Adds256(h[4], v.e);
    Adds256(h[5], v.f);
    Adds256(h[6], v.g);
    Adds256(h[7], v.h);
  }

  // ---- SHA-384 and SHA-512 ----

  /** Eight bytes as a number, most significant first. */
  function Eight64(m: seq<bv8>, i: nat): bv64
    requires i + 8 <= |m|
  {
    0x100_0000_0000_0000 * (m[i] as bv64) + 0x1_0000_0000_0000 * (m[i + 1] as bv64)
    + 0x100_0000_0000 * (m[i + 2] as bv64) + 0x1_0000_0000 * (m[i + 3] as bv64)
    + 0x100_0000 * (m[i + 4] as bv64) + 0x1_0000 * (m[i + 5] as bv64) + 0x100 * (m[i + 6] as bv64) + m[i + 7] as bv64
  }

  function Plus64(x: bv64, y: bv64): bv64 { x + y }

  function Sum64(v: bv64, w: bv64, x: bv64, y: bv64, z: bv64): bv64 { v + w + x + y + z }

  function SumOfFour64(w: bv64, x: bv64, y: bv64, z: bv64): bv64 { w + x + y + z }

  /** The message schedule. */
  function W512(m: seq<bv8>, t: nat): bv64
    requires |m| == 128 && t < 80
  {
    if t < 16 then Eight64(m, 8 * t) else Next512(W512(m, t - 16), W512(m, t - 15), W512(m, t - 7), W512(m, t - 2))
  }

  function Next512(w: bv64, x: bv64, v: bv64, y: bv64): bv64 {
    SumOfFour64(y.RotateRight(19) ^ y.RotateRight(61) ^ (y / 64), v,
      x.RotateRight(1) ^ x.RotateRight(8) ^ (x / 128), w)
  }

  /** What a round adds to both new words: where a bit of e is set, that of f is taken, and elsewhere that of g. */
  function Common512(e: bv64, f: bv64, g: bv64, h: bv64, k: bv64, w: bv64): bv64 {
    Sum64(h, e.RotateRight(14) ^ e.RotateRight(18) ^ e.RotateRight(41), (e & f) | (!e & g), k, w)
  }

  /** What it adds to one of them: the bits set in two of three words are taken. */
  function Other512(a: bv64, b: bv64, c: bv64): bv64 {
    Plus64(a.RotateRight(28) ^ a.RotateRight(34) ^ a.RotateRight(39), (a & b) | (a & c) | (b & c))
  }

  /** The words that pass through a, b, c and d; round t makes the one at t + 4. */
  function A512(h: seq<bv64>, m: seq<bv8>, t: nat): bv64
    requires |h| == 8 && |m| == 128 && t < 84
  {
    if t < 4 then h[3 - t] else
      Plus64(Common512(E512(h, m, t - 1), E512(h, m, t - 2), E512(h, m, t - 3), E512(h, m, t - 4),
                       Sha512.K(t - 4), W512(m, t - 4)),
             Other512(A512(h, m, t - 1), A512(h, m, t - 2), A512(h, m, t - 3)))
  }

  /** The words that pass through e, f, g and h. */
  function E512(h: seq<bv64>, m: seq<bv8>, t: nat): bv64
    requires |h| == 8 && |m| == 128 && t < 84
  {
    if t < 4 then h[7 - t] else
      Plus64(A512(h, m, t - 4),
             Common512(E512(h, m, t - 1), E512(h, m, t - 2), E512(h, m, t - 3), E512(h, m, t - 4),
                       Sha512.K(t - 4), W512(m, t - 4)))
  }

  lemma Choice512(x: bv64, y: bv64, z: bv64)
    ensures Sha512.Ch(x, y, z) == (x & y) | (!x & z)
    ensures Sha512.Maj(x, y, z) == (x & y) | (x & z) | (y & z)
  {
  }

  lemma Rotations512(x: bv64)
    ensures Sha512.BigSigma0(x) == x.RotateRight(28) ^ x.RotateRight(34) ^ x.RotateRight(39)
    ensures Sha512.BigSigma1(x) == x.RotateRight(14) ^ x.RotateRight(18) ^ x.RotateRight(41)
    ensures Sha512.SmallSigma0(x) == x.RotateRight(1) ^ x.RotateRight(8) ^ (x / 128)
    ensures Sha512.SmallSigma1(x) == x.RotateRight(19) ^ x.RotateRight(61) ^ (x / 64)
  {
  }

  lemma Adds512(x: bv64, y: bv64)
    ensures Sha512.Add(x, y) == Plus64(x, y)
  {
  }

  lemma Sums512(a: bv64, b: bv64, c: bv64, e: bv64, f: bv64, g: bv64, h: bv64, k: bv64, w: bv64)
    ensures Sha512.T1(e, f, g, h, k, w) == Sum64(h, Sha512.BigSigma1(e), Sha512.Ch(e, f, g), k, w)
    ensures Sha512.T2(a, b, c) == Plus64(Sha512.BigSigma0(a), Sha512.Maj(a, b, c))
  {
    hide Sha512.BigSigma0, Sha512.BigSigma1, Sha512.Ch, Sha512.Maj;
  }

  lemma Commons512(e: bv64, f: bv64, g: bv64, h: bv64, k: bv64, w: bv64)
    ensures Sha512.T1(e, f, g, h, k, w) == Common512(e, f, g, h, k, w)
  {
    hide Sha512.BigSigma1, Sha512.Ch, Sha512.T1, Sum64;
    Choice512(e, f, g);
    Rotations512(e);
    Sums512(e, f, g, e, f, g, h, k, w);
  }

  lemma Others512(a: bv64, b: bv64, c: bv64)
    ensures Sha512.T2(a, b, c) == Other512(a, b, c)
  {
    hide Sha512.BigSigma0, Sha512.Maj, Sha512.T2, Plus64;
    Choice512(a, b, c);
    Rotations512(a);
    Sums512(a, b, c, a, b, c, a, b, c);
  }

  lemma FourSums512(w: bv64, x: bv64, v: bv64, y: bv64)
    ensures Sha512.Extend(y, v, x, w) == SumOfFour64(Sha512.SmallSigma1(y), v, Sha512.SmallSigma0(x), w)
  {
    hide Sha512.SmallSigma0, Sha512.SmallSigma1;
  }

  lemma Extends512(w: bv64, x: bv64, v: bv64, y: bv64)
    ensures Sha512.Extend(y, v, x, w) == Next512(w, x, v, y)
  {
    hide Sha512.SmallSigma0, Sha512.SmallSigma1, Sha512.Extend, SumOfFour64;
    FourSums512(w, x, v, y);
    Rotations512(x);
    Rotations512(y);
  }

  lemma Words512(m: seq<bv8>, t: nat)
    requires |m| == 128 && t < 16
    ensures Sha512.BlockWord(m, t) == Eight64(m, 8 * t)
  {
  }

  lemma {:induction false} Schedule512(m: seq<bv8>, t: nat)
    requires |m| == 128 && t < 80
    ensures Sha512.Schedule(m, t) == W512(m, t)
  {
    hide Sha512.BlockWord, Sha512.Extend, Next512, Eight64;
    if t < 16 {
      Words512(m, t);
    } else {
      Schedule512(m, t - 16);
      Schedule512(m, t - 15);
      Schedule512(m, t - 7);
      Schedule512(m, t - 2);
      Extends512(W512(m, t - 16), W512(m, t - 15), W512(m, t - 7), W512(m, t - 2));
    }
  }

  lemma Steps512(v: Sha512.Vars, k: bv64, w: bv64)
    ensures Sha512.Round(v, k, w) == Sha512.Vars(
      Plus64(Common512(v.e, v.f, v.g, v.h, k, w), Other512(v.a, v.b, v.c)), v.a, v.b, v.c,
      Plus64(v.d, Common512(v.e, v.f, v.g, v.h, k, w)), v.e, v.f, v.g)
  {
    hide Sha512.Add, Sha512.T1, Sha512.T2, Plus64, Common512, Other512;
    Commons512(v.e, v.f, v.g, v.h, k, w);
    Others512(v.a, v.b, v.c);
    Adds512(Common512(v.e, v.f, v.g, v.h, k, w), Other512(v.a, v.b, v.c));
    Adds512(v.d, Common512(v.e, v.f, v.g, v.h, k, w));
  }

  /** Four words of each sequence are the working variables after t rounds. */
  lemma {:induction false} Rounds512(h: seq<bv64>, m: seq<bv8>, t: nat)
    requires |h| == 8 && |m| == 128 && t <= 80
    ensures Sha512.Rounds(Sha512.StartVars(h), m, t) == Sha512.Vars(
      A512(h, m, t + 3), A512(h, m, t + 2), A512(h, m, t + 1), A512(h, m, t),
      E512(h, m, t + 3), E512(h, m, t + 2), E512(h, m, t + 1), E512(h, m, t))
  {
    hide Sha512.Round, Sha512.K, Sha512.Schedule, W512, Plus64, Common512, Other512;
    if t > 0 {
      Rounds512(h, m, t - 1);
      Schedule512(m, t - 1);
      Steps512(Sha512.Rounds(Sha512.StartVars(h), m, t - 1), Sha512.K(t - 1), W512(m, t - 1));
    }
  }

  /** The compression function adds the last four words of both sequences to the hash value. */
  lemma Compress512(h: seq<bv64>, m: seq<bv8>)
    requires |h| == 8 && |m| == 128
    ensures Sha512.Compress(h, m) == [
      Plus64(h[0], A512(h, m, 83)), Plus64(h[1], A512(h, m, 82)),
      Plus64(h[2], A512(h, m, 81)), Plus64(h[3], A512(h, m, 80)),
      Plus64(h[4], E512(h, m, 83)), Plus64(h[5], E512(h, m, 82)),
      Plus64(h[6], E512(h, m, 81)), Plus64(h[7], E512(h, m, 80))]
  {
    hide Sha512.Rounds, A512, E512, Sha512.Add, Plus64;
    Rounds512(h, m, 80);
    var v := Sha512.Rounds(Sha512.StartVars(h), m, 80);
    Adds512(h[0], v.a);
    Adds512(h[1], v.b);
    Adds512(h[2], v.c);
    Adds512(h[3], v.d);
    Adds512(h[4], v.e);
    Adds512(h[5], v.f);
    Adds512(h[6], v.g);
    Adds512(h[7], v.h);
  }

  // ---- SHA-1 ----

  /** The message schedule. */
  function W1(m: seq<bv8>, t: nat): bv32
    requires |m| == 64 && t < 80
  {
    if t < 16 then Four32(m, 4 * t)
    else (W1(m, t - 16) ^ W1(m, t - 14) ^ W1(m, t - 8) ^ W1(m, t - 3)).RotateLeft(1)
  }

  function Turn5(x: bv32): bv32 { x.RotateLeft(5) }

  function Turn(x: bv32): bv32 { x.RotateLeft(30) }

  /** The function of a stretch of twenty rounds. */
  function F1(t: nat, b: bv32, c: bv32, d: bv32): bv32 {
    if t < 20 then (b & c) | (!b & d)
    else if 40 <= t < 60 then (b & c) | (b & d) | (c & d)
    else b ^ c ^ d
  }

  /** The words that pass through a and b, and turned by thirty places through c, d and e; round t makes the
      one at t + 5. */
  function A1(h: seq<bv32>, m: seq<bv8>, t: nat): bv32
    requires |h| == 5 && |m| == 64 && t < 85
  {
    if t < 3 then h[4 - t].RotateLeft(2)
    else if t < 5 then h[4 - t]
    else
      Sum32(Turn5(A1(h, m, t - 1)), F1(t - 5, A1(h, m, t - 2), Turn(A1(h, m, t - 3)), Turn(A1(h, m, t - 4))),
            Turn(A1(h, m, t - 5)), W1(m, t - 5), Sha1.RoundConstant(t - 5))
  }

  lemma Functions1(t: nat, x: bv32, y: bv32, z: bv32)
    requires t < 80
    ensures Sha1.F(t, x, y, z) == F1(t, x, y, z)
  {
    hide Sha1.Ch, Sha1.Maj, Sha1.Parity;
    Functions1Bits(x, y, z);
  }

  lemma Functions1Bits(x: bv32, y: bv32, z: bv32)
    ensures Sha1.Ch(x, y, z) == (x & y) | (!x & z)
    ensures Sha1.Maj(x, y, z) == (x & y) | (x & z) | (y & z)
    ensures Sha1.Parity(x, y, z) == x ^ y ^ z
  {
  }

  lemma Rotations1(x: bv32)
    ensures Sha1.Rotl5(x) == Turn5(x) && Sha1.Rotl30(x) == Turn(x) && Turn(x.RotateLeft(2)) == x
  {
  }

  lemma Extends1(w: bv32, x: bv32, y: bv32, z: bv32)
    ensures Sha1.Extend(w, x, y, z) == (z ^ y ^ x ^ w).RotateLeft(1)
  {
  }

  lemma Words1(m: seq<bv8>, t: nat)
    requires |m| == 64 && t < 16
    ensures Sha1.Schedule(m, t) == Four32(m, 4 * t)
  {
  }

  lemma {:induction false} Schedule1(m: seq<bv8>, t: nat)
    requires |m| == 64 && t < 80
    ensures Sha1.Schedule(m, t) == W1(m, t)
  {
    hide Sha1.Word, Sha1.Extend, Four32;
    if t < 16 {
      Words1(m, t);
    } else {
      Schedule1(m, t - 16);
      Schedule1(m, t - 14);
      Schedule1(m, t - 8);
      Schedule1(m, t - 3);
      Extends1(W1(m, t - 3), W1(m, t - 8), W1(m, t - 14), W1(m, t - 16));
    }
  }

  lemma Adds1(x: bv32, y: bv32)
    ensures Sha1.Add(x, y) == Plus32(x, y)
  {
  }

  lemma Sums1(a: bv32, f: bv32, e: bv32, w: bv32, k: bv32)
    ensures Sha1.T(a, f, e, w, k) == Sum32(Turn5(a), f, e, w, k)
  {
    hide Sha1.Rotl5, Turn5, Turn;
    Rotations1(a);
  }

  /** Five words of the sequence are the working variables after t rounds. */
  lemma {:induction false} Rounds1(h: seq<bv32>, m: seq<bv8>, t: nat)
    requires |h| == 5 && |m| == 64 && t <= 80
    ensures Sha1.Rounds(Sha1.StartVars(h), m, t) == Sha1.Vars(A1(h, m, t + 4), A1(h, m, t + 3),
      Turn(A1(h, m, t + 2)), Turn(A1(h, m, t + 1)), Turn(A1(h, m, t)))
  {
    hide Sha1.T, Sha1.F, Sha1.RoundConstant, Sha1.Schedule, Sha1.Rotl30, W1, F1, Sum32, Turn, Turn5;
    if t == 0 {
      Rotations1(h[2]);
      Rotations1(h[3]);
      Rotations1(h[4]);
    } else {
      Rounds1(h, m, t - 1);
      Schedule1(m, t - 1);
      var v := Sha1.Rounds(Sha1.StartVars(h), m, t - 1);
      Rotations1(v.a);
      Rotations1(v.b);
      Functions1(t - 1, v.b, v.c, v.d);
      Sums1(v.a, F1(t - 1, v.b, v.c, v.d), v.e, W1(m, t - 1), Sha1.RoundConstant(t - 1));
    }
  }

  /** The compression function adds the last five words of the sequence to the hash value. */
  lemma Compress1(h: seq<bv32>, m: seq<bv8>)
    requires |h| == 5 && |m| == 64
    ensures Sha1.Compress(h, m) == [Plus32(h[0], A1(h, m, 84)), Plus32(h[1], A1(h, m, 83)),
      Plus32(h[2], Turn(A1(h, m, 82))), Plus32(h[3], Turn(A1(h, m, 81))), Plus32(h[4], Turn(A1(h, m, 80)))]
  {
    hide Sha1.Rounds, A1, Sha1.Add, Turn, Plus32;
    Rounds1(h, m, 80);
    var v := Sha1.Rounds(Sha1.StartVars(h), m, 80);
    Adds1(h[0], v.a);
    Adds1(h[1], v.b);
    Adds1(h[2], v.c);
    Adds1(h[3], v.d);
    Adds1(h[4], v.e);
  }

}
