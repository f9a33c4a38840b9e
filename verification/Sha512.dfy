/** The compression function of SHA-384 and SHA-512 (sha384-512.c). */
module Sha512 {

  /** The constants of section 4.2 of FIPS 180-2. */
  function K(t: nat): bv64
    requires t < 80
  {
    if t < 16 then [
      0x428a2f98d728ae22, 0x7137449123ef65cd, 0xb5c0fbcfec4d3b2f, 0xe9b5dba58189dbbc,
      0x3956c25bf348b538, 0x59f111f1b605d019, 0x923f82a4af194f9b, 0xab1c5ed5da6d8118,
      0xd807aa98a3030242, 0x12835b0145706fbe, 0x243185be4ee4b28c, 0x550c7dc3d5ffb4e2,
      0x72be5d74f27b896f, 0x80deb1fe3b1696b1, 0x9bdc06a725c71235, 0xc19bf174cf692694
    ][t] else if t < 32 then [
      0xe49b69c19ef14ad2, 0xefbe4786384f25e3, 0x0fc19dc68b8cd5b5, 0x240ca1cc77ac9c65,
      0x2de92c6f592b0275, 0x4a7484aa6ea6e483, 0x5cb0a9dcbd41fbd4, 0x76f988da831153b5,
      0x983e5152ee66dfab, 0xa831c66d2db43210, 0xb00327c898fb213f, 0xbf597fc7beef0ee4,
      0xc6e00bf33da88fc2, 0xd5a79147930aa725, 0x06ca6351e003826f, 0x142929670a0e6e70
    ][t - 16] else if t < 48 then [
      0x27b70a8546d22ffc, 0x2e1b21385c26c926, 0x4d2c6dfc5ac42aed, 0x53380d139d95b3df,
      0x650a73548baf63de, 0x766a0abb3c77b2a8, 0x81c2c92e47edaee6, 0x92722c851482353b,
      0xa2bfe8a14cf10364, 0xa81a664bbc423001, 0xc24b8b70d0f89791, 0xc76c51a30654be30,
      0xd192e819d6ef5218, 0xd69906245565a910, 0xf40e35855771202a, 0x106aa07032bbd1b8
    ][t - 32] else if t < 64 then [
      0x19a4c116b8d2d0c8, 0x1e376c085141ab53, 0x2748774cdf8eeb99, 0x34b0bcb5e19b48a8,
      0x391c0cb3c5c95a63, 0x4ed8aa4ae3418acb, 0x5b9cca4f7763e373, 0x682e6ff3d6b2b8a3,
      0x748f82ee5defb2fc, 0x78a5636f43172f60, 0x84c87814a1f0ab72, 0x8cc702081a6439ec,
      0x90befffa23631e28, 0xa4506cebde82bde9, 0xbef9a3f7b2c67915, 0xc67178f2e372532b
    ][t - 48] else [
      0xca273eceea26619c, 0xd186b8c721c0c207, 0xeada7dd6cde0eb1e, 0xf57d4f7fee6ed178,
      0x06f067aa72176fba, 0x0a637dc5a2c898a6, 0x113f9804bef90dae, 0x1b710b35131c471b,
      0x28db77f523047d84, 0x32caab7b40c72493, 0x3c9ebe0a15c9bebc, 0x431d67c49c100d4c,
      0x4cc5d4becb3e42b6, 0x597f299cfc657e2a, 0x5fcb6fab3ad6faec, 0x6c44198c4a475817
    ][t - 64]
  }

  /** Addition modulo 2^64. */
  function Add(x: bv64, y: bv64): bv64 { x + y }

  // ---- Section 4.1 of FIPS 180-2 ----

  function Ch(x: bv64, y: bv64, z: bv64): bv64 { (x & y) ^ (!x & z) }

  function Maj(x: bv64, y: bv64, z: bv64): bv64 { (x & y) ^ (x & z) ^ (y & z) }

  function BigSigma0(x: bv64): bv64 { ((x >> 28) | (x << 36)) ^ ((x >> 34) | (x << 30)) ^ ((x >> 39) | (x << 25)) }

  function BigSigma1(x: bv64): bv64 { ((x >> 14) | (x << 50)) ^ ((x >> 18) | (x << 46)) ^ ((x >> 41) | (x << 23)) }

  function SmallSigma0(x: bv64): bv64 { ((x >> 1) | (x << 63)) ^ ((x >> 8) | (x << 56)) ^ (x >> 7) }

  function SmallSigma1(x: bv64): bv64 { ((x >> 19) | (x << 45)) ^ ((x >> 61) | (x << 3)) ^ (x >> 6) }

  // ---- Section 6.3.2 of FIPS 180-2, as recurrences over t ----

  /** A word from its bytes, most significant byte first. */
  function Word(b0: bv8, b1: bv8, b2: bv8, b3: bv8, b4: bv8, b5: bv8, b6: bv8, b7: bv8): bv64 {
    (b0 as bv64 << 56) | (b1 as bv64 << 48) | (b2 as bv64 << 40) | (b3 as bv64 << 32) |
    (b4 as bv64 << 24) | (b5 as bv64 << 16) | (b6 as bv64 << 8) | b7 as bv64
  }

  function BlockWord(m: seq<bv8>, t: nat): bv64
    requires |m| == 128 && t < 16
  {
    Word(m[8 * t], m[8 * t + 1], m[8 * t + 2], m[8 * t + 3], m[8 * t + 4], m[8 * t + 5], m[8 * t + 6], m[8 * t + 7])
  }

  /** A later word of the message schedule from four earlier ones. */
  function Extend(w2: bv64, w7: bv64, w15: bv64, w16: bv64): bv64 {
    SmallSigma1(w2) + w7 + SmallSigma0(w15) + w16
  }

  /** The message schedule W(t). */
  function Schedule(m: seq<bv8>, t: nat): bv64
    requires |m| == 128 && t < 80
  {
    if t < 16 then BlockWord(m, t)
    else Extend(Schedule(m, t - 2), Schedule(m, t - 7), Schedule(m, t - 15), Schedule(m, t - 16))
  }

  /** The working variables a to h. */
  datatype Vars = Vars(a: bv64, b: bv64, c: bv64, d: bv64, e: bv64, f: bv64, g: bv64, h: bv64)

  function T1(e: bv64, f: bv64, g: bv64, h: bv64, k: bv64, w: bv64): bv64 {
    h + BigSigma1(e) + Ch(e, f, g) + k + w
  }

  function T2(a: bv64, b: bv64, c: bv64): bv64 {
    BigSigma0(a) + Maj(a, b, c)
  }

  function Round(v: Vars, k: bv64, w: bv64): Vars {
    var t1, t2 := T1(v.e, v.f, v.g, v.h, k, w), T2(v.a, v.b, v.c);
    Vars(Add(t1, t2), v.a, v.b, v.c, Add(v.d, t1), v.e, v.f, v.g)
  }

  function Rounds(v: Vars, m: seq<bv8>, t: nat): Vars
    requires |m| == 128 && t <= 80
  {
    if t == 0 then v else Round(Rounds(v, m, t - 1), K(t - 1), Schedule(m, t - 1))
  }

  function StartVars(hash: seq<bv64>): Vars
    requires |hash| == 8
  {
    Vars(hash[0], hash[1], hash[2], hash[3], hash[4], hash[5], hash[6], hash[7])
  }

  function AddVars(hash: seq<bv64>, v: Vars): seq<bv64>
    requires |hash| == 8
  {
    [Add(hash[0], v.a), Add(hash[1], v.b), Add(hash[2], v.c), Add(hash[3], v.d),
     Add(hash[4], v.e), Add(hash[5], v.f), Add(hash[6], v.g), Add(hash[7], v.h)]
  }

  /** The hash value H(i) computed from H(i-1) and message block m. */
  function Compress(hash: seq<bv64>, m: seq<bv8>): (r: seq<bv64>)
    requires |hash| == 8 && |m| == 128
    ensures |r| == 8
  {
    AddVars(hash, Rounds(StartVars(hash), m, 80))
  }

  /** The two loops that fill the array W front to back. */
  method PrepareSchedule(block: array<bv8>) returns (W: array<bv64>)
    requires block.Length >= 128
    ensures fresh(W) && W.Length == 80
    ensures forall i :: 0 <= i < 80 ==> W[i] == Schedule(block[..128], i)
  {
    hide Word, Extend;
    ghost var m := block[..128];
    W := new bv64[80];
    for t := 0 to 16
      invariant forall i :: 0 <= i < t ==> W[i] == Schedule(m, i)
    {
      W[t] := Word(block[8 * t], block[8 * t + 1], block[8 * t + 2], block[8 * t + 3], block[8 * t + 4], block[8 * t + 5], block[8 * t + 6], block[8 * t + 7]);
    }
    for t := 16 to 80
      invariant forall i :: 0 <= i < t ==> W[i] == Schedule(m, i)
    {
      W[t] := Extend(W[t - 2], W[t - 7], W[t - 15], W[t - 16]);
    }
  }

  /** The main loop: A to H are shifted once a round. */
  method RunRounds(start: Vars, block: array<bv8>) returns (v: Vars)
    requires block.Length >= 128
    ensures v == Rounds(start, block[..128], 80)
  {
    hide Schedule, Add, T1, T2;
    ghost var m := block[..128];
    var W := PrepareSchedule(block);
    var Vars(A, B, C, D, E, F, G, H) := start;
    for t := 0 to 80
      invariant Vars(A, B, C, D, E, F, G, H) == Rounds(start, m, t)
    {
      var temp1 := T1(E, F, G, H, K(t), W[t]);
      var temp2 := T2(A, B, C);
      H := G;
      G := F;
      F := E;
      E := Add(D, temp1);
      D := C;
      C := B;
      B := A;
      A := Add(temp1, temp2);
    }
    v := Vars(A, B, C, D, E, F, G, H);
  }

  /** The block step: the hash array is updated in place. */
  method ProcessMessageBlock(hash: array<bv64>, block: array<bv8>)
    requires hash.Length == 8 && block.Length >= 128
    modifies hash
    ensures hash[..] == Compress(old(hash[..]), block[..128])
  {
    hide Rounds, Add, K;
    ghost var before := hash[..];
    var v := RunRounds(Vars(hash[0], hash[1], hash[2], hash[3], hash[4], hash[5], hash[6], hash[7]), block);
    hash[0] := Add(hash[0], v.a);
    hash[1] := Add(hash[1], v.b);
    hash[2] := Add(hash[2], v.c);
    hash[3] := Add(hash[3], v.d);
    hash[4] := Add(hash[4], v.e);
    hash[5] := Add(hash[5], v.f);
    hash[6] := Add(hash[6], v.g);
    hash[7] := Add(hash[7], v.h);
    assert hash[..] == AddVars(before, v);
  }
}
