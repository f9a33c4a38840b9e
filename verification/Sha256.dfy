/** The compression function of SHA-224 and SHA-256 (sha224.c). */
module Sha256 {

  /** The constants of section 4.2 of FIPS 180-2. */
  function K(t: nat): bv32
    requires t < 64
  {
    if t < 16 then [
      0x428a2f98, 0x71374491, 0xb5c0fbcf, 0xe9b5dba5, 0x3956c25b, 0x59f111f1, 0x923f82a4, 0xab1c5ed5,
      0xd807aa98, 0x12835b01, 0x243185be, 0x550c7dc3, 0x72be5d74, 0x80deb1fe, 0x9bdc06a7, 0xc19bf174
    ][t] else if t < 32 then [
      0xe49b69c1, 0xefbe4786, 0x0fc19dc6, 0x240ca1cc, 0x2de92c6f, 0x4a7484aa, 0x5cb0a9dc, 0x76f988da,
      0x983e5152, 0xa831c66d, 0xb00327c8, 0xbf597fc7, 0xc6e00bf3, 0xd5a79147, 0x06ca6351, 0x14292967
    ][t - 16] else if t < 48 then [
      0x27b70a85, 0x2e1b2138, 0x4d2c6dfc, 0x53380d13, 0x650a7354, 0x766a0abb, 0x81c2c92e, 0x92722c85,
      0xa2bfe8a1, 0xa81a664b, 0xc24b8b70, 0xc76c51a3, 0xd192e819, 0xd6990624, 0xf40e3585, 0x106aa070
    ][t - 32] else [
      0x19a4c116, 0x1e376c08, 0x2748774c, 0x34b0bcb5, 0x391c0cb3, 0x4ed8aa4a, 0x5b9cca4f, 0x682e6ff3,
      0x748f82ee, 0x78a5636f, 0x84c87814, 0x8cc70208, 0x90befffa, 0xa4506ceb, 0xbef9a3f7, 0xc67178f2
    ][t - 48]
  }

  /** Addition modulo 2^32. */
  function Add(x: bv32, y: bv32): bv32 { x + y }

  // ---- Section 4.1 of FIPS 180-2 ----

  function Ch(x: bv32, y: bv32, z: bv32): bv32 { (x & y) ^ (!x & z) }

  function Maj(x: bv32, y: bv32, z: bv32): bv32 { (x & y) ^ (x & z) ^ (y & z) }

  function BigSigma0(x: bv32): bv32 { ((x >> 2) | (x << 30)) ^ ((x >> 13) | (x << 19)) ^ ((x >> 22) | (x << 10)) }

  function BigSigma1(x: bv32): bv32 { ((x >> 6) | (x << 26)) ^ ((x >> 11) | (x << 21)) ^ ((x >> 25) | (x << 7)) }

  function SmallSigma0(x: bv32): bv32 { ((x >> 7) | (x << 25)) ^ ((x >> 18) | (x << 14)) ^ (x >> 3) }

  function SmallSigma1(x: bv32): bv32 { ((x >> 17) | (x << 15)) ^ ((x >> 19) | (x << 13)) ^ (x >> 10) }

  // ---- Section 6.2.2 of FIPS 180-2, as recurrences over t ----

  /** A word from its bytes, most significant byte first. */
  function Word(b0: bv8, b1: bv8, b2: bv8, b3: bv8): bv32 {
    (b0 as bv32 << 24) | (b1 as bv32 << 16) | (b2 as bv32 << 8) | b3 as bv32
  }

  function BlockWord(m: seq<bv8>, t: nat): bv32
    requires |m| == 64 && t < 16
  {
    Word(m[4 * t], m[4 * t + 1], m[4 * t + 2], m[4 * t + 3])
  }

  /** A later word of the message schedule from four earlier ones. */
  function Extend(w2: bv32, w7: bv32, w15: bv32, w16: bv32): bv32 {
    SmallSigma1(w2) + w7 + SmallSigma0(w15) + w16
  }

  /** The message schedule W(t). */
  function Schedule(m: seq<bv8>, t: nat): bv32
    requires |m| == 64 && t < 64
  {
    if t < 16 then BlockWord(m, t)
    else Extend(Schedule(m, t - 2), Schedule(m, t - 7), Schedule(m, t - 15), Schedule(m, t - 16))
  }

  /** The working variables a to h. */
  datatype Vars = Vars(a: bv32, b: bv32, c: bv32, d: bv32, e: bv32, f: bv32, g: bv32, h: bv32)

  function T1(e: bv32, f: bv32, g: bv32, h: bv32, k: bv32, w: bv32): bv32 {
    h + BigSigma1(e) + Ch(e, f, g) + k + w
  }

  function T2(a: bv32, b: bv32, c: bv32): bv32 {
    BigSigma0(a) + Maj(a, b, c)
  }

  function Round(v: Vars, k: bv32, w: bv32): Vars {
    var t1, t2 := T1(v.e, v.f, v.g, v.h, k, w), T2(v.a, v.b, v.c);
    Vars(Add(t1, t2), v.a, v.b, v.c, Add(v.d, t1), v.e, v.f, v.g)
  }

  function Rounds(v: Vars, m: seq<bv8>, t: nat): Vars
    requires |m| == 64 && t <= 64
  {
    if t == 0 then v else Round(Rounds(v, m, t - 1), K(t - 1), Schedule(m, t - 1))
  }

  function StartVars(hash: seq<bv32>): Vars
    requires |hash| == 8
  {
    Vars(hash[0], hash[1], hash[2], hash[3], hash[4], hash[5], hash[6], hash[7])
  }

  function AddVars(hash: seq<bv32>, v: Vars): seq<bv32>
    requires |hash| == 8
  {
    [Add(hash[0], v.a), Add(hash[1], v.b), Add(hash[2], v.c), Add(hash[3], v.d),
     Add(hash[4], v.e), Add(hash[5], v.f), Add(hash[6], v.g), Add(hash[7], v.h)]
  }

  /** The hash value H(i) computed from H(i-1) and message block m. */
  function Compress(hash: seq<bv32>, m: seq<bv8>): (r: seq<bv32>)
    requires |hash| == 8 && |m| == 64
    ensures |r| == 8
  {
    AddVars(hash, Rounds(StartVars(hash), m, 64))
  }

  /** The two loops that fill the array W front to back. */
  method PrepareSchedule(block: array<bv8>) returns (W: array<bv32>)
    requires block.Length >= 64
    ensures fresh(W) && W.Length == 64
    ensures forall i :: 0 <= i < 64 ==> W[i] == Schedule(block[..64], i)
  {
    hide Word, Extend;
    ghost var m := block[..64];
    W := new bv32[64];
    for t := 0 to 16
      invariant forall i :: 0 <= i < t ==> W[i] == Schedule(m, i)
    {
      W[t] := Word(block[4 * t], block[4 * t + 1], block[4 * t + 2], block[4 * t + 3]);
    }
    for t := 16 to 64
      invariant forall i :: 0 <= i < t ==> W[i] == Schedule(m, i)
    {
      W[t] := Extend(W[t - 2], W[t - 7], W[t - 15], W[t - 16]);
    }
  }

  /** The main loop: A to H are shifted once a round. */
  method RunRounds(start: Vars, block: array<bv8>) returns (v: Vars)
    requires block.Length >= 64
    ensures v == Rounds(start, block[..64], 64)
  {
    hide Schedule, Add, T1, T2;
    ghost var m := block[..64];
    var W := PrepareSchedule(block);
    var Vars(A, B, C, D, E, F, G, H) := start;
    for t := 0 to 64
      invariant Vars(A, B, C, D, E, F, G, H) == Rounds(start, m, t)
    {
      var temp1 := T1(E, F, G, H, K(t), W[t]);
      var temp2 := T2(A, B, C);
      H := G;
      G := F;
      F := E;
      E := Add(D, temp1);
      D := C;
      C := B;
      B := A;
      A := Add(temp1, temp2);
    }
    v := Vars(A, B, C, D, E, F, G, H);
  }

  /** The block step: the hash array is updated in place. */
  method ProcessMessageBlock(hash: array<bv32>, block: array<bv8>)
    requires hash.Length == 8 && block.Length >= 64
    modifies hash
    ensures hash[..] == Compress(old(hash[..]), block[..64])
  {
    hide Rounds, Add, K;
    ghost var before := hash[..];
    var v := RunRounds(Vars(hash[0], hash[1], hash[2], hash[3], hash[4], hash[5], hash[6], hash[7]), block);
    hash[0] := Add(hash[0], v.a);
    hash[1] := Add(hash[1], v.b);
    hash[2] := Add(hash[2], v.c);
    hash[3] := Add(hash[3], v.d);
    hash[4] := Add(hash[4], v.e);
    hash[5] := Add(hash[5], v.f);
    hash[6] := Add(hash[6], v.g);
    hash[7] := Add(hash[7], v.h);
    assert hash[..] == AddVars(before, v);
  }
}
