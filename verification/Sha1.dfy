/** The compression function of SHA-1 (sha1.c). */
module Sha1 {

  const K: seq<bv32> := [0x5a827999, 0x6ed9eba1, 0x8f1bbcdc, 0xca62c1d6]

  /** Addition modulo 2^32. */
  function Add(x: bv32, y: bv32): bv32 { x + y }

  // ---- Section 4.1.1 of FIPS 180-2 ----

  function Ch(x: bv32, y: bv32, z: bv32): bv32 { (x & y) ^ (!x & z) }

  function Parity(x: bv32, y: bv32, z: bv32): bv32 { x ^ y ^ z }

  function Maj(x: bv32, y: bv32, z: bv32): bv32 { (x & y) ^ (x & z) ^ (y & z) }

  function F(t: nat, x: bv32, y: bv32, z: bv32): bv32
    requires t < 80
  {
    if t < 20 then Ch(x, y, z) else if t < 40 then Parity(x, y, z) else if t < 60 then Maj(x, y, z) else Parity(x, y, z)
  }

  function RoundConstant(t: nat): bv32
    requires t < 80
  {
    if t < 20 then K[0] else if t < 40 then K[1] else if t < 60 then K[2] else K[3]
  }

  function Rotl5(x: bv32): bv32 { (x << 5) | (x >> 27) }

  function Rotl30(x: bv32): bv32 { (x << 30) | (x >> 2) }

  // ---- Section 6.1.2 of FIPS 180-2, as recurrences over t ----

  /** A word from its bytes, most significant byte first. */
  function Word(b0: bv8, b1: bv8, b2: bv8, b3: bv8): bv32 {
    (b0 as bv32 << 24) | (b1 as bv32 << 16) | (b2 as bv32 << 8) | b3 as bv32
  }

  /** A later word of the message schedule from four earlier ones. */
  function Extend(w3: bv32, w8: bv32, w14: bv32, w16: bv32): bv32 {
    var x := w3 ^ w8 ^ w14 ^ w16;
    (x << 1) | (x >> 31)
  }

  /** The message schedule W(t). */
  function Schedule(m: seq<bv8>, t: nat): bv32
    requires |m| == 64 && t < 80
  {
    if t < 16 then Word(m[4 * t], m[4 * t + 1], m[4 * t + 2], m[4 * t + 3])
    else Extend(Schedule(m, t - 3), Schedule(m, t - 8), Schedule(m, t - 14), Schedule(m, t - 16))
  }

  /** The working variables a to e. */
  datatype Vars = Vars(a: bv32, b: bv32, c: bv32, d: bv32, e: bv32)

  /** The sum that FIPS 180-2 calls T. */
  function T(a: bv32, f: bv32, e: bv32, w: bv32, k: bv32): bv32 {
    Rotl5(a) + f + e + w + k
  }

  function Round(v: Vars, t: nat, w: bv32): Vars
    requires t < 80
  {
    Vars(T(v.a, F(t, v.b, v.c, v.d), v.e, w, RoundConstant(t)), v.a, Rotl30(v.b), v.c, v.d)
  }

  function Rounds(v: Vars, m: seq<bv8>, t: nat): Vars
    requires |m| == 64 && t <= 80
  {
    if t == 0 then v else Round(Rounds(v, m, t - 1), t - 1, Schedule(m, t - 1))
  }

  function StartVars(hash: seq<bv32>): Vars
    requires |hash| == 5
  {
    Vars(hash[0], hash[1], hash[2], hash[3], hash[4])
  }

  function AddVars(hash: seq<bv32>, v: Vars): seq<bv32>
    requires |hash| == 5
  {
    [Add(hash[0], v.a), Add(hash[1], v.b), Add(hash[2], v.c), Add(hash[3], v.d), Add(hash[4], v.e)]
  }

  /** The hash value H(i) computed from H(i-1) and message block m. */
  function Compress(hash: seq<bv32>, m: seq<bv8>): (r: seq<bv32>)
    requires |hash| == 5 && |m| == 64
    ensures |r| == 5
  {
    AddVars(hash, Rounds(StartVars(hash), m, 80))
  }

  /** The two loops that fill the array W front to back. */
  method PrepareSchedule(block: array<bv8>) returns (W: array<bv32>)
    requires block.Length >= 64
    ensures fresh(W) && W.Length == 80
    ensures forall i :: 0 <= i < 80 ==> W[i] == Schedule(block[..64], i)
  {
    hide Word, Extend;
    ghost var m := block[..64];
    W := new bv32[80];
    for t := 0 to 16
      invariant forall i :: 0 <= i < t ==> W[i] == Schedule(m, i)
    {
      W[t] := Word(block[t * 4], block[t * 4 + 1], block[t * 4 + 2], block[t * 4 + 3]);
    }
    for t := 16 to 80
      invariant forall i :: 0 <= i < t ==> W[i] == Schedule(m, i)
    {
      W[t] := Extend(W[t - 3], W[t - 8], W[t - 14], W[t - 16]);
    }
  }

  /** The main loop, in its four stretches of twenty rounds. */
  method RunRounds(start: Vars, block: array<bv8>) returns (v: Vars)
    requires block.Length >= 64
    ensures v == Rounds(start, block[..64], 80)
  {
    hide Schedule, T, Ch, Maj, Parity, Rotl30, Rotl5, Add, Word, Extend, Compress, StartVars, AddVars;
    ghost var m := block[..64];
    var W := PrepareSchedule(block);
    var Vars(A, B, C, D, E) := start;
    for t := 0 to 20
      invariant Vars(A, B, C, D, E) == Rounds(start, m, t)
    {
      var temp := T(A, Ch(B, C, D), E, W[t], K[0]);
      E := D;
      D := C;
      C := Rotl30(B);
      B := A;
      A := temp;
    }
    for t := 20 to 40
      invariant Vars(A, B, C, D, E) == Rounds(start, m, t)
    {
      var temp := T(A, Parity(B, C, D), E, W[t], K[1]);
      E := D;
      D := C;
      C := Rotl30(B);
      B := A;
      A := temp;
    }
    for t := 40 to 60
      invariant Vars(A, B, C, D, E) == Rounds(start, m, t)
    {
      var temp := T(A, Maj(B, C, D), E, W[t], K[2]);
      E := D;
      D := C;
      C := Rotl30(B);
      B := A;
      A := temp;
    }
    for t := 60 to 80
      invariant Vars(A, B, C, D, E) == Rounds(start, m, t)
    {
      var temp := T(A, Parity(B, C, D), E, W[t], K[3]);
      E := D;
      D := C;
      C := Rotl30(B);
      B := A;
      A := temp;
    }
    v := Vars(A, B, C, D, E);
  }

  /** The block step: the hash array is updated in place. */
  method ProcessMessageBlock(hash: array<bv32>, block: array<bv8>)
    requires hash.Length == 5 && block.Length >= 64
    modifies hash
    ensures hash[..] == Compress(old(hash[..]), block[..64])
  {
    hide Rounds, Add;
    ghost var before := hash[..];
    var v := RunRounds(Vars(hash[0], hash[1], hash[2], hash[3], hash[4]), block);
    hash[0], hash[1], hash[2], hash[3], hash[4] :=
      Add(hash[0], v.a), Add(hash[1], v.b), Add(hash[2], v.c), Add(hash[3], v.d), Add(hash[4], v.e);
    assert hash[..] == AddVars(before, v);
  }
}
