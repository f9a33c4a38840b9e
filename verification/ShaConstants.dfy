/** Where the constants of the five algorithms come from: the digits of roots (FIPS 180-2). */
module ShaConstants {
  import opened ShaSpec
  import Sha1
  import Sha256
  import Sha512

  /** The sizes in bits of figure 1 of FIPS 180-2, and of the length field. */
  lemma Sizes(v: ShaVersion)
    ensures 8 * HashSize(v) == match v { case SHA1 => 160 case SHA224 => 224 case SHA256 => 256 case SHA384 => 384 case SHA512 => 512 }
    ensures 8 * BlockSize(v) == if v.SHA384? || v.SHA512? then 1024 else 512
    ensures 8 * LengthSize(v) == if v.SHA384? || v.SHA512? then 128 else 64
  {
  }

  /** The first eighty primes. */
  function Prime(t: nat): nat
    requires t < 80
  {
    if t < 16 then [2, 3, 5, 7, 11, 13, 17, 19, 23, 29, 31, 37, 41, 43, 47, 53][t]
    else if t < 32 then [59, 61, 67, 71, 73, 79, 83, 89, 97, 101, 103, 107, 109, 113, 127, 131][t - 16]
    else if t < 48 then [137, 139, 149, 151, 157, 163, 167, 173, 179, 181, 191, 193, 197, 199, 211, 223][t - 32]
    else if t < 64 then [227, 229, 233, 239, 241, 251, 257, 263, 269, 271, 277, 281, 283, 293, 307, 311][t - 48]
    else [313, 317, 331, 337, 347, 349, 353, 359, 367, 373, 379, 383, 389, 397, 401, 409][t - 64]
  }

  /** Whether k is the fraction of the cube root of p, to sixty-four binary places. */
  predicate CubeFraction(k: bv64, p: nat) {
    var whole := if p < 8 then 1 else if p < 27 then 2 else if p < 64 then 3
                 else if p < 125 then 4 else if p < 216 then 5 else if p < 343 then 6 else 7;
    var n := whole * 0x1_0000_0000_0000_0000 + k as nat;
    n * n * n <= p * 0x1_0000_0000_0000_0000_0000_0000_0000_0000_0000_0000_0000_0000 < (n + 1) * (n + 1) * (n + 1)
  }

  /** Whether k is the fraction of the square root of p, to sixty-four binary places. */
  predicate SquareFraction(k: bv64, p: nat) {
    var whole := if p < 4 then 1 else if p < 9 then 2 else if p < 16 then 3
                 else if p < 25 then 4 else if p < 36 then 5 else if p < 49 then 6 else 7;
    var n := whole * 0x1_0000_0000_0000_0000 + k as nat;
    n * n <= p * 0x1_0000_0000_0000_0000_0000_0000_0000_0000 < (n + 1) * (n + 1)
  }

  /** SHA-384 and SHA-512 use the fractions of the cube roots of the first eighty primes, SHA-224 and SHA-256
      the upper halves of the first sixty-four. */
  predicate FromCubeRoot(t: nat) {
    t < 80 && CubeFraction(Sha512.K(t), Prime(t)) && (t < 64 ==> Sha256.K(t) == (Sha512.K(t) >> 32) as bv32)
  }

  lemma Root(t: nat, k: bv64, p: nat)
    requires t < 80 && Sha512.K(t) == k && Prime(t) == p && CubeFraction(k, p)
    requires t < 64 ==> Sha256.K(t) == (k >> 32) as bv32
    ensures FromCubeRoot(t)
  {
    hide CubeFraction, Prime, Sha512.K, Sha256.K;
  }

  lemma Roots0(t: nat)
    requires 0 <= t < 5
    ensures FromCubeRoot(t)
  {
    hide FromCubeRoot;
    match t
    case 0 => Root(0, 0x428a2f98d728ae22, 2);
    case 1 => Root(1, 0x7137449123ef65cd, 3);
    case 2 => Root(2, 0xb5c0fbcfec4d3b2f, 5);
    case 3 => Root(3, 0xe9b5dba58189dbbc, 7);
    case _ => Root(4, 0x3956c25bf348b538, 11);
  }

  lemma Roots1(t: nat)
    requires 5 <= t < 10
    ensures FromCubeRoot(t)
  {
    hide FromCubeRoot;
    match t
    case 5 => Root(5, 0x59f111f1b605d019, 13);
    case 6 => Root(6, 0x923f82a4af194f9b, 17);
    case 7 => Root(7, 0xab1c5ed5da6d8118, 19);
    case 8 => Root(8, 0xd807aa98a3030242, 23);
    case _ => Root(9, 0x12835b0145706fbe, 29);
  }

  lemma Roots2(t: nat)
    requires 10 <= t < 15
    ensures FromCubeRoot(t)
  {
    hide FromCubeRoot;
    match t
    case 10 => Root(10, 0x243185be4ee4b28c, 31);
    case 11 => Root(11, 0x550c7dc3d5ffb4e2, 37);
    case 12 => Root(12, 0x72be5d74f27b896f, 41);
    case 13 => Root(13, 0x80deb1fe3b1696b1, 43);
    case _ => Root(14, 0x9bdc06a725c71235, 47);
  }

  lemma Roots3(t: nat)
    requires 15 <= t < 20
    ensures FromCubeRoot(t)
  {
    hide FromCubeRoot;
    match t
    case 15 => Root(15, 0xc19bf174cf692694, 53);
    case 16 => Root(16, 0xe49b69c19ef14ad2, 59);
    case 17 => Root(17, 0xefbe4786384f25e3, 61);
    case 18 => Root(18, 0x0fc19dc68b8cd5b5, 67);
    case _ => Root(19, 0x240ca1cc77ac9c65, 71);
  }

  lemma Roots4(t: nat)
    requires 20 <= t < 25
    ensures FromCubeRoot(t)
  {
    hide FromCubeRoot;
    match t
    case 20 => Root(20, 0x2de92c6f592b0275, 73);
    case 21 => Root(21, 0x4a7484aa6ea6e483, 79);
    case 22 => Root(22, 0x5cb0a9dcbd41fbd4, 83);
    case 23 => Root(23, 0x76f988da831153b5, 89);
    case _ => Root(24, 0x983e5152ee66dfab, 97);
  }

  lemma Roots5(t: nat)
    requires 25 <= t < 30
    ensures FromCubeRoot(t)
  {
    hide FromCubeRoot;
    match t
    case 25 => Root(25, 0xa831c66d2db43210, 101);
    case 26 => Root(26, 0xb00327c898fb213f, 103);
    case 27 => Root(27, 0xbf597fc7beef0ee4, 107);
    case 28 => Root(28, 0xc6e00bf33da88fc2, 109);
    case _ => Root(29, 0xd5a79147930aa725, 113);
  }

  lemma Roots6(t: nat)
    requires 30 <= t < 35
    ensures FromCubeRoot(t)
  {
    hide FromCubeRoot;
    match t
    case 30 => Root(30, 0x06ca6351e003826f, 127);
    case 31 => Root(31, 0x142929670a0e6e70, 131);
    case 32 => Root(32, 0x27b70a8546d22ffc, 137);
    case 33 => Root(33, 0x2e1b21385c26c926, 139);
    case _ => Root(34, 0x4d2c6dfc5ac42aed, 149);
  }

  lemma Roots7(t: nat)
    requires 35 <= t < 40
    ensures FromCubeRoot(t)
  {
    hide FromCubeRoot;
    match t
    case 35 => Root(35, 0x53380d139d95b3df, 151);
    case 36 => Root(36, 0x650a73548baf63de, 157);
    case 37 => Root(37, 0x766a0abb3c77b2a8, 163);
    case 38 => Root(38, 0x81c2c92e47edaee6, 167);
    case _ => Root(39, 0x92722c851482353b, 173);
  }

  lemma Roots8(t: nat)
    requires 40 <= t < 45
    ensures FromCubeRoot(t)
  {
    hide FromCubeRoot;
    match t
    case 40 => Root(40, 0xa2bfe8a14cf10364, 179);
    case 41 => Root(41, 0xa81a664bbc423001, 181);
    case 42 => Root(42, 0xc24b8b70d0f89791, 191);
    case 43 => Root(43, 0xc76c51a30654be30, 193);
    case _ => Root(44, 0xd192e819d6ef5218, 197);
  }

  lemma Roots9(t: nat)
    requires 45 <= t < 50
    ensures FromCubeRoot(t)
  {
    hide FromCubeRoot;
    match t
    case 45 => Root(45, 0xd69906245565a910, 199);
    case 46 => Root(46, 0xf40e35855771202a, 211);
    case 47 => Root(47, 0x106aa07032bbd1b8, 223);
    case 48 => Root(48, 0x19a4c116b8d2d0c8, 227);
    case _ => Root(49, 0x1e376c085141ab53, 229);
  }

  lemma Roots10(t: nat)
    requires 50 <= t < 55
    ensures FromCubeRoot(t)
  {
    hide FromCubeRoot;
    match t
    case 50 => Root(50, 0x2748774cdf8eeb99, 233);
    case 51 => Root(51, 0x34b0bcb5e19b48a8, 239);
    case 52 => Root(52, 0x391c0cb3c5c95a63, 241);
    case 53 => Root(53, 0x4ed8aa4ae3418acb, 251);
    case _ => Root(54, 0x5b9cca4f7763e373, 257);
  }

  lemma Roots11(t: nat)
    requires 55 <= t < 60
    ensures FromCubeRoot(t)
  {
    hide FromCubeRoot;
    match t
    case 55 => Root(55, 0x682e6ff3d6b2b8a3, 263);
    case 56 => Root(56, 0x748f82ee5defb2fc, 269);
    case 57 => Root(57, 0x78a5636f43172f60, 271);
    case 58 => Root(58, 0x84c87814a1f0ab72, 277);
    case _ => Root(59, 0x8cc702081a6439ec, 281);
  }

  lemma Roots12(t: nat)
    requires 60 <= t < 65
    ensures FromCubeRoot(t)
  {
    hide FromCubeRoot;
    match t
    case 60 => Root(60, 0x90befffa23631e28, 283);
    case 61 => Root(61, 0xa4506cebde82bde9, 293);
    case 62 => Root(62, 0xbef9a3f7b2c67915, 307);
    case 63 => Root(63, 0xc67178f2e372532b, 311);
    case _ => Root(64, 0xca273eceea26619c, 313);
  }

  lemma Roots13(t: nat)
    requires 65 <= t < 70
    ensures FromCubeRoot(t)
  {
    hide FromCubeRoot;
    match t
    case 65 => Root(65, 0xd186b8c721c0c207, 317);
    case 66 => Root(66, 0xeada7dd6cde0eb1e, 331);
    case 67 => Root(67, 0xf57d4f7fee6ed178, 337);
    case 68 => Root(68, 0x06f067aa72176fba, 347);
    case _ => Root(69, 0x0a637dc5a2c898a6, 349);
  }

  lemma Roots14(t: nat)
    requires 70 <= t < 75
    ensures FromCubeRoot(t)
  {
    hide FromCubeRoot;
    match t
    case 70 => Root(70, 0x113f9804bef90dae, 353);
    case 71 => Root(71, 0x1b710b35131c471b, 359);
    case 72 => Root(72, 0x28db77f523047d84, 367);
    case 73 => Root(73, 0x32caab7b40c72493, 373);
    case _ => Root(74, 0x3c9ebe0a15c9bebc, 379);
  }

  lemma Roots15(t: nat)
    requires 75 <= t < 80
    ensures FromCubeRoot(t)
  {
    hide FromCubeRoot;
    match t
    case 75 => Root(75, 0x431d67c49c100d4c, 383);
    case 76 => Root(76, 0x4cc5d4becb3e42b6, 389);
    case 77 => Root(77, 0x597f299cfc657e2a, 397);
    case 78 => Root(78, 0x5fcb6fab3ad6faec, 401);
    case _ => Root(79, 0x6c44198c4a475817, 409);
  }

  /** The constants of section 4.2 of FIPS 180-2. */
  lemma CubeRoots(t: nat)
    requires t < 80
    ensures CubeFraction(Sha512.K(t), Prime(t))
    ensures t < 64 ==> Sha256.K(t) == (Sha512.K(t) >> 32) as bv32
  {
    hide CubeFraction, Prime, Sha512.K, Sha256.K;
    match t / 5
    case 0 => Roots0(t);
    case 1 => Roots1(t);
    case 2 => Roots2(t);
    case 3 => Roots3(t);
    case 4 => Roots4(t);
    case 5 => Roots5(t);
    case 6 => Roots6(t);
    case 7 => Roots7(t);
    case 8 => Roots8(t);
    case 9 => Roots9(t);
    case 10 => Roots10(t);
    case 11 => Roots11(t);
    case 12 => Roots12(t);
    case 13 => Roots13(t);
    case 14 => Roots14(t);
    case _ => Roots15(t);
  }

  /** SHA-512 starts from the fractions of the square roots of the first eight primes and SHA-256 from their upper
      halves; SHA-384 from those of the next eight primes and SHA-224 from their lower halves. */
  predicate FromSquareRoot(i: nat) {
    && i < 8
    && SquareFraction(InitialHash(SHA512).w64[i], Prime(i))
    && InitialHash(SHA256).w32[i] == (InitialHash(SHA512).w64[i] >> 32) as bv32
    && SquareFraction(InitialHash(SHA384).w64[i], Prime(i + 8))
    && InitialHash(SHA224).w32[i] == (InitialHash(SHA384).w64[i] & 0xffff_ffff) as bv32
  }

  lemma SquareRoot(i: nat, k: bv64, p: nat, l: bv64, q: nat)
    requires i < 8 && InitialHash(SHA512).w64[i] == k && Prime(i) == p && SquareFraction(k, p)
    requires InitialHash(SHA256).w32[i] == (k >> 32) as bv32
    requires InitialHash(SHA384).w64[i] == l && Prime(i + 8) == q && SquareFraction(l, q)
    requires InitialHash(SHA224).w32[i] == (l & 0xffff_ffff) as bv32
    ensures FromSquareRoot(i)
  {
    hide SquareFraction, Prime, InitialHash;
  }

  /** The initial hash values of sections 5.3.2 to 5.3.5 of FIPS 180-2. */
  lemma SquareRoots(i: nat)
    requires i < 8
    ensures FromSquareRoot(i)
  {
    hide FromSquareRoot;
    match i
    case 0 => SquareRoot(0, 0x6a09e667f3bcc908, 2, 0xcbbb9d5dc1059ed8, 23);
    case 1 => SquareRoot(1, 0xbb67ae8584caa73b, 3, 0x629a292a367cd507, 29);
    case 2 => SquareRoot(2, 0x3c6ef372fe94f82b, 5, 0x9159015a3070dd17, 31);
    case 3 => SquareRoot(3, 0xa54ff53a5f1d36f1, 7, 0x152fecd8f70e5939, 37);
    case 4 => SquareRoot(4, 0x510e527fade682d1, 11, 0x67332667ffc00b31, 41);
    case 5 => SquareRoot(5, 0x9b05688c2b3e6c1f, 13, 0x8eb44a8768581511, 43);
    case 6 => SquareRoot(6, 0x1f83d9abfb41bd6b, 17, 0xdb0c2e0d64f98fa7, 47);
    case _ => SquareRoot(7, 0x5be0cd19137e2179, 19, 0x47b5481dbefa4fa4, 53);
  }

  /** Whether k is the square root of p, to thirty binary places. */
  predicate SmallRoot(k: bv32, p: nat) {
    var n := k as nat;
    n * n <= p * 0x1000_0000_0000_0000 < (n + 1) * (n + 1)
  }

  /** Four bytes as a number, least significant first. */
  function Little(b0: bv32, b1: bv32, b2: bv32, b3: bv32): bv32 {
    b0 + 0x100 * b1 + 0x1_0000 * b2 + 0x100_0000 * b3
  }

  /** SHA-1 starts from the hexadecimal digits counted up and down, and uses the roots of 2, 3, 5 and 10. */
  lemma Constants1(t: nat)
    requires t < 80
    ensures InitialHash(SHA1).w32 == [Little(0x01, 0x23, 0x45, 0x67), Little(0x89, 0xab, 0xcd, 0xef),
      Little(0xfe, 0xdc, 0xba, 0x98), Little(0x76, 0x54, 0x32, 0x10), Little(0xf0, 0xe1, 0xd2, 0xc3)]
    ensures SmallRoot(Sha1.RoundConstant(t), if t < 20 then 2 else if t < 40 then 3 else if t < 60 then 5 else 10)
  {
  }
}
