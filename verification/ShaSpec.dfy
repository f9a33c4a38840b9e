/** The five secure hash algorithms as FIPS 180-2 defines them: pad the bit string, cut it
    into blocks and fold the compression function over the blocks. */
module ShaSpec {
  import opened Bits
  import Arithmetic
  import Sha1
  import Sha256
  import Sha512

  datatype ShaVersion = SHA1 | SHA224 | SHA256 | SHA384 | SHA512

  /** A hash value H(i): five or eight 32-bit words, or eight 64-bit words. */
  datatype HashValue = H32(w32: seq<bv32>) | H64(w64: seq<bv64>)

  /** The algorithms on 64-bit words. */
  predicate Wide(v: ShaVersion) { v.SHA384? || v.SHA512? }

  predicate Sized(v: ShaVersion, h: HashValue) {
    if v.SHA1? then h.H32? && |h.w32| == 5
    else if Wide(v) then h.H64? && |h.w64| == 8
    else h.H32? && |h.w32| == 8
  }

  /** Bytes in a message block (USHABlockSize). */
  function BlockSize(v: ShaVersion): nat {
    if Wide(v) then 128 else 64
  }

  /** Bytes of the last, incomplete block after n bytes. */
  function Rest(v: ShaVersion, n: nat): (r: nat)
    ensures r < BlockSize(v) && r <= n
  {
    if Wide(v) then n % 128 else n % 64
  }

  /** Bytes in a digest (USHAHashSize). */
  function HashSize(v: ShaVersion): nat {
    match v
    case SHA1 => 20
    case SHA224 => 28
    case SHA256 => 32
    case SHA384 => 48
    case SHA512 => 64
  }

  /** Bytes in the length field that ends the padding. */
  function LengthSize(v: ShaVersion): nat {
    if Wide(v) then 16 else 8
  }

  /** Values of one of the two words of the bit counter. */
  function WordModulus(v: ShaVersion): nat {
    if Wide(v) then 0x1_0000_0000_0000_0000 else 0x1_0000_0000
  }

  /** The (uint32_t) or (uint64_t) wrap-around. */
  function Wrap(v: ShaVersion, n: nat): (r: nat)
    ensures r < WordModulus(v)
  {
    if Wide(v) then n % 0x1_0000_0000_0000_0000 else n % 0x1_0000_0000
  }

  /** The number held in two words. */
  function TwoWords(v: ShaVersion, high: nat, low: nat): nat {
    if Wide(v) then 0x1_0000_0000_0000_0000 * high + low else 0x1_0000_0000 * high + low
  }

  /** Messages have fewer bits than this. */
  function BitLimit(v: ShaVersion): nat {
    if Wide(v) then 0x1_0000_0000_0000_0000_0000_0000_0000_0000 else 0x1_0000_0000_0000_0000
  }

  lemma CounterStep(v: ShaVersion, high: nat, low: nat, n: nat)
    requires high < WordModulus(v) && low < WordModulus(v) && n < WordModulus(v)
    ensures var total, low' := TwoWords(v, high, low) + n, Wrap(v, low + n);
      if low' < low then
        var high' := Wrap(v, high + 1);
        if high' == 0 then total == BitLimit(v) + TwoWords(v, high', low') else total == TwoWords(v, high', low') < BitLimit(v)
      else total == TwoWords(v, high, low') < BitLimit(v)
  {
    if Wide(v) {
      Arithmetic.CounterStep64(high, low, n);
    } else {
      Arithmetic.CounterStep32(high, low, n);
    }
  }

  /** The initial hash values of section 5.3 of FIPS 180-2. */
  function InitialHash(v: ShaVersion): (h: HashValue)
    ensures Sized(v, h)
  {
    match v
    case SHA1 => H32([0x67452301, 0xefcdab89, 0x98badcfe, 0x10325476, 0xc3d2e1f0])
    case SHA224 => H32([0xc1059ed8, 0x367cd507, 0x3070dd17, 0xf70e5939, 0xffc00b31, 0x68581511, 0x64f98fa7, 0xbefa4fa4])
    case SHA256 => H32([0x6a09e667, 0xbb67ae85, 0x3c6ef372, 0xa54ff53a, 0x510e527f, 0x9b05688c, 0x1f83d9ab, 0x5be0cd19])
    case SHA384 => H64([0xcbbb9d5dc1059ed8, 0x629a292a367cd507, 0x9159015a3070dd17, 0x152fecd8f70e5939,
                        0x67332667ffc00b31, 0x8eb44a8768581511, 0xdb0c2e0d64f98fa7, 0x47b5481dbefa4fa4])
    case SHA512 => H64([0x6a09e667f3bcc908, 0xbb67ae8584caa73b, 0x3c6ef372fe94f82b, 0xa54ff53a5f1d36f1,
                        0x510e527fade682d1, 0x9b05688c2b3e6c1f, 0x1f83d9abfb41bd6b, 0x5be0cd19137e2179])
  }

  function Compress(v: ShaVersion, h: HashValue, block: seq<bv8>): (r: HashValue)
    requires Sized(v, h) && |block| == BlockSize(v)
    ensures Sized(v, r)
  {
    if v.SHA1? then H32(Sha1.Compress(h.w32, block))
    else if Wide(v) then H64(Sha512.Compress(h.w64, block))
    else H32(Sha256.Compress(h.w32, block))
  }

  /** The compression function folded over whole blocks. */
  function Fold(v: ShaVersion, h: HashValue, bytes: seq<bv8>): (r: HashValue)
    requires Sized(v, h) && Rest(v, |bytes|) == 0
    ensures Sized(v, r)
    decreases |bytes|
  {
    if bytes == [] then h
    else
      Arithmetic.OneBlockLess(|bytes|, BlockSize(v));
      var n := |bytes| - BlockSize(v);
      Compress(v, Fold(v, h, bytes[..n]), bytes[n..])
  }

  lemma FoldOneMore(v: ShaVersion, h: HashValue, bytes: seq<bv8>, block: seq<bv8>)
    requires Sized(v, h) && Rest(v, |bytes|) == 0 && |block| == BlockSize(v)
    ensures Rest(v, |bytes + block|) == 0
    ensures Fold(v, h, bytes + block) == Compress(v, Fold(v, h, bytes), block)
  {
    hide Compress, InitialHash;
    assert (bytes + block)[..|bytes|] == bytes && (bytes + block)[|bytes|..] == block;
  }

  /** The number of zero bits of sections 5.1.1 and 5.1.2 of FIPS 180-2. */
  function ZeroBits(v: ShaVersion, length: nat): nat {
    if Wide(v) then (895 - length) % 1024 else (447 - length) % 512
  }

  /** It is the smallest solution of length + 1 + k = 448 modulo 512, or 896 modulo 1024. */
  lemma ZeroBitsSolve(v: ShaVersion, length: nat)
    ensures var k := ZeroBits(v, length);
      if Wide(v) then k < 1024 && (length + 1 + k) % 1024 == 896 else k < 512 && (length + 1 + k) % 512 == 448
  {
    if Wide(v) {
      Arithmetic.SolveZeros(length, 896, 1024);
    } else {
      Arithmetic.SolveZeros(length, 448, 512);
    }
  }

  /** The padded message of sections 5.1.1 and 5.1.2 of FIPS 180-2. */
  function Pad(v: ShaVersion, m: seq<bool>): seq<bool> {
    m + [true] + Fill(false, ZeroBits(v, |m|)) + NatBits(|m|, 8 * LengthSize(v))
  }

  lemma PadFillsBlocks(v: ShaVersion, m: seq<bool>)
    ensures |Pad(v, m)| % 8 == 0 && Rest(v, |Pad(v, m)| / 8) == 0
  {
    ZeroBitsSolve(v, |m|);
    Arithmetic.FillsBlocks(|m|, ZeroBits(v, |m|), 8 * BlockSize(v), 8 * LengthSize(v));
    Arithmetic.WholeBytes(|Pad(v, m)|, BlockSize(v));
  }

  // ---- the digest as bytes, most significant byte of each word first ----

  function WordBytes32(w: bv32): (r: seq<bv8>)
    ensures |r| == 4
  {
    [((w >> 24) & 0xff) as bv8, ((w >> 16) & 0xff) as bv8, ((w >> 8) & 0xff) as bv8, (w & 0xff) as bv8]
  }

  function WordBytes64(w: bv64): (r: seq<bv8>)
    ensures |r| == 8
  {
    [((w >> 56) & 0xff) as bv8, ((w >> 48) & 0xff) as bv8, ((w >> 40) & 0xff) as bv8, ((w >> 32) & 0xff) as bv8,
     ((w >> 24) & 0xff) as bv8, ((w >> 16) & 0xff) as bv8, ((w >> 8) & 0xff) as bv8, (w & 0xff) as bv8]
  }

  function Bytes32(s: seq<bv32>): (r: seq<bv8>)
    ensures |r| == 4 * |s|
  {
    if s == [] then [] else Bytes32(s[..|s| - 1]) + WordBytes32(s[|s| - 1])
  }

  lemma {:induction false} Bytes32At(s: seq<bv32>, i: nat)
    requires i < 4 * |s|
    ensures Bytes32(s)[i] == WordBytes32(s[i / 4])[i % 4]
  {
    hide WordBytes32;
    if i < 4 * (|s| - 1) {
      Bytes32At(s[..|s| - 1], i);
    } else {
      assert i / 4 == |s| - 1;
    }
  }

  function Bytes64(s: seq<bv64>): (r: seq<bv8>)
    ensures |r| == 8 * |s|
  {
    if s == [] then [] else Bytes64(s[..|s| - 1]) + WordBytes64(s[|s| - 1])
  }

  lemma {:induction false} Bytes64At(s: seq<bv64>, i: nat)
    requires i < 8 * |s|
    ensures Bytes64(s)[i] == WordBytes64(s[i / 8])[i % 8]
  {
    hide WordBytes64;
    if i < 8 * (|s| - 1) {
      Bytes64At(s[..|s| - 1], i);
    } else {
      assert i / 8 == |s| - 1;
    }
  }

  function DigestOf(v: ShaVersion, h: HashValue): (r: seq<bv8>)
    requires Sized(v, h)
    ensures |r| == HashSize(v)
  {
    (if h.H32? then Bytes32(h.w32) else Bytes64(h.w64))[..HashSize(v)]
  }

  lemma DigestAt(v: ShaVersion, h: HashValue, i: nat)
    requires Sized(v, h) && i < HashSize(v)
    ensures DigestOf(v, h)[i] == if h.H32? then WordBytes32(h.w32[i / 4])[i % 4] else WordBytes64(h.w64[i / 8])[i % 8]
  {
    hide WordBytes32, WordBytes64;
    if h.H32? {
      Bytes32At(h.w32, i);
    } else {
      Bytes64At(h.w64, i);
    }
  }

  /** The padded message, as bytes. */
  function PaddedBytes(v: ShaVersion, m: seq<bool>): (r: seq<bv8>)
    ensures Rest(v, |r|) == 0
  {
    PadFillsBlocks(v, m);
    ToBytes(Pad(v, m))
  }

  /** The final hash value of the message m, a string of bits of any length below the limit. */
  function FinalHash(v: ShaVersion, m: seq<bool>): (h: HashValue)
    ensures Sized(v, h)
  {
    Fold(v, InitialHash(v), PaddedBytes(v, m))
  }

  function Sha(v: ShaVersion, m: seq<bool>): (digest: seq<bv8>)
    ensures |digest| == HashSize(v)
  {
    DigestOf(v, FinalHash(v, m))
  }

  // ---- hashing a message that arrives in pieces ----

  /** Whole blocks of the consumed bytes are folded into h; the rest waits in the block buffer. */
  predicate Buffered(v: ShaVersion, consumed: seq<bv8>, block: seq<bv8>, index: nat, h: HashValue)
    requires |block| == 128
  {
    && Sized(v, h)
    && index == Rest(v, |consumed|)
    && block[..index] == consumed[|consumed| - index..]
    && Rest(v, |consumed| - index) == 0
    && h == Fold(v, InitialHash(v), consumed[..|consumed| - index])
  }

  lemma BufferEmpty(v: ShaVersion, block: seq<bv8>)
    requires |block| == 128
    ensures Buffered(v, [], block, 0, InitialHash(v))
  {
    hide InitialHash, Compress;
  }

  lemma RestOfNext(v: ShaVersion, n: nat)
    ensures Rest(v, n - Rest(v, n)) == 0
    ensures Rest(v, n + 1) == if Rest(v, n) + 1 == BlockSize(v) then 0 else Rest(v, n) + 1
  {
    if Wide(v) {
      Arithmetic.NextRemainder128(n);
    } else {
      Arithmetic.NextRemainder64(n);
    }
  }

  lemma BufferByte(v: ShaVersion, consumed: seq<bv8>, block: seq<bv8>, index: nat, h: HashValue, b: bv8)
    requires |block| == 128 && Buffered(v, consumed, block, index, h)
    ensures index < BlockSize(v)
    ensures var block' := block[index := b];
      if index + 1 == BlockSize(v) then Buffered(v, consumed + [b], block', 0, Compress(v, h, block'[..BlockSize(v)]))
      else Buffered(v, consumed + [b], block', index + 1, h)
  {
    hide InitialHash, Compress, Rest;
    var block' := block[index := b];
    var all := consumed + [b];
    var whole := consumed[..|consumed| - index];
    RestOfNext(v, |consumed|);
    assert block'[..index + 1] == all[|all| - index - 1..];
    assert all[..|all| - index - 1] == whole;
    if index + 1 == BlockSize(v) {
      FoldOneMore(v, InitialHash(v), whole, block'[..BlockSize(v)]);
      assert all == whole + block'[..BlockSize(v)];
      assert all[..|all|] == all;
    }
  }

  // ---- padding done on bytes ----

  /** The zero bytes between the pad byte and the length field when `index` bytes of the last
      block are in use. */
  function ZeroBytes(v: ShaVersion, index: nat): nat
    requires index < BlockSize(v)
  {
    if index < BlockSize(v) - LengthSize(v) then BlockSize(v) - LengthSize(v) - 1 - index
    else BlockSize(v) - 1 - index + BlockSize(v) - LengthSize(v)
  }

  /** The padding when the length field fits behind the pad byte. */
  lemma PadOneBlock(v: ShaVersion, consumed: seq<bv8>, block: seq<bv8>, index: nat, h: HashValue, tailBytes: seq<bv8>)
    requires |block| == 128 && Buffered(v, consumed, block, index, h) && |tailBytes| == BlockSize(v) - index
    ensures Rest(v, |consumed + tailBytes|) == 0
    ensures Fold(v, InitialHash(v), consumed + tailBytes) == Compress(v, h, block[..index] + tailBytes)
  {
    hide InitialHash, Compress, Rest;
    var whole := consumed[..|consumed| - index];
    FoldOneMore(v, InitialHash(v), whole, block[..index] + tailBytes);
    assert consumed + tailBytes == whole + (block[..index] + tailBytes);
  }

  lemma PadTwoBlocks(v: ShaVersion, consumed: seq<bv8>, block: seq<bv8>, index: nat, h: HashValue, t1: seq<bv8>, t2: seq<bv8>)
    requires |block| == 128 && Buffered(v, consumed, block, index, h) && |t1| == BlockSize(v) - index && |t2| == BlockSize(v)
    ensures Rest(v, |consumed + t1 + t2|) == 0
    ensures Fold(v, InitialHash(v), consumed + t1 + t2) == Compress(v, Compress(v, h, block[..index] + t1), t2)
  {
    hide InitialHash, Compress, Rest;
    PadOneBlock(v, consumed, block, index, h, t1);
    FoldOneMore(v, InitialHash(v), consumed + t1, t2);
  }

  lemma ZeroBytesAreZeroBits(v: ShaVersion, n: nat, t: nat)
    requires t < 8
    ensures ZeroBits(v, 8 * n + t) == 7 - t + 8 * ZeroBytes(v, Rest(v, n))
  {
    if Wide(v) {
      Arithmetic.ZeroFill128(n, t);
    } else {
      Arithmetic.ZeroFill64(n, t);
    }
  }

  lemma PadParts(m: seq<bv8>, padByte: bv8, z: nat, n: nat, k: nat)
    ensures ToBits(m + [padByte] + Fill(0, z) + NatBytes(n, k))
         == ToBits(m) + BitsOfByte(padByte) + Fill(false, 8 * z) + NatBits(n, 8 * k)
  {
    hide BitsOfByte, NatBytes, NatBits;
    ToBitsConcat(m + [padByte] + Fill(0, z), NatBytes(n, k));
    ToBitsConcat(m + [padByte], Fill(0, z));
    assert (m + [padByte])[..|m|] == m;
    ZeroBytesBits(z);
    NatBytesBits(n, k);
  }

  lemma JoinZeros(v: ShaVersion, n: nat, t: nat)
    requires t < 8
    ensures Fill(false, 7 - t) + Fill(false, 8 * ZeroBytes(v, Rest(v, n))) == Fill(false, ZeroBits(v, 8 * n + t))
  {
    hide ZeroBytes, ZeroBits, Rest;
    ZeroBytesAreZeroBits(v, n, t);
  }

  lemma RegroupPadding(bits: seq<bool>, m: seq<bool>, last: seq<bool>, tail: seq<bool>, a: seq<bool>, b: seq<bool>,
                zeros: seq<bool>, len: seq<bool>, pad: seq<bool>)
    requires bits == m + last + b + len && last == tail + [true] + a
    requires a + b == zeros && pad == m + tail + [true] + zeros + len
    ensures bits == pad
  {
    assert bits == m + tail + [true] + (a + b) + len;
  }

  lemma PadOfLength(v: ShaVersion, m: seq<bool>, tail: seq<bool>, n: nat)
    requires |m| + |tail| == n
    ensures Pad(v, m + tail) == m + tail + [true] + Fill(false, ZeroBits(v, n)) + NatBits(n, 8 * LengthSize(v))
  {
  }

  lemma PadBytesIsPadFor(v: ShaVersion, m: seq<bv8>, tail: seq<bool>, padByte: bv8, z: nat, n: nat, k: nat, pad: seq<bool>)
    requires |tail| < 8 && BitsOfByte(padByte) == tail + [true] + Fill(false, 7 - |tail|)
    requires z == ZeroBytes(v, Rest(v, |m|)) && n == 8 * |m| + |tail| && k == LengthSize(v) && pad == Pad(v, ToBits(m) + tail)
    ensures ToBits(m + [padByte] + Fill(0, z) + NatBytes(n, k)) == pad
  {
    hide *;
    PadParts(m, padByte, z, n, k);
    JoinZeros(v, |m|, |tail|);
    PadOfLength(v, ToBits(m), tail, n);
    RegroupPadding(ToBits(m + [padByte] + Fill(0, z) + NatBytes(n, k)), ToBits(m), BitsOfByte(padByte), tail,
            Fill(false, 7 - |tail|), Fill(false, 8 * z), Fill(false, ZeroBits(v, n)), NatBits(n, 8 * k), pad);
  }

  /** Padding on bytes produces the padded bit string: the pad byte holds the last bits of the
      message and the bit "1". */
  lemma PadBytesIsPad(v: ShaVersion, m: seq<bv8>, tail: seq<bool>, padByte: bv8)
    requires |tail| < 8 && BitsOfByte(padByte) == tail + [true] + Fill(false, 7 - |tail|)
    ensures ToBits(m + [padByte] + Fill(0, ZeroBytes(v, Rest(v, |m|))) + NatBytes(8 * |m| + |tail|, LengthSize(v)))
         == Pad(v, ToBits(m) + tail)
  {
    hide *;
    PadBytesIsPadFor(v, m, tail, padByte, ZeroBytes(v, Rest(v, |m|)), 8 * |m| + |tail|, LengthSize(v), Pad(v, ToBits(m) + tail));
  }

  /** The last block, or the last two, give the hash of the whole bit string. */
  lemma LastBlock(v: ShaVersion, consumed: seq<bv8>, tail: seq<bool>, padByte: bv8, block: seq<bv8>, index: nat, h: HashValue)
    requires |block| == 128 && Buffered(v, consumed, block, index, h) && index < BlockSize(v) - LengthSize(v)
    requires |tail| < 8 && BitsOfByte(padByte) == tail + [true] + Fill(false, 7 - |tail|)
    ensures FinalHash(v, ToBits(consumed) + tail)
         == Compress(v, h, block[..index] + [padByte] + Fill(0, BlockSize(v) - LengthSize(v) - 1 - index)
                           + NatBytes(8 * |consumed| + |tail|, LengthSize(v)))
  {
    hide *;
    var zeros: seq<bv8> := Fill(0, BlockSize(v) - LengthSize(v) - 1 - index);
    var len := NatBytes(8 * |consumed| + |tail|, LengthSize(v));
    BufferedIndex(v, consumed, block, index, h);
    PadBytesIsPad(v, consumed, tail, padByte);
    ZerosInOneBlock(v, index);
    LastBlockOf(v, consumed, ToBits(consumed) + tail, [padByte], zeros, len, block, index, h);
  }

  lemma BufferedIndex(v: ShaVersion, consumed: seq<bv8>, block: seq<bv8>, index: nat, h: HashValue)
    requires |block| == 128 && Buffered(v, consumed, block, index, h)
    ensures index == Rest(v, |consumed|)
  {
  }

  lemma ZerosInOneBlock(v: ShaVersion, index: nat)
    requires index < BlockSize(v) - LengthSize(v)
    ensures ZeroBytes(v, index) == BlockSize(v) - LengthSize(v) - 1 - index
  {
  }

  lemma LastBlockOf(v: ShaVersion, consumed: seq<bv8>, bits: seq<bool>, pad: seq<bv8>, zeros: seq<bv8>, len: seq<bv8>,
                    block: seq<bv8>, index: nat, h: HashValue)
    requires |block| == 128 && Buffered(v, consumed, block, index, h)
    requires |pad + zeros + len| == BlockSize(v) - index
    requires ToBits(consumed + pad + zeros + len) == Pad(v, bits)
    ensures FinalHash(v, bits) == Compress(v, h, block[..index] + pad + zeros + len)
  {
    hide InitialHash, Compress, Rest, Fold, Pad, ToBits, ToBytes, Buffered;
    var t := pad + zeros + len;
    PadOneBlock(v, consumed, block, index, h, t);
    assert consumed + pad + zeros + len == consumed + t;
    BytesBitsBytes(consumed + t);
    assert block[..index] + pad + zeros + len == block[..index] + t;
  }

  lemma LastTwoBlocks(v: ShaVersion, consumed: seq<bv8>, tail: seq<bool>, padByte: bv8, block: seq<bv8>, index: nat, h: HashValue)
    requires |block| == 128 && Buffered(v, consumed, block, index, h) && BlockSize(v) - LengthSize(v) <= index < BlockSize(v)
    requires |tail| < 8 && BitsOfByte(padByte) == tail + [true] + Fill(false, 7 - |tail|)
    ensures FinalHash(v, ToBits(consumed) + tail)
         == Compress(v, Compress(v, h, block[..index] + [padByte] + Fill(0, BlockSize(v) - 1 - index)),
                     Fill(0, BlockSize(v) - LengthSize(v)) + NatBytes(8 * |consumed| + |tail|, LengthSize(v)))
  {
    hide InitialHash, Compress, Rest, Fold, BitsOfByte, NatBytes, Pad, ToBits, ToBytes, Buffered, FinalHash, ZeroBytes, Fill, ZeroBits;
    var z1: seq<bv8> := Fill(0, BlockSize(v) - 1 - index);
    var z2: seq<bv8> := Fill(0, BlockSize(v) - LengthSize(v));
    var len := NatBytes(8 * |consumed| + |tail|, LengthSize(v));
    BufferedIndex(v, consumed, block, index, h);
    PadBytesIsPad(v, consumed, tail, padByte);
    ZerosInTwoBlocks(v, index);
    LastTwoBlocksOf(v, consumed, ToBits(consumed) + tail, [padByte], Fill(0, ZeroBytes(v, index)), z1, z2, len, block, index, h);
  }

  lemma LastTwoBlocksOf(v: ShaVersion, consumed: seq<bv8>, bits: seq<bool>, pad: seq<bv8>, zeros: seq<bv8>,
                        z1: seq<bv8>, z2: seq<bv8>, len: seq<bv8>, block: seq<bv8>, index: nat, h: HashValue)
    requires |block| == 128 && Buffered(v, consumed, block, index, h) && index <= BlockSize(v)
    requires |pad + z1| == BlockSize(v) - index && |z2 + len| == BlockSize(v)
    requires zeros == z1 + z2 && ToBits(consumed + pad + zeros + len) == Pad(v, bits)
    ensures FinalHash(v, bits) == Compress(v, Compress(v, h, block[..index] + pad + z1), z2 + len)
  {
    hide InitialHash, Compress, Rest, Fold, Pad, ToBits, ToBytes, Buffered;
    PadTwoBlocks(v, consumed, block, index, h, pad + z1, z2 + len);
    assert consumed + pad + zeros + len == consumed + (pad + z1) + (z2 + len);
    BytesBitsBytes(consumed + (pad + z1) + (z2 + len));
    assert block[..index] + pad + z1 == block[..index] + (pad + z1);
  }

  lemma ZerosInTwoBlocks(v: ShaVersion, index: nat)
    requires BlockSize(v) - LengthSize(v) <= index < BlockSize(v)
    ensures Fill<bv8>(0, ZeroBytes(v, index)) == Fill(0, BlockSize(v) - 1 - index) + Fill(0, BlockSize(v) - LengthSize(v))
  {
  }
}
