/** The streaming hash contexts (sha1.c, sha224.c, sha384-512.c) behind the unified
    interface of usha.c.  The three files repeat one streaming layer with their own block
    size, word width and compression function; here the layer is written once and
    `whichSha` selects the constants, as the union in USHAContext does. */
module Usha {
  import opened Bits
  import opened ShaSpec
  import Arithmetic
  import Sha1
  import Sha256
  import Sha512

  // The error codes of sha.h that these functions return.
  const SHA_SUCCESS: nat := 0
  const SHA_STATE_ERROR: nat := 3

  const MASKS: seq<bv8> := [0x00, 0x80, 0xc0, 0xe0, 0xf0, 0xf8, 0xfc, 0xfe]
  const MARK_BITS: seq<bv8> := [0x80, 0x40, 0x20, 0x10, 0x08, 0x04, 0x02, 0x01]

  lemma MaskAndMark(b: bv8, mask: bv8, mark: bv8, x: bv8)
    requires (mask == 0x00 && mark == 0x80) || (mask == 0x80 && mark == 0x40) || (mask == 0xc0 && mark == 0x20) || (mask == 0xe0 && mark == 0x10)
          || (mask == 0xf0 && mark == 0x08) || (mask == 0xf8 && mark == 0x04) || (mask == 0xfc && mark == 0x02) || (mask == 0xfe && mark == 0x01)
    requires x == (b & mask) | mark
    ensures (x & 0x80 != 0) == (if mark < 0x80 then b & 0x80 != 0 else mark == 0x80)
    ensures (x & 0x40 != 0) == (if mark < 0x40 then b & 0x40 != 0 else mark == 0x40)
    ensures (x & 0x20 != 0) == (if mark < 0x20 then b & 0x20 != 0 else mark == 0x20)
    ensures (x & 0x10 != 0) == (if mark < 0x10 then b & 0x10 != 0 else mark == 0x10)
    ensures (x & 0x08 != 0) == (if mark < 0x08 then b & 0x08 != 0 else mark == 0x08)
    ensures (x & 0x04 != 0) == (if mark < 0x04 then b & 0x04 != 0 else mark == 0x04)
    ensures (x & 0x02 != 0) == (if mark < 0x02 then b & 0x02 != 0 else mark == 0x02)
    ensures (x & 0x01 != 0) == (if mark < 0x01 then b & 0x01 != 0 else mark == 0x01)
  {
  }

  /** The pad byte keeps the first n bits, marks the end with a "1" and clears the others. */
  lemma PadByteBits(bits: bv8, n: nat)
    requires n < 8
    ensures BitsOfByte((bits & MASKS[n]) | MARK_BITS[n]) == BitsOfByte(bits)[..n] + [true] + Fill(false, 7 - n)
  {
    MaskAndMark(bits, MASKS[n], MARK_BITS[n], (bits & MASKS[n]) | MARK_BITS[n]);
    PadByteSeq(bits, n, MARK_BITS[n], (bits & MASKS[n]) | MARK_BITS[n]);
  }

  lemma PadByteSeq(b: bv8, n: nat, mark: bv8, x: bv8)
    requires n < 8 && mark == MARK_BITS[n]
    requires (x & 0x80 != 0) == (if mark < 0x80 then b & 0x80 != 0 else mark == 0x80)
    requires (x & 0x40 != 0) == (if mark < 0x40 then b & 0x40 != 0 else mark == 0x40)
    requires (x & 0x20 != 0) == (if mark < 0x20 then b & 0x20 != 0 else mark == 0x20)
    requires (x & 0x10 != 0) == (if mark < 0x10 then b & 0x10 != 0 else mark == 0x10)
    requires (x & 0x08 != 0) == (if mark < 0x08 then b & 0x08 != 0 else mark == 0x08)
    requires (x & 0x04 != 0) == (if mark < 0x04 then b & 0x04 != 0 else mark == 0x04)
    requires (x & 0x02 != 0) == (if mark < 0x02 then b & 0x02 != 0 else mark == 0x02)
    requires (x & 0x01 != 0) == (if mark < 0x01 then b & 0x01 != 0 else mark == 0x01)
    ensures BitsOfByte(x) == BitsOfByte(b)[..n] + [true] + Fill(false, 7 - n)
  {
    var xs, bs := BitsOfByte(x), BitsOfByte(b);
    assert forall k :: 0 <= k < 8 ==> xs[k] == if k < n then bs[k] else k == n;
    Marked(xs, bs, n);
  }

  lemma Marked(xs: seq<bool>, bs: seq<bool>, n: nat)
    requires |xs| == |bs| == 8 && n < 8
    requires forall k :: 0 <= k < 8 ==> xs[k] == if k < n then bs[k] else k == n
    ensures xs == bs[..n] + [true] + Fill(false, 7 - n)
  {
  }

  class USHAContext {
    var whichSha: ShaVersion
    const sha1Hash: array<bv32>
    const sha256Hash: array<bv32>
    const sha512Hash: array<bv64>
    const messageBlock: array<bv8>
    var messageBlockIndex: nat
    var lengthLow: nat
    var lengthHigh: nat
    var computed: bool
    var corrupted: nat

    ghost var consumed: seq<bv8>  // message bytes accepted since the last reset
    ghost var tail: seq<bool>     // final bits accepted after them

    ghost function Repr(): set<object> {
      {this, sha1Hash, sha256Hash, sha512Hash, messageBlock}
    }

    ghost predicate Shape() {
      sha1Hash.Length == 5 && sha256Hash.Length == 8 && sha512Hash.Length == 8 && messageBlock.Length == 128
    }

    /** The intermediate hash of the selected algorithm. */
    ghost function Hash(): (h: HashValue)
      requires Shape()
      reads this, sha1Hash, sha256Hash, sha512Hash
      ensures Sized(whichSha, h)
    {
      if whichSha.SHA1? then H32(sha1Hash[..])
      else if Wide(whichSha) then H64(sha512Hash[..])
      else H32(sha256Hash[..])
    }

    /** The two-word bit counter. */
    ghost function Length(): nat
      reads this
    {
      TwoWords(whichSha, lengthHigh, lengthLow)
    }

    ghost predicate Streaming()
      requires Shape()
      reads Repr()
    {
      && tail == []
      && Length() == 8 * |consumed|
      && Buffered(whichSha, consumed, messageBlock[..], messageBlockIndex, Hash())
    }

    ghost predicate Valid()
      reads Repr()
    {
      && Shape()
      && lengthLow < WordModulus(whichSha)
      && lengthHigh < WordModulus(whichSha)
      && messageBlockIndex <= BlockSize(whichSha)
      && (corrupted == SHA_SUCCESS && !computed ==> Streaming())
      && (corrupted == SHA_SUCCESS && computed ==> Hash() == FinalHash(whichSha, ToBits(consumed) + tail))
    }

    /** The storage of a context; it holds no hash until the first reset. */
    constructor ()
      ensures Valid() && fresh(Repr())
    {
      whichSha := SHA1;
      sha1Hash := new bv32[5];
      sha256Hash := new bv32[8];
      sha512Hash := new bv64[8];
      messageBlock := new bv8[128];
      messageBlockIndex, lengthLow, lengthHigh := 0, 0, 0;
      computed, corrupted := false, SHA_STATE_ERROR;
      consumed, tail := [], [];
    }

    method LoadInitialHash()
      requires Shape()
      modifies sha1Hash, sha256Hash, sha512Hash
      ensures Hash() == InitialHash(whichSha)
    {
      hide InitialHash;
      match whichSha {
        case SHA1 => Load32(sha1Hash, InitialHash(SHA1).w32);
        case SHA224 => Load32(sha256Hash, InitialHash(SHA224).w32);
        case SHA256 => Load32(sha256Hash, InitialHash(SHA256).w32);
        case SHA384 => Load64(sha512Hash, InitialHash(SHA384).w64);
        case SHA512 => Load64(sha512Hash, InitialHash(SHA512).w64);
      }
    }

    /** USHAReset: SHA1Reset, SHA224_256Reset and SHA384_512Reset. */
    method Reset(version: ShaVersion) returns (r: nat)
      requires Valid()
      modifies Repr()
      ensures Valid() && r == SHA_SUCCESS
      ensures whichSha == version && corrupted == SHA_SUCCESS && !computed && consumed == [] && tail == []
    {
      hide InitialHash, Buffered, FinalHash;
      whichSha := version;
      lengthLow, lengthHigh, messageBlockIndex := 0, 0, 0;
      LoadInitialHash();
      computed, corrupted := false, SHA_SUCCESS;
      consumed, tail := [], [];
      BufferEmpty(version, messageBlock[..]);
      r := SHA_SUCCESS;
    }

    /** The AddLength macros: the counter wraps and the wrap is recorded. */
    method AddLength(n: nat)
      requires lengthLow < WordModulus(whichSha) && lengthHigh < WordModulus(whichSha) && n < WordModulus(whichSha)
      modifies `lengthLow, `lengthHigh, `corrupted
      ensures lengthLow < WordModulus(whichSha) && lengthHigh < WordModulus(whichSha)
      ensures Length() == (if old(Length()) + n < BitLimit(whichSha) then old(Length()) + n else old(Length()) + n - BitLimit(whichSha))
      ensures corrupted == if old(Length()) + n < BitLimit(whichSha) then SHA_SUCCESS else 1
    {
      hide TwoWords, Wrap, BitLimit, WordModulus;
      CounterStep(whichSha, lengthHigh, lengthLow, n);
      var addTemp := lengthLow;
      lengthLow := Wrap(whichSha, lengthLow + n);
      if lengthLow < addTemp {
        lengthHigh := Wrap(whichSha, lengthHigh + 1);
        corrupted := if lengthHigh == 0 then 1 else SHA_SUCCESS;
      } else {
        corrupted := SHA_SUCCESS;
      }
    }

    /** Dispatch to the three block functions, which work in place on the hash array. */
    method ProcessMessageBlock()
      requires Shape()
      modifies sha1Hash, sha256Hash, sha512Hash, `messageBlockIndex
      ensures Hash() == Compress(whichSha, old(Hash()), messageBlock[..BlockSize(whichSha)])
      ensures messageBlockIndex == 0
    {
      hide Sha1.Compress, Sha256.Compress, Sha512.Compress;
      match whichSha {
        case SHA1 => Sha1.ProcessMessageBlock(sha1Hash, messageBlock);
        case SHA224 => Sha256.ProcessMessageBlock(sha256Hash, messageBlock);
        case SHA256 => Sha256.ProcessMessageBlock(sha256Hash, messageBlock);
        case SHA384 => Sha512.ProcessMessageBlock(sha512Hash, messageBlock);
        case SHA512 => Sha512.ProcessMessageBlock(sha512Hash, messageBlock);
      }
      messageBlockIndex := 0;
    }

    /** USHAInput: bytes are buffered one at a time and every full block is processed. */
    method Input(message: array<bv8>, length: nat) returns (r: nat)
      requires Valid() && length <= message.Length && message != messageBlock
      modifies Repr()
      ensures Valid() && whichSha == old(whichSha)
      ensures length == 0 ==> r == SHA_SUCCESS && corrupted == old(corrupted)
      ensures length > 0 && old(computed) ==> r == SHA_STATE_ERROR && corrupted == SHA_STATE_ERROR
      ensures length > 0 && !old(computed) && old(corrupted) != SHA_SUCCESS ==> r == corrupted == old(corrupted)
      ensures !old(computed) && old(corrupted) == SHA_SUCCESS ==>
        r == SHA_SUCCESS && corrupted == if 8 * (|old(consumed)| + length) < BitLimit(whichSha) then SHA_SUCCESS else 1
      ensures computed == old(computed) && tail == old(tail)
      ensures old(corrupted) == corrupted == SHA_SUCCESS ==> consumed == old(consumed) + message[..length]
    {
      hide Buffered, FinalHash, InitialHash;
      if length == 0 {
        return SHA_SUCCESS;
      }
      if computed {
        corrupted := SHA_STATE_ERROR;
        return SHA_STATE_ERROR;
      }
      if corrupted != SHA_SUCCESS {
        return corrupted;
      }
      var i := 0;
      while i < length && corrupted == SHA_SUCCESS
        invariant 0 <= i <= length
        invariant Valid() && whichSha == old(whichSha) && !computed && tail == old(tail)
        invariant message[..] == old(message[..])
        invariant corrupted == SHA_SUCCESS ==> consumed == old(consumed) + message[..i]
        invariant corrupted == if 8 * (|old(consumed)| + i) < BitLimit(whichSha) then SHA_SUCCESS else 1
        invariant 8 * (|old(consumed)| + i) <= BitLimit(whichSha)
      {
        InputByte(message[i]);
        i := i + 1;
      }
      r := SHA_SUCCESS;
    }

    /** One turn of the input loop. */
    method InputByte(b: bv8)
      requires Valid() && !computed && corrupted == SHA_SUCCESS
      modifies Repr()
      ensures Valid() && whichSha == old(whichSha) && !computed && tail == old(tail)
      ensures corrupted == if 8 * (|old(consumed)| + 1) < BitLimit(whichSha) then SHA_SUCCESS else 1
      ensures corrupted == SHA_SUCCESS ==> consumed == old(consumed) + [b]
    {
      hide Compress, Buffered, TwoWords, BitLimit;
      BufferByte(whichSha, consumed, messageBlock[..], messageBlockIndex, Hash(), b);
      messageBlock[messageBlockIndex] := b;
      assert messageBlock[..] == old(messageBlock[..])[messageBlockIndex := b];
      messageBlockIndex := messageBlockIndex + 1;
      AddLength(8);
      if corrupted == SHA_SUCCESS {
        consumed := consumed + [b];
        if messageBlockIndex == BlockSize(whichSha) {
          ProcessMessageBlock();
        }
      }
    }

    /** Zeros up to the given index of the message block. */
    method FillZeros(limit: nat)
      requires Shape() && messageBlockIndex <= limit <= 128
      modifies messageBlock, `messageBlockIndex
      ensures messageBlockIndex == limit
      ensures messageBlock[..limit] == old(messageBlock[..messageBlockIndex]) + Fill(0, limit - old(messageBlockIndex))
    {
      while messageBlockIndex < limit
        invariant old(messageBlockIndex) <= messageBlockIndex <= limit
        invariant messageBlock[..messageBlockIndex]
               == old(messageBlock[..messageBlockIndex]) + Fill(0, messageBlockIndex - old(messageBlockIndex))
      {
        messageBlock[messageBlockIndex] := 0;
        messageBlockIndex := messageBlockIndex + 1;
      }
    }

    /** The message length in the last 8 or 16 bytes of the block. */
    method StoreLength()
      requires Shape() && lengthLow < WordModulus(whichSha) && lengthHigh < WordModulus(whichSha)
      modifies messageBlock
      ensures var start := BlockSize(whichSha) - LengthSize(whichSha);
        messageBlock[..BlockSize(whichSha)] == old(messageBlock[..start]) + NatBytes(Length(), LengthSize(whichSha))
    {
      hide LowByte, NatBytes;
      if Wide(whichSha) {
        StoreWord(112, lengthHigh / 0x1_0000_0000);
        StoreWord(116, lengthHigh);
        StoreWord(120, lengthLow / 0x1_0000_0000);
        StoreWord(124, lengthLow);
        TwoWords64(lengthHigh, lengthLow);
      } else {
        StoreWord(56, lengthHigh);
        StoreWord(60, lengthLow);
        TwoWords32(lengthHigh, lengthLow);
      }
    }

    method StoreWord(at: nat, n: nat)
      requires Shape() && at + 4 <= 128
      modifies messageBlock
      ensures messageBlock[..] == old(messageBlock[..at]) + FourBytes(n) + old(messageBlock[at + 4..])
    {
      messageBlock[at] := LowByte(n / 0x1000000);
      messageBlock[at + 1] := LowByte(n / 0x10000);
      messageBlock[at + 2] := LowByte(n / 0x100);
      messageBlock[at + 3] := LowByte(n);
    }

    /** The PadMessage functions: one block when the length field still fits, two otherwise. */
    method PadMessage(padByte: bv8, ghost finalBits: seq<bool>)
      requires Shape() && lengthLow < WordModulus(whichSha) && lengthHigh < WordModulus(whichSha)
      requires Buffered(whichSha, consumed, messageBlock[..], messageBlockIndex, Hash())
      requires |finalBits| < 8 && BitsOfByte(padByte) == finalBits + [true] + Fill(false, 7 - |finalBits|)
      requires Length() == 8 * |consumed| + |finalBits|
      modifies sha1Hash, sha256Hash, sha512Hash, messageBlock, `messageBlockIndex
      ensures messageBlockIndex == 0
      ensures Hash() == FinalHash(whichSha, ToBits(consumed) + finalBits)
    {
      hide Compress, BitsOfByte, FinalHash, NatBytes, ToBits, TwoWords, InitialHash, Fold, ZeroBytes, Buffered, Rest, Fill;
      var fits := BlockSize(whichSha) - LengthSize(whichSha);
      ghost var block, index := messageBlock[..], messageBlockIndex;
      BufferedIndex(whichSha, consumed, block, index, Hash());
      ghost var head := block[..index] + [padByte];  // what the last block starts with
      if messageBlockIndex >= fits {
        LastTwoBlocks(whichSha, consumed, finalBits, padByte, block, index, Hash());
        StorePadByte(padByte);
        FillZeros(BlockSize(whichSha));
        ProcessMessageBlock();
        head := [];
      } else {
        LastBlock(whichSha, consumed, finalBits, padByte, block, index, Hash());
        StorePadByte(padByte);
      }
      assert messageBlock[..messageBlockIndex] == head;
      FillZeros(fits);
      assert messageBlock[..fits] == head + Fill(0, fits - |head|);
      StoreLength();
      assert [] + Fill<bv8>(0, fits) == Fill(0, fits);
      ProcessMessageBlock();
    }

    method StorePadByte(padByte: bv8)
      requires Shape() && messageBlockIndex < 128
      modifies messageBlock, `messageBlockIndex
      ensures messageBlockIndex == old(messageBlockIndex) + 1
      ensures messageBlock[..messageBlockIndex] == old(messageBlock[..messageBlockIndex]) + [padByte]
    {
      messageBlock[messageBlockIndex] := padByte;
      messageBlockIndex := messageBlockIndex + 1;
    }

    /** The Finalize functions: pad, then clear what is left of the message. */
    method Finalize(padByte: bv8, ghost finalBits: seq<bool>)
      requires Shape() && lengthLow < WordModulus(whichSha) && lengthHigh < WordModulus(whichSha)
      requires Buffered(whichSha, consumed, messageBlock[..], messageBlockIndex, Hash()) && corrupted == SHA_SUCCESS
      requires |finalBits| < 8 && BitsOfByte(padByte) == finalBits + [true] + Fill(false, 7 - |finalBits|)
      requires Length() == 8 * |consumed| + |finalBits|
      modifies Repr()
      ensures Valid() && whichSha == old(whichSha) && corrupted == SHA_SUCCESS && computed
      ensures consumed == old(consumed) && tail == finalBits
      ensures Hash() == FinalHash(whichSha, ToBits(consumed) + tail)
      ensures lengthLow == lengthHigh == 0 && forall j :: 0 <= j < BlockSize(whichSha) ==> messageBlock[j] == 0
    {
      hide Buffered, FinalHash, BitsOfByte, ToBits, TwoWords;
      PadMessage(padByte, finalBits);
      for i := 0 to BlockSize(whichSha)
        invariant Hash() == FinalHash(whichSha, ToBits(consumed) + finalBits)
        invariant messageBlockIndex == 0 && corrupted == SHA_SUCCESS
        invariant whichSha == old(whichSha) && consumed == old(consumed)
        invariant forall j :: 0 <= j < i ==> messageBlock[j] == 0
      {
        messageBlock[i] := 0;
      }
      lengthLow := 0;
      lengthHigh := 0;
      computed := true;
      tail := finalBits;
    }

    /** USHAFinalBits: one to seven last bits, in the upper part of a byte. */
    method FinalBits(bits: bv8, length: nat) returns (r: nat)
      requires Valid()
      modifies Repr()
      ensures Valid() && whichSha == old(whichSha) && consumed == old(consumed)
      ensures length == 0 ==> r == SHA_SUCCESS && corrupted == old(corrupted) && computed == old(computed) && tail == old(tail)
      ensures length > 0 && (old(computed) || length >= 8) ==> r == SHA_STATE_ERROR && corrupted == SHA_STATE_ERROR
      ensures 0 < length < 8 && !old(computed) && old(corrupted) != SHA_SUCCESS ==> r == corrupted == old(corrupted)
      ensures 0 < length < 8 && !old(computed) && old(corrupted) == SHA_SUCCESS ==>
        r == SHA_SUCCESS && corrupted == SHA_SUCCESS && computed && tail == BitsOfByte(bits)[..length]
    {
      hide Buffered, FinalHash, BitsOfByte, ToBits;
      if length == 0 {
        return SHA_SUCCESS;
      }
      if computed || length >= 8 {
        corrupted := SHA_STATE_ERROR;
        return SHA_STATE_ERROR;
      }
      if corrupted != SHA_SUCCESS {
        return corrupted;
      }
      AddLength(length);
      PadByteBits(bits, length);
      Finalize((bits & MASKS[length]) | MARK_BITS[length], BitsOfByte(bits)[..length]);
      r := SHA_SUCCESS;
    }

    /** USHAResult: SHA1Result, SHA224_256ResultN and SHA384_512ResultN. */
    method Result(digest: array<bv8>) returns (r: nat)
      requires Valid() && HashSize(whichSha) <= digest.Length && digest != messageBlock
      modifies Repr(), digest
      ensures Valid() && whichSha == old(whichSha) && consumed == old(consumed) && tail == old(tail)
      ensures r == corrupted == old(corrupted)
      ensures r != SHA_SUCCESS ==> digest[..] == old(digest[..]) && computed == old(computed)
      ensures r == SHA_SUCCESS ==>
        computed && digest[..] == Sha(whichSha, ToBits(consumed) + tail) + old(digest[HashSize(whichSha)..])
    {
      hide Buffered, FinalHash, BitsOfByte, ToBits;
      if corrupted != SHA_SUCCESS {
        return corrupted;
      }
      if !computed {
        assert BitsOfByte(0x80) == [] + [true] + Fill(false, 7) by {
          PadByteBits(0, 0);
        }
        Finalize(0x80, []);
      }
      CopyDigest(digest);
      r := SHA_SUCCESS;
    }

    /** The loop that cuts the hash words into bytes. */
    method CopyDigest(digest: array<bv8>)
      requires Shape() && HashSize(whichSha) <= digest.Length && digest != messageBlock
      modifies digest
      ensures digest[..] == DigestOf(whichSha, Hash()) + old(digest[HashSize(whichSha)..])
    {
      hide WordBytes32, WordBytes64, DigestOf;
      ghost var h := Hash();
      var size := HashSize(whichSha);
      for i := 0 to size
        invariant digest[..i] == DigestOf(whichSha, h)[..i]
        invariant digest[size..] == old(digest[size..])
      {
        DigestAt(whichSha, h, i);
        digest[i] := if whichSha.SHA1? then WordBytes32(sha1Hash[i / 4])[i % 4]
                     else if Wide(whichSha) then WordBytes64(sha512Hash[i / 8])[i % 8]
                     else WordBytes32(sha256Hash[i / 4])[i % 4];
      }
    }
  }

  method Load32(a: array<bv32>, words: seq<bv32>)
    requires a.Length == |words|
    modifies a
    ensures a[..] == words
  {
    forall i | 0 <= i < a.Length {
      a[i] := words[i];
    }
  }

  method Load64(a: array<bv64>, words: seq<bv64>)
    requires a.Length == |words|
    modifies a
    ensures a[..] == words
  {
    forall i | 0 <= i < a.Length {
      a[i] := words[i];
    }
  }
}
