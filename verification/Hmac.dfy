/** HMAC over the unified hash interface (hmac.c), against section 2 of RFC 2104. */
module HmacSha {
  import opened Bits
  import opened ShaSpec
  import opened Usha

  // ---- section 2 of RFC 2104 ----

  /** The key as one block: hashed first when it is longer than a block, then filled with zeros. */
  function KeyBlock(v: ShaVersion, key: seq<bv8>): (r: seq<bv8>)
    ensures |r| == BlockSize(v)
  {
    var k := if |key| > BlockSize(v) then Sha(v, ToBits(key)) else key;
    k + Fill(0, BlockSize(v) - |k|)
  }

  function Xor(a: bv8, b: bv8): bv8 { a ^ b }

  function XorWith(s: seq<bv8>, b: bv8): (r: seq<bv8>)
    ensures |r| == |s| && forall i :: 0 <= i < |s| ==> r[i] == Xor(s[i], b)
  {
    seq(|s|, i requires 0 <= i < |s| => Xor(s[i], b))
  }

  /** H(K XOR opad, H(K XOR ipad, text)), for a text that may end inside a byte. */
  function Hmac(v: ShaVersion, key: seq<bv8>, text: seq<bool>): (r: seq<bv8>)
    ensures |r| == HashSize(v)
  {
    var inner := Sha(v, ToBits(XorWith(KeyBlock(v, key), 0x36)) + text);
    Sha(v, ToBits(XorWith(KeyBlock(v, key), 0x5c) + inner))
  }

  // ---- the key as RFC 2104 describes it ----

  lemma XorAt(s: seq<bv8>, b: bv8, i: nat)
    requires i < |s|
    ensures XorWith(s, b)[i] == s[i] ^ b
  {
  }

  /** A key shorter than a block is filled with zero bytes: one more at its end makes no difference. */
  lemma ShortKey(v: ShaVersion, key: seq<bv8>, text: seq<bool>)
    requires |key| < BlockSize(v)
    ensures Hmac(v, key, text) == Hmac(v, key + [0], text)
  {
    hide Sha, XorWith, ToBits;
    assert KeyBlock(v, key) == KeyBlock(v, key + [0]);
  }

  /** A key of one block is used as it is. */
  lemma BlockKey(v: ShaVersion, key: seq<bv8>, text: seq<bool>)
    requires |key| == BlockSize(v)
    ensures Hmac(v, key, text) == Sha(v, ToBits(XorWith(key, 0x5c) + Sha(v, ToBits(XorWith(key, 0x36)) + text)))
  {
    hide Sha, XorWith, ToBits;
    assert KeyBlock(v, key) == key;
  }

  /** A key longer than a block is replaced by its hash. */
  lemma LongKey(v: ShaVersion, key: seq<bv8>, text: seq<bool>)
    requires |key| > BlockSize(v)
    ensures Hmac(v, key, text) == Hmac(v, Sha(v, ToBits(key)), text)
  {
    hide Sha, XorWith, ToBits;
    assert KeyBlock(v, Sha(v, ToBits(key))) == KeyBlock(v, key);
  }

  /** Up to the size of a block, what is XORed with the pads is the key filled with zeros. */
  lemma {:induction false} KeyOfOneBlock(v: ShaVersion, key: seq<bv8>, text: seq<bool>)
    requires |key| <= BlockSize(v)
    ensures var k := key + Fill(0, BlockSize(v) - |key|);
      Hmac(v, key, text) == Sha(v, ToBits(XorWith(k, 0x5c) + Sha(v, ToBits(XorWith(k, 0x36)) + text)))
    decreases BlockSize(v) - |key|
  {
    hide Sha, XorWith, ToBits, Hmac, KeyBlock;
    if |key| == BlockSize(v) {
      BlockKey(v, key, text);
      assert key + Fill(0, 0) == key;
    } else {
      ShortKey(v, key, text);
      KeyOfOneBlock(v, key + [0], text);
      assert key + Fill(0, BlockSize(v) - |key|) == key + [0] + Fill(0, BlockSize(v) - |key + [0]|);
    }
  }

  class HMACContext {
    var whichSha: ShaVersion
    var hashSize: nat
    var blockSize: nat
    const shaContext: USHAContext
    const kOpad: array<bv8>

    ghost var key: seq<bv8>
    ghost var text: seq<bv8>

    ghost function Repr(): set<object> {
      {this, kOpad} + shaContext.Repr()
    }

    ghost predicate Separate() {
      kOpad.Length == 128 && kOpad != shaContext.messageBlock
    }

    /** The inner hash has consumed the inner pad and the text so far. */
    ghost predicate Valid()
      reads Repr()
    {
      && Separate() && shaContext.Valid()
      && shaContext.whichSha == whichSha && blockSize == BlockSize(whichSha) && hashSize == HashSize(whichSha)
      && kOpad[..blockSize] == XorWith(KeyBlock(whichSha, key), 0x5c)
      && (shaContext.corrupted == SHA_SUCCESS ==> shaContext.consumed == XorWith(KeyBlock(whichSha, key), 0x36) + text)
    }

    constructor ()
      ensures fresh(Repr()) && Separate() && shaContext.Valid()
    {
      whichSha, hashSize, blockSize := SHA1, 20, 64;
      key, text := [], [];
      shaContext := new USHAContext();
      kOpad := new bv8[128];
    }

    /** hmacReset: a key longer than a block is replaced by its hash. */
    method Reset(version: ShaVersion, keyBytes: array<bv8>, keyLen: nat) returns (r: nat)
      requires Separate() && shaContext.Valid() && keyLen <= keyBytes.Length && keyBytes !in Repr()
      modifies Repr()
      ensures (r == SHA_SUCCESS) == (8 * keyLen < BitLimit(version))
      ensures r == SHA_SUCCESS ==> Valid() && whichSha == version && key == keyBytes[..keyLen] && text == []
      ensures r == SHA_SUCCESS ==> shaContext.corrupted == SHA_SUCCESS && !shaContext.computed && shaContext.tail == []
    {
      BlockFits(version);
      hide FinalHash, ToBits, Sha, USHAContext.Valid, XorWith, KeyBlock, BitLimit, Fill, Hmac, Xor;
      blockSize, hashSize := BlockSize(version), HashSize(version);
      whichSha := version;
      key, text := keyBytes[..keyLen], [];
      var err, k, len := ShortenKey(version, keyBytes, keyLen);
      if err != SHA_SUCCESS {
        return err;
      }
      var kIpad := MakePads(k, len);
      r := StartInner(kIpad);
    }

    /** The inner hash begins with the inner pad. */
    method StartInner(kIpad: array<bv8>) returns (r: nat)
      requires Separate() && shaContext.Valid() && kIpad.Length == 128 && kIpad !in Repr() && blockSize == BlockSize(whichSha)
      modifies shaContext.Repr()
      ensures r == SHA_SUCCESS && shaContext.Valid() && shaContext.whichSha == whichSha && shaContext.consumed == kIpad[..blockSize]
      ensures shaContext.corrupted == SHA_SUCCESS && !shaContext.computed && shaContext.tail == []
    {
      BlockFits(whichSha);
      hide FinalHash, ToBits, Sha, USHAContext.Valid, BitLimit;
      r := shaContext.Reset(whichSha);
      r := shaContext.Input(kIpad, blockSize);
    }

    /** The key, or the hash of a key longer than a block. */
    static method ShortenKey(version: ShaVersion, keyBytes: array<bv8>, keyLen: nat) returns (err: nat, k: array<bv8>, len: nat)
      requires keyLen <= keyBytes.Length
      ensures (err == SHA_SUCCESS) == (8 * keyLen < BitLimit(version))
      ensures k == keyBytes || fresh(k)
      ensures err == SHA_SUCCESS ==>
        len <= k.Length && len <= BlockSize(version) && k[..len] + Fill(0, BlockSize(version) - len) == KeyBlock(version, keyBytes[..keyLen])
    {
      hide FinalHash, ToBits, Sha, USHAContext.Valid;
      k, len := keyBytes, keyLen;
      if keyLen <= BlockSize(version) {
        return SHA_SUCCESS, k, len;
      }
      ghost var bytes := keyBytes[..keyLen];
      var tempKey := new bv8[64];
      var context := new USHAContext();
      err := context.Reset(version);
      err := context.Input(keyBytes, keyLen);
      err := context.Result(tempKey);
      assert err == SHA_SUCCESS ==> context.consumed == bytes;
      assert ToBits(bytes) + [] == ToBits(bytes);
      k, len := tempKey, HashSize(version);
    }

    /** The two loops that fill both pads. */
    method MakePads(k: array<bv8>, len: nat) returns (kIpad: array<bv8>)
      requires Separate() && len <= k.Length && len <= blockSize <= 128 && k != kOpad
      modifies kOpad
      ensures fresh(kIpad) && kIpad.Length == 128
      ensures kIpad[..blockSize] == XorWith(k[..len] + Fill(0, blockSize - len), 0x36)
      ensures kOpad[..blockSize] == XorWith(k[..len] + Fill(0, blockSize - len), 0x5c)
    {
      assert Xor(0, 0x36) == 0x36 && Xor(0, 0x5c) == 0x5c;
      hide Xor;
      kIpad := new bv8[128];
      var i := 0;
      while i < len
        invariant 0 <= i <= len
        invariant forall j :: 0 <= j < i ==> kIpad[j] == Xor(k[j], 0x36)
        invariant forall j :: 0 <= j < i ==> kOpad[j] == Xor(k[j], 0x5c)
      {
        kIpad[i] := Xor(k[i], 0x36);
        kOpad[i] := Xor(k[i], 0x5c);
        i := i + 1;
      }
      while i < blockSize
        invariant len <= i <= blockSize
        invariant forall j :: 0 <= j < len ==> kIpad[j] == Xor(k[j], 0x36)
        invariant forall j :: 0 <= j < len ==> kOpad[j] == Xor(k[j], 0x5c)
        invariant forall j :: len <= j < i ==> kIpad[j] == 0x36
        invariant forall j :: len <= j < i ==> kOpad[j] == 0x5c
      {
        kIpad[i] := 0x36;
        kOpad[i] := 0x5c;
        i := i + 1;
      }
      PadIs(kIpad[..blockSize], k[..len], blockSize, 0x36);
      PadIs(kOpad[..blockSize], k[..len], blockSize, 0x5c);
    }

    /** hmacInput. */
    method Input(message: array<bv8>, length: nat) returns (r: nat)
      requires Valid() && length <= message.Length && message !in Repr()
      modifies Repr()
      ensures Valid() && whichSha == old(whichSha) && key == old(key)
      ensures shaContext.computed == old(shaContext.computed) && shaContext.tail == old(shaContext.tail)
      ensures length == 0 ==> r == SHA_SUCCESS && text == old(text) && shaContext.corrupted == old(shaContext.corrupted)
      ensures length > 0 && old(shaContext.computed) ==> r == shaContext.corrupted == SHA_STATE_ERROR && text == old(text)
      ensures length > 0 && !old(shaContext.computed) && old(shaContext.corrupted) != SHA_SUCCESS ==>
        r == shaContext.corrupted == old(shaContext.corrupted) && text == old(text)
      ensures old(shaContext.corrupted) == SHA_SUCCESS && !old(shaContext.computed) ==>
        r == SHA_SUCCESS
        && if 8 * (BlockSize(whichSha) + |old(text)| + length) < BitLimit(whichSha)
           then shaContext.corrupted == SHA_SUCCESS && text == old(text) + message[..length]
           else shaContext.corrupted != SHA_SUCCESS
    {
      hide ToBits, Sha, USHAContext.Valid, BitLimit;
      r := shaContext.Input(message, length);
      assert length == 0 ==> text + message[..length] == text;
      if shaContext.corrupted == SHA_SUCCESS {
        text := text + message[..length];
      }
    }

    /** hmacFinalBits. */
    method FinalBits(bits: bv8, length: nat) returns (r: nat)
      requires Valid()
      modifies Repr()
      ensures Valid() && whichSha == old(whichSha) && key == old(key) && text == old(text)
      ensures length == 0 ==> r == SHA_SUCCESS && shaContext.corrupted == old(shaContext.corrupted)
                              && shaContext.computed == old(shaContext.computed) && shaContext.tail == old(shaContext.tail)
      ensures length > 0 && (old(shaContext.computed) || length >= 8) ==> r == shaContext.corrupted == SHA_STATE_ERROR
      ensures 0 < length < 8 && !old(shaContext.computed) && old(shaContext.corrupted) != SHA_SUCCESS ==>
        r == shaContext.corrupted == old(shaContext.corrupted)
      ensures 0 < length < 8 && !old(shaContext.computed) && old(shaContext.corrupted) == SHA_SUCCESS ==>
        r == shaContext.corrupted == SHA_SUCCESS && shaContext.computed && shaContext.tail == BitsOfByte(bits)[..length]
    {
      hide ToBits, Sha, USHAContext.Valid, BitsOfByte;
      r := shaContext.FinalBits(bits, length);
    }

    /** hmacResult: `digest` holds the inner hash before it receives the result. */
    method Result(digest: array<bv8>) returns (r: nat)
      requires Valid() && digest !in Repr() && hashSize <= digest.Length
      modifies Repr(), digest
      ensures (r == SHA_SUCCESS) == (old(shaContext.corrupted) == SHA_SUCCESS)
      ensures r == SHA_SUCCESS ==> digest[..HashSize(old(whichSha))] == Hmac(old(whichSha), old(key), old(ToBits(text) + shaContext.tail))
    {
      hide ToBits, Sha, USHAContext.Valid, KeyBlock, FinalHash;
      ghost var v, ipad, opad := whichSha, XorWith(KeyBlock(whichSha, key), 0x36), XorWith(KeyBlock(whichSha, key), 0x5c);
      ghost var inner := Sha(v, ToBits(ipad) + (ToBits(text) + shaContext.tail));
      ToBitsConcat(ipad, text);
      assert ToBits(ipad + text) + shaContext.tail == ToBits(ipad) + (ToBits(text) + shaContext.tail);
      r := shaContext.Result(digest);
      if r != SHA_SUCCESS {
        return 1;
      }
      assert digest[..hashSize] == inner;
      r := shaContext.Reset(whichSha);
      r := shaContext.Input(kOpad, blockSize);
      r := shaContext.Input(digest, hashSize);
      assert shaContext.consumed == opad + inner;
      r := shaContext.Result(digest);
      assert ToBits(opad + inner) + [] == ToBits(opad + inner);
    }
  }

  /** What the two loops leave in a pad. */
  lemma PadIs(pad: seq<bv8>, key: seq<bv8>, n: nat, b: bv8)
    requires |key| <= n == |pad| && Xor(0, b) == b
    requires forall j :: 0 <= j < |key| ==> pad[j] == Xor(key[j], b)
    requires forall j :: |key| <= j < n ==> pad[j] == b
    ensures pad == XorWith(key + Fill(0, n - |key|), b)
  {
    hide Xor;
  }

  lemma BlockFits(v: ShaVersion)
    ensures 8 * BlockSize(v) < BitLimit(v) && BlockSize(v) <= 128
  {
  }

  /** hmac: the one-shot form. */
  method ComputeHmac(version: ShaVersion, message: array<bv8>, textLen: nat, keyBytes: array<bv8>, keyLen: nat, digest: array<bv8>)
    returns (r: nat)
    requires textLen <= message.Length && keyLen <= keyBytes.Length && HashSize(version) <= digest.Length
    modifies digest
    ensures (r == SHA_SUCCESS) == (8 * keyLen < BitLimit(version) && 8 * (BlockSize(version) + textLen) < BitLimit(version))
    ensures r == SHA_SUCCESS ==> digest[..HashSize(version)] == old(Hmac(version, keyBytes[..keyLen], ToBits(message[..textLen])))
  {
    hide ToBits, Hmac, USHAContext.Valid, XorWith, KeyBlock, BitLimit;
    ghost var text := message[..textLen];
    var context := new HMACContext();
    r := context.Reset(version, keyBytes, keyLen);
    if r == SHA_SUCCESS {
      r := context.Input(message, textLen);
      if r == SHA_SUCCESS {
        assert context.shaContext.corrupted == SHA_SUCCESS ==> context.text == text;
        assert ToBits(text) + [] == ToBits(text);
        r := context.Result(digest);
      }
    }
  }
}
