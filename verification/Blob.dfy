/** Uploading a large blob in blocks (blob.c, the path for sizes of 64 MB and above). */
module Blob {
  import opened CrtAbstractions
  import opened Wrappers
  import Base64

  const BLOCK_SIZE := 4 * 1024 * 1024
  const LARGE := 64 * 1024 * 1024
  const MAX_BLOCKS := 50000

  datatype BlobResult = BLOB_OK | BLOB_ERROR | BLOB_HTTP_ERROR

  /** A PUT request, whether it was executed at all, and the status of its response. */
  datatype Put =
    | PutBlock(path: string, content: seq<Base64.Byte>, executed: bool, status: nat)
    | PutList(path: string, xml: string, executed: bool)

  // ---- blocks ----

  function Min(a: int, b: int): int {
    if a < b then a else b
  }

  /** The k-th block of the source. */
  function Block(source: seq<Base64.Byte>, k: nat): (r: seq<Base64.Byte>)
    requires BLOCK_SIZE * k < |source|
    ensures 0 < |r| <= BLOCK_SIZE
  {
    source[BLOCK_SIZE * k..Min(BLOCK_SIZE * (k + 1), |source|)]
  }

  /** Enough blocks to cover the source, and not one more. */
  predicate Covers(n: nat, size: nat) {
    BLOCK_SIZE * n >= size && (n > 0 ==> BLOCK_SIZE * (n - 1) < size)
  }

  function Together(source: seq<Base64.Byte>, n: nat): seq<Base64.Byte>
    requires n > 0 ==> BLOCK_SIZE * (n - 1) < |source|
  {
    if n == 0 then [] else Together(source, n - 1) + Block(source, n - 1)
  }

  /** The first n blocks together are the front of the source, and all of it when they cover it. */
  lemma {:induction false} BlocksCover(source: seq<Base64.Byte>, n: nat)
    requires n > 0 ==> BLOCK_SIZE * (n - 1) < |source|
    ensures Together(source, n) == source[..Min(BLOCK_SIZE * n, |source|)]
    ensures Covers(n, |source|) ==> Together(source, n) == source
  {
    if n > 0 {
      BlocksCover(source, n - 1);
      var a, b := BLOCK_SIZE * (n - 1), Min(BLOCK_SIZE * n, |source|);
      assert source[..a] + source[a..b] == source[..b];
    }
    assert source[..|source|] == source;
  }

  // ---- block identifiers ----

  /** sprintf with "%6u". */
  function Padded(k: nat): string {
    Spaces(6 - |Decimal(k)|) + Decimal(k)
  }

  function Spaces(n: int): (r: string)
    ensures |r| == (if n < 0 then 0 else n) && forall i :: 0 <= i < |r| ==> r[i] == ' '
  {
    if n <= 0 then "" else Spaces(n - 1) + " "
  }

  function BlockId(k: nat): string
    requires IsText(Padded(k))
  {
    Base64.Encode(Base64.TextBytes(Padded(k)))
  }

  lemma PaddedSix(k: nat)
    requires k < MAX_BLOCKS
    ensures |Padded(k)| == 6 && IsText(Padded(k))
  {
    assert PowerOf10(5) == 10_0000;
    DigitCount(k, 5);
    hide Decimal;
    forall i | 0 <= i < |Padded(k)|
      ensures 0 < Padded(k)[i] as int < 256
    {
      if i >= 6 - |Decimal(k)| {
        DecimalAt(k, i - (6 - |Decimal(k)|));
      }
    }
  }

  lemma PaddedDistinct(j: nat, k: nat)
    requires j < MAX_BLOCKS && k < MAX_BLOCKS && Padded(j) == Padded(k)
    ensures j == k
  {
    PaddedSix(j);
    PaddedSix(k);
    hide Decimal, Number;
    var a, b := 6 - |Decimal(j)|, 6 - |Decimal(k)|;
    DecimalAt(j, 0);
    DecimalAt(k, 0);
    assert Padded(j)[a] == Decimal(j)[0] && Padded(k)[b] == Decimal(k)[0];
    assert a == b;
    assert Decimal(j) == Padded(j)[a..] && Decimal(k) == Padded(k)[b..];
    DecimalNumber(j);
    DecimalNumber(k);
  }

  /** No two blocks of an upload carry the same identifier. */
  lemma DistinctIds(j: nat, k: nat)
    requires j < k < MAX_BLOCKS
    ensures IsText(Padded(j)) && IsText(Padded(k)) && BlockId(j) != BlockId(k)
  {
    PaddedSix(j);
    PaddedSix(k);
    var a, b := Padded(j), Padded(k);
    hide Padded, Base64.Encode, Base64.Decode;
    Base64.DecodeEncode(Base64.TextBytes(a));
    Base64.DecodeEncode(Base64.TextBytes(b));
    if BlockId(j) == BlockId(k) {
      assert Base64.TextBytes(a) == Base64.TextBytes(b);
      assert forall i :: 0 <= i < 6 ==> a[i] as int == Base64.TextBytes(a)[i] && b[i] as int == Base64.TextBytes(b)[i];
      assert a == b;
      PaddedDistinct(j, k);
    }
  }

  // ---- the block list ----

  const XML_HEAD := "<?xml version=\"1.0\" encoding=\"utf-8\"?>\r\n<BlockList>"

  /** The identifiers of the first n blocks, in order. */
  function Listed(n: nat): string
    requires forall k :: 0 <= k < n ==> IsText(Padded(k))
  {
    if n == 0 then "" else Listed(n - 1) + "<Latest>" + BlockId(n - 1) + "</Latest>"
  }

  function BlockList(n: nat): string
    requires forall k :: 0 <= k < n ==> IsText(Padded(k))
  {
    XML_HEAD + Listed(n) + "</BlockList>"
  }

  /** The identifiers that a reader of the block list finds, from the first "<Latest>" on. */
  function ReadItems(t: string): Option<seq<string>>
    decreases |t|
  {
    if t == "</BlockList>" then Some([])
    else if |t| < 8 || t[..8] != "<Latest>" then None
    else
      var id := UpTo(t[8..], '<');
      var rest := t[8 + |id|..];
      if |rest| < 9 || rest[..9] != "</Latest>" then None
      else
        match ReadItems(rest[9..])
        case None => None
        case Some(ids) => Some([id] + ids)
  }

  /** The identifiers of a document with an XML declaration and one BlockList element. */
  function ReadList(xml: string): Option<seq<string>> {
    var start := "<?xml version=\"1.0\" encoding=\"utf-8\"?>\r\n<BlockList>";
    if start <= xml then ReadItems(xml[|start|..]) else None
  }

  function Identifiers(n: nat): (r: seq<string>)
    requires forall k :: 0 <= k < n ==> IsText(Padded(k))
    ensures |r| == n
  {
    if n == 0 then [] else Identifiers(n - 1) + [BlockId(n - 1)]
  }

  function Elements(ids: seq<string>): string {
    if ids == [] then "" else "<Latest>" + ids[0] + "</Latest>" + Elements(ids[1..])
  }

  lemma {:induction false} ElementsSnoc(ids: seq<string>, id: string)
    ensures Elements(ids + [id]) == Elements(ids) + ("<Latest>" + id + "</Latest>")
  {
    if ids == [] {
      assert ids + [id] == [id] && [id][1..] == [];
    } else {
      assert (ids + [id])[1..] == ids[1..] + [id];
      ElementsSnoc(ids[1..], id);
    }
  }

  lemma {:induction false} ListedElements(n: nat)
    requires forall k :: 0 <= k < n ==> IsText(Padded(k))
    ensures Listed(n) == Elements(Identifiers(n))
  {
    hide BlockId, Padded;
    if n > 0 {
      ListedElements(n - 1);
      ElementsSnoc(Identifiers(n - 1), BlockId(n - 1));
      assert Listed(n - 1) + "<Latest>" + BlockId(n - 1) + "</Latest>" == Listed(n - 1) + ("<Latest>" + BlockId(n - 1) + "</Latest>");
    }
  }

  lemma ReadOne(id: string, rest: string)
    requires '<' !in id
    ensures ReadItems("<Latest>" + id + "</Latest>" + rest) ==
      match ReadItems(rest) { case None => None case Some(ids) => Some([id] + ids) }
  {
    hide UpTo;
    var t := "<Latest>" + id + "</Latest>" + rest;
    assert t[..8] == "<Latest>" && t[8..] == id + ("</Latest>" + rest);
    assert t[8..][..|id|] == id;
    UpToIs(t[8..], |id|, '<');
    assert t[8 + |id|..] == "</Latest>" + rest;
    assert ("</Latest>" + rest)[..9] == "</Latest>" && ("</Latest>" + rest)[9..] == rest;
  }

  lemma {:induction false} ReadElements(ids: seq<string>)
    requires forall id :: id in ids ==> '<' !in id
    ensures ReadItems(Elements(ids) + "</BlockList>") == Some(ids)
  {
    hide ReadItems;
    if ids == [] {
      assert "" + "</BlockList>" == "</BlockList>";
      NothingLeft();
    } else {
      ReadElements(ids[1..]);
      ReadOne(ids[0], Elements(ids[1..]) + "</BlockList>");
      assert Elements(ids) + "</BlockList>" == "<Latest>" + ids[0] + "</Latest>" + (Elements(ids[1..]) + "</BlockList>");
      assert ids == [ids[0]] + ids[1..];
    }
  }

  lemma NothingLeft()
    ensures ReadItems("</BlockList>") == Some([])
  {
  }

  lemma {:induction false} IdentifiersPlain(n: nat)
    requires forall k :: 0 <= k < n ==> IsText(Padded(k))
    ensures forall id :: id in Identifiers(n) ==> '<' !in id
    ensures forall k :: 0 <= k < n ==> Identifiers(n)[k] == BlockId(k)
  {
    hide Padded, Base64.Encode;
    if n > 0 {
      IdentifiersPlain(n - 1);
      Base64.EncodeAlphabet(Base64.TextBytes(Padded(n - 1)));
    }
  }

  /** A reader of the block list finds the identifiers of the blocks, in order. */
  lemma ListRead(n: nat)
    requires forall k :: 0 <= k < n ==> IsText(Padded(k))
    ensures ReadList(BlockList(n)) == Some(Identifiers(n))
    ensures forall k :: 0 <= k < n ==> Identifiers(n)[k] == BlockId(k)
  {
    hide ReadItems, Listed, Identifiers, Padded, BlockId;
    IdentifiersPlain(n);
    ListedElements(n);
    ReadElements(Identifiers(n));
    assert BlockList(n) == XML_HEAD + (Listed(n) + "</BlockList>");
  }

  lemma PaddedNumber(k: nat)
    ensures var t := Padded(k);
      AllDigits(t[SpaceRun(t)..], 10) && Number(t[SpaceRun(t)..], 10) == k
  {
    hide Decimal, Number, AllDigits;
    DecimalNumber(k);
    DecimalAt(k, 0);
    var spaces := Spaces(6 - |Decimal(k)|);
    hide Spaces, SpaceRun;
    SpacesRun(spaces, Decimal(k));
    assert Padded(k)[|spaces|..] == Decimal(k);
  }

  /** An identifier is the base64 text of the number of its block, behind spaces. */
  lemma IdentifierNumber(k: nat)
    requires k < MAX_BLOCKS
    ensures IsText(Padded(k))
    ensures var t := Padded(k);
      && Base64.Decode(BlockId(k)[..Base64.PrefixLength(BlockId(k))]) == Base64.TextBytes(t)
      && AllDigits(t[SpaceRun(t)..], 10) && Number(t[SpaceRun(t)..], 10) == k
  {
    PaddedSix(k);
    PaddedNumber(k);
    hide Base64.Encode, Base64.Decode, Base64.PrefixLength, Padded, SpaceRun, Number, AllDigits, Base64.DecodeLength;
    Base64.DecodeEncode(Base64.TextBytes(Padded(k)));
  }

  lemma {:induction false} SpacesRun(spaces: string, s: string)
    requires (forall i :: 0 <= i < |spaces| ==> spaces[i] == ' ') && s != "" && !IsSpace(s[0])
    ensures SpaceRun(spaces + s) == |spaces|
  {
    if spaces == "" {
      assert spaces + s == s;
    } else {
      assert (spaces + s)[1..] == spaces[1..] + s;
      SpacesRun(spaces[1..], s);
    }
  }

  // ---- the upload ----

  /** The first n requests: the blocks in order, each under its own identifier. */
  ghost predicate InBlocks(puts: seq<Put>, n: nat, source: seq<Base64.Byte>, path: string) {
    && n <= |puts| && n <= MAX_BLOCKS
    && forall k :: 0 <= k < n ==>
         BLOCK_SIZE * k < |source| && IsText(Padded(k)) && puts[k].PutBlock?
         && puts[k].path == path + "&comp=block&blockid=" + BlockId(k) && puts[k].content == Block(source, k)
  }

  predicate Accepted(p: Put) {
    p.PutBlock? && p.executed && p.status < 300
  }

  /** The requests of an upload: only the last of the blocks may have failed, and the block list
      is put when none failed, they cover the source, and it names them all. */
  ghost predicate Proper(puts: seq<Put>, source: seq<Base64.Byte>, path: string) {
    || (InBlocks(puts, |puts|, source, path) && forall k :: 0 <= k < |puts| - 1 ==> Accepted(puts[k]))
    || Committed(puts, source, path)
  }

  ghost predicate Committed(puts: seq<Put>, source: seq<Base64.Byte>, path: string) {
    var n := |puts| - 1;
    && n >= 0 && InBlocks(puts, n, source, path) && (forall k :: 0 <= k < n ==> Accepted(puts[k]))
    && Covers(n, |source|) && puts[n].PutList? && puts[n].path == path + "&comp=blocklist" && puts[n].xml == BlockList(n)
  }

  /** Blob_UploadFromSasUri from the relative path on, for a source of 64 MB or more.  A response
      with a status from 300 up ends the upload, and still counts as success.  Without `memory` any
      allocation may fail: the one of the block list is answered with BLOB_HTTP_ERROR before
      anything is sent, every other one with BLOB_ERROR. */
  method UploadLarge(source: seq<Base64.Byte>, relativePath: string, memory: bool) returns (result: BlobResult, puts: seq<Put>)
    requires LARGE <= |source| <= MAX_BLOCKS * BLOCK_SIZE
    ensures Proper(puts, source, relativePath)
    ensures result == BLOB_OK ==> puts != [] && if puts[|puts| - 1].PutList? then puts[|puts| - 1].executed
                                                else puts[|puts| - 1].executed && puts[|puts| - 1].status >= 300
    ensures result == BLOB_HTTP_ERROR ==> if puts == [] then !memory else !puts[|puts| - 1].executed
    ensures result == BLOB_ERROR ==> !memory && !Committed(puts, source, relativePath)
  {
    hide Block, BlockId, Padded, Listed;
    puts, result := [], BLOB_HTTP_ERROR;
    var constructed: bool := *;
    if !memory && !constructed {
      return;
    }
    result := BLOB_ERROR;
    var toUpload, blockID, isError, xml := |source|, 0, false, XML_HEAD;
    NothingListed();
    while toUpload > 0 && !isError
      invariant blockID <= MAX_BLOCKS && toUpload == |source| - Min(BLOCK_SIZE * blockID, |source|)
      invariant blockID > 0 ==> BLOCK_SIZE * (blockID - 1) < |source|
      invariant forall k :: 0 <= k < blockID ==> IsText(Padded(k))
      invariant !isError ==> |puts| == blockID && xml == XML_HEAD + Listed(blockID) && result == BLOB_ERROR
      invariant !isError ==> InBlocks(puts, blockID, source, relativePath) && forall k :: 0 <= k < blockID ==> Accepted(puts[k])
      invariant isError ==> InBlocks(puts, |puts|, source, relativePath) && forall k :: 0 <= k < |puts| - 1 ==> Accepted(puts[k])
      invariant isError && memory ==> result != BLOB_ERROR
      invariant isError ==> (result == BLOB_OK ==> puts != [] && puts[|puts| - 1].executed && puts[|puts| - 1].status >= 300)
                            && (result == BLOB_HTTP_ERROR ==> puts != [] && !puts[|puts| - 1].executed)
      decreases toUpload, !isError
    {
      var thisBlockSize := if toUpload > BLOCK_SIZE then BLOCK_SIZE else toUpload;
      PaddedSix(blockID);
      var built, element, request := UploadBlock(source, relativePath, blockID, toUpload, memory);
      if !built {
        isError := true;
      } else {
        ListedStep(blockID);
        xml := xml + element;
        puts := puts + [request];
        if !request.executed {
          result, isError := BLOB_HTTP_ERROR, true;
        } else if request.status >= 300 {
          result, isError := BLOB_OK, true;
        }
      }
      blockID := blockID + 1;
      toUpload := toUpload - thisBlockSize;
    }
    if !isError {
      xml := xml + "</BlockList>";
      var enough: bool := *;
      if memory || enough {
        var executed, _ := ExecuteRequest();
        puts := puts + [PutList(relativePath + "&comp=blocklist", xml, executed)];
        result := if executed then BLOB_OK else BLOB_HTTP_ERROR;
      }
    }
  }

  /** One turn of the loop: the element of the block list, and the request with its response. */
  method UploadBlock(source: seq<Base64.Byte>, relativePath: string, blockID: nat, toUpload: nat, memory: bool)
    returns (built: bool, element: string, request: Put)
    requires IsText(Padded(blockID)) && |Padded(blockID)| == 6
    requires BLOCK_SIZE * blockID < |source| && toUpload == |source| - BLOCK_SIZE * blockID
    ensures memory ==> built
    ensures built ==> element == "<Latest>" + BlockId(blockID) + "</Latest>"
    ensures built ==> request.PutBlock? && request.path == relativePath + "&comp=block&blockid=" + BlockId(blockID)
                      && request.content == Block(source, blockID)
  {
    hide Block, BlockId, Padded;
    var thisBlockSize := if toUpload > BLOCK_SIZE then BLOCK_SIZE else toUpload;
    built, element, request := false, "", PutBlock("", [], false, 0);
    var enough: bool := *;
    if |Padded(blockID)| != 6 || !(memory || enough) {
      return;
    }
    var blockIdString := Base64.Base64EncodeInternal(Base64.TextBytes(Padded(blockID)));
    BlockIdIs(blockID);
    BlockSlice(source, blockID, toUpload);
    element := "<Latest>" + blockIdString + "</Latest>";
    var newRelativePath := relativePath + "&comp=block&blockid=" + blockIdString;
    var first := |source| - toUpload;
    var requestContent := source[first..first + thisBlockSize];
    var executed, httpStatus := ExecuteRequest();
    built, request := true, PutBlock(newRelativePath, requestContent, executed, httpStatus);
  }

  /** HTTPAPIEX_ExecuteRequest as the upload sees it. */
  method ExecuteRequest() returns (executed: bool, httpStatus: nat)
  {
    executed := *;
    httpStatus :| httpStatus >= 0;
  }

  lemma NothingListed()
    ensures Listed(0) == "" && XML_HEAD + "" == XML_HEAD
  {
  }

  lemma ListedStep(n: nat)
    requires forall k :: 0 <= k < n + 1 ==> IsText(Padded(k))
    ensures XML_HEAD + Listed(n + 1) == XML_HEAD + Listed(n) + ("<Latest>" + BlockId(n) + "</Latest>")
  {
    hide BlockId, Padded;
    assert Listed(n) + "<Latest>" + BlockId(n) + "</Latest>" == Listed(n) + ("<Latest>" + BlockId(n) + "</Latest>");
  }

  lemma BlockSlice(source: seq<Base64.Byte>, k: nat, toUpload: nat)
    requires BLOCK_SIZE * k < |source| && toUpload == |source| - BLOCK_SIZE * k
    ensures Block(source, k) == source[BLOCK_SIZE * k..BLOCK_SIZE * k + if toUpload > BLOCK_SIZE then BLOCK_SIZE else toUpload]
  {
  }

  lemma BlockIdIs(k: nat)
    requires IsText(Padded(k))
    ensures BlockId(k) == Base64.Encode(Base64.TextBytes(Padded(k)))
  {
  }
}
