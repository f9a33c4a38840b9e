# A verified model of the device client's utility layer

These Dafny files model the parts of the trustmile capture device firmware that do real work below the
sketch: the hash and token code, the connection state machines, the delivery of confirmations, and the
containers, parsers and printers they use. Each C source file has a module of the same kind: a struct
that its functions update is a class, a loop is a loop, a pure switch is a function. Every method is
proved against a function or predicate that says what it is for, and the lemmas prove what the source
promises about those functions.

`dafny verify dfyconfig.toml` checks the whole project.

## What is proved

- **Hashing** (`Sha1`, `Sha256`, `Sha512`, `ShaSpec`, `Usha`, `ShaReference`, `ShaConstants`). The in-place
  compression loops compute the recurrences of FIPS 180-2, and these equal a second definition by rotations
  and sequences; the constants are the digits of roots. A context of any of the five algorithms, fed with any
  pieces and up to seven final bits, ends with the hash of sections 5 and 6 of FIPS 180-2 over exactly the
  bits it consumed; its two-word counter is their number, and it is corrupted exactly when that number
  overflows the length field or the calls come out of order.
- **HMAC** (`Hmac`). The result is H(K xor opad, H(K xor ipad, text)) of section 2 of RFC 2104 for a key of
  any length and a text in any pieces; which keys are filled, used as they are or hashed is stated on the
  result.
- **Tokens** (`SasToken`, `SasTokenOrder`, with `Base64`, `UrlEncode`, `CrtAbstractions`). The scanner with
  its six indices accepts a printed token exactly when the scope has at least two characters and the expiry is
  positive and not past; for scopes and key names that hold markers of their own, and for fields in any order,
  the exact condition is proved too. What is signed, and each parameter of a token, can be read back. Base64
  and URL encoding are tied to RFC 4648, RFC 3986 and UTF-8, with their inverses, and number parsing to the
  `strtoull` of ISO C on every text, with the exact condition under which it differs.
- **The CONNECT tunnel** (`HttpProxyIo`, `HttpProxyTraffic`). Whatever the chunks, behind a header with a
  well-formed status line the rest of the stream is handed on for a code that starts with 2, and nothing for
  any other; independence of the chunks holds for exactly the headers that decide their own status, and later
  opens hand on the right stream for exactly the texts that an earlier one may leave in the buffer. A run
  completes every open once exactly when no step of it is the one that is named, which needs a second open. In
  the other direction the socket gets exactly the requests and what is sent through an open tunnel, and a
  proxy can read the request.
- **Confirmations** (`IotHubClient`, over `Vector`). Over every interleaving of the application thread and the
  worker, with failed allocations, confirmations come up in the order and with the results of the reports,
  once for each accepted event, each queue context is freed once, and a destruction can always end. They reach
  the callbacks of their own events, under every interleaving, exactly for applications that do not change the
  callback.
- **Retries** (`HttpApiEx`). The calls of every request are one of a few words, which bracket correctly and
  bound the attempts.
- **The device client** (`Esp32MqttClient`), **block upload** (`Blob`), **linked lists** (`DoublyLinkedList`),
  **memory accounting** (`Gballoc`), **the map and its JSON** (`Map`, `Strings`), **connection strings**
  (`StringTokenizer`, `ConnectionStringParser`).

## Where the code differs from what one expects

The model follows the code. The places where that matters:

- A scope of one character makes a token that is never accepted, and a "se=" in the key name replaces the
  expiry that was printed (`SasToken.PrintedAccepted`, on every scope and key name).
- An expiry with an ampersand behind it is read without its last digit, so that a token with "se=" before
  another field is accepted only until a tenth of its expiry (`SasTokenOrder.OrderMatters`).
- `strtoull_s` takes a zero that starts no longer numeral for a prefix: "0" in bases 0 and 8, and "0x" without
  a hexadecimal digit in bases 0 and 16, are not converted. It negates the saturated value, so that a number
  too large for 64 bits with a minus sign is 1 and not `ULLONG_MAX`. These are the only differences from
  ISO C (`CrtAbstractions.AgreesWithStandard`, `CrtAbstractions.ParseDigits`).
- The tunnel keeps its receive buffer when it is opened again (`HttpProxyIo.SecondOpenDoubles`); for which
  buffers that does no harm to the stream is `HttpProxyIo.KeptBuffer`. It reads the status in base 0, so that
  "0310" and "0xC8" are 200 (`HttpProxyIo.OtherBases`); which codes are read in decimal is
  `HttpProxyIo.DecimalCode`.
- The confirmation callback is one field of the client: a confirmation goes to the callback of the last send
  that was started (`IotHubClient.DeliveredToLast`). Which applications that harms is
  `IotHubClient.OwnCallbacks`.
- Resetting the device client restarts the identifiers at 0, so that an OK can be missed; the exact condition
  is in `Esp32MqttClient.Client.SendEventOnce`, and `Esp32MqttClient.MissedConfirmation` reaches it from a
  closed client.
- A reported state that the transport has not taken when the lower layer is destroyed, or that it fails to
  publish, is forgotten without its callback, and its event instance is never freed
  (`Esp32MqttClient.Client.CloseForGood` says exactly which; `Esp32MqttClient.LostReport` reaches it).
- Block identifiers are padded with spaces; the comment beside the code shows zeros. A block answered with
  a status from 300 up ends the upload with the result `BLOB_OK`. When the allocation of the block list fails,
  the result is `BLOB_HTTP_ERROR` although nothing was sent; the comment there promises `BLOB_ERROR`.
- Removing the last pair of a map, or failing to add the first, removes its filter
  (`Map.StringMap.Delete`, `Map.StringMap.Add`). The JSON form has no space behind its commas.
- `gballoc_realloc` to size 0 keeps the record when the C library frees the block and returns NULL
  (`Gballoc.Accounts.Realloc`). `gballoc_init` resets the totals but not the list of records (`Gballoc.Accounts.Init`,
  `Gballoc.SecondSession`).
- With several delimiters the tokenizer cuts at the first one of the list that occurs, not at the nearest: the
  token is free of delimiters exactly when that one stands no later than the others
  (`StringTokenizer.ManyDelimiters`).

## Model

| member | source | states |
|---|---|---|
| `Sha1.PrepareSchedule` | arduino/trustmile-capture/src/az_iot/c-utility/src/sha1.c:379-387 | The first part of the loop array is the message schedule of section 6.1.2 of FIPS 180-2 |
| `Sha1.RunRounds` | arduino/trustmile-capture/src/az_iot/c-utility/src/sha1.c:389-429 | The four rotating loops leave in A..E the value of the eighty-round recursion |
| `Sha1.ProcessMessageBlock` | arduino/trustmile-capture/src/az_iot/c-utility/src/sha1.c:365-439 | The hash array becomes the compression of its old value and the block |
| `Sha256.PrepareSchedule` | arduino/trustmile-capture/src/az_iot/c-utility/src/sha224.c:476-484 | The array W is the message schedule of section 6.2.2 of FIPS 180-2 |
| `Sha256.RunRounds` | arduino/trustmile-capture/src/az_iot/c-utility/src/sha224.c:486-506 | The rotating loop leaves in A..H the value of the sixty-four-round recursion |
| `Sha256.ProcessMessageBlock` | arduino/trustmile-capture/src/az_iot/c-utility/src/sha224.c:450-518 | The hash array becomes the compression of its old value and the block |
| `Sha512.PrepareSchedule` | arduino/trustmile-capture/src/az_iot/c-utility/src/sha384-512.c:890-902 | The array W is the message schedule of section 6.3.2 of FIPS 180-2, on 64-bit words |
| `Sha512.RunRounds` | arduino/trustmile-capture/src/az_iot/c-utility/src/sha384-512.c:904-924 | The rotating loop leaves in A..H the value of the eighty-round recursion |
| `Sha512.ProcessMessageBlock` | arduino/trustmile-capture/src/az_iot/c-utility/src/sha384-512.c:882-937 | The hash array becomes the compression of its old value and the block |
| `ShaReference.WordsHoldBytes` | arduino/trustmile-capture/src/az_iot/c-utility/src/sha224.c:476-480 | Every word of a block holds its four or eight bytes most significant first, for all three files |
| `ShaReference.BytesHoldBits32` | arduino/trustmile-capture/src/az_iot/c-utility/src/sha224.c:594-597 | The bits of the digest bytes of a word are the bits of the word from the most significant one on |
| `ShaReference.BytesHoldBits64` | arduino/trustmile-capture/src/az_iot/c-utility/src/sha384-512.c:1039-1042 | The same for words of 64 bits |
| `ShaReference.Compress256` | arduino/trustmile-capture/src/az_iot/c-utility/src/sha224.c:450-518 | The block step adds the last four words of each of two sequences, defined by one recurrence over numbers, rotations and disjunctions, to the hash value |
| `ShaReference.Compress512` | arduino/trustmile-capture/src/az_iot/c-utility/src/sha384-512.c:850-936 | The same for 64-bit words |
| `ShaReference.Compress1` | arduino/trustmile-capture/src/az_iot/c-utility/src/sha1.c:365-437 | The block step adds the last five words of a single sequence to the hash value |
| `ShaReference.ModifiedMacros` | arduino/trustmile-capture/src/az_iot/c-utility/inc/azure_c_shared_utility/sha-private.h:16-28 | The two sets of macros for Ch and Maj are equivalent, as the header says |
| `ShaReference.ChBitByBit` | arduino/trustmile-capture/src/az_iot/c-utility/inc/azure_c_shared_utility/sha-private.h:17-17 | Each bit of x chooses between the bits of y and z |
| `ShaReference.MajBitByBit` | arduino/trustmile-capture/src/az_iot/c-utility/inc/azure_c_shared_utility/sha-private.h:18-18 | Each bit is the one on which two of the three words agree |
| `ShaConstants.CubeRoots` | arduino/trustmile-capture/src/az_iot/c-utility/src/sha384-512.c:853-881 | The eighty constants are the fractions of the cube roots of the first eighty primes to 64 places; the sixty-four of the shorter hashes are their upper halves |
| `ShaConstants.SquareRoots` | arduino/trustmile-capture/src/az_iot/c-utility/src/sha384-512.c:313-323 | The initial values of SHA-512 and SHA-384 are the fractions of the square roots of the first sixteen primes; those of SHA-256 and SHA-224 are halves of them |
| `ShaConstants.Constants1` | arduino/trustmile-capture/src/az_iot/c-utility/src/sha1.c:91-97 | SHA-1 starts from the hexadecimal digits counted up and down, and its four constants are the roots of 2, 3, 5 and 10 |
| `Bits.NatBitsNumber` | arduino/trustmile-capture/src/az_iot/c-utility/src/sha1.c:334-343 | The length field denotes the number it is made from, most significant bit first |
| `ShaSpec.ZeroBitsSolve` | arduino/trustmile-capture/src/az_iot/c-utility/src/sha384-512.c:642-706 | The number of zero bits is the least one with length + 1 + k = 448 mod 512, or 896 mod 1024 (sections 5.1.1 and 5.1.2 of FIPS 180-2) |
| `ShaSpec.PadFillsBlocks` | arduino/trustmile-capture/src/az_iot/c-utility/src/sha384-512.c:642-706 | A padded message is a whole number of blocks |
| `ShaSpec.BufferByte` | arduino/trustmile-capture/src/az_iot/c-utility/src/sha224.c:226-257 | Storing a byte, and folding a block that it fills, keeps the buffer and hash those of the bytes consumed |
| `ShaSpec.PadBytesIsPad` | arduino/trustmile-capture/src/az_iot/c-utility/src/sha224.c:395-429 | A pad byte made of final bits, zero bytes and the length field are exactly the padding of the bit string |
| `ShaSpec.LastBlock` | arduino/trustmile-capture/src/az_iot/c-utility/src/sha224.c:395-429 | With room for the length the padded message ends in one more block |
| `ShaSpec.LastTwoBlocks` | arduino/trustmile-capture/src/az_iot/c-utility/src/sha224.c:395-429 | Without room for the length it ends in two more blocks |
| `Usha.MaskAndMark` | arduino/trustmile-capture/src/az_iot/c-utility/src/sha224.c:282-314 | The masks and marks keep the first final bits of a byte and set the bit behind them |
| `Usha.USHAContext.constructor` | arduino/trustmile-capture/src/az_iot/c-utility/src/sha224.c:536-560 | A new context is empty |
| `Usha.USHAContext.Reset` | arduino/trustmile-capture/src/az_iot/c-utility/src/usha.c:30-60 | Any context becomes one that has consumed nothing, for the selected algorithm |
| `Usha.USHAContext.AddLength` | arduino/trustmile-capture/src/az_iot/c-utility/src/sha224.c:67-70 | The two-word counter grows by the number of bits, and the context is corrupted exactly when it overflows |
| `Usha.USHAContext.Input` | arduino/trustmile-capture/src/az_iot/c-utility/src/sha224.c:226-257 | The bytes are appended to those consumed; corrupted exactly on overflow of the counter, or on input after the result |
| `Usha.USHAContext.FinalBits` | arduino/trustmile-capture/src/az_iot/c-utility/src/sha224.c:278-315 | Up to seven more bits end the message, whose hash the context then holds |
| `Usha.USHAContext.PadMessage` | arduino/trustmile-capture/src/az_iot/c-utility/src/sha384-512.c:642-706 | Both cases of the padding leave the hash of the padded message |
| `Usha.USHAContext.Finalize` | arduino/trustmile-capture/src/az_iot/c-utility/src/sha384-512.c:574-590 | The context holds the final hash of the bits consumed, and its block and counter are cleared |
| `Usha.USHAContext.Result` | arduino/trustmile-capture/src/az_iot/c-utility/src/usha.c:160-190 | The digest is the hash of section 6 of FIPS 180-2 over the bytes and final bits consumed, whatever pieces they came in |
| `Usha.USHAContext.CopyDigest` | arduino/trustmile-capture/src/az_iot/c-utility/src/sha224.c:580-599 | The digest bytes are the leading bytes of the hash words, most significant first |
| `HmacSha.HMACContext.Reset` | arduino/trustmile-capture/src/az_iot/c-utility/src/hmac.c:72-132 | The inner hash has consumed the padded key; a key longer than a block is replaced by its hash |
| `HmacSha.HMACContext.ShortenKey` | arduino/trustmile-capture/src/az_iot/c-utility/src/hmac.c:93-103 | The bytes used are the key, or its hash when it is longer than a block |
| `HmacSha.ShortKey` | arduino/trustmile-capture/src/az_iot/c-utility/src/hmac.c:117-126 | A key shorter than a block and the same key with a zero byte more give the same result |
| `HmacSha.KeyOfOneBlock` | arduino/trustmile-capture/src/az_iot/c-utility/src/hmac.c:93-126 | A key of up to one block is used as it is, filled with zeros: the result is the two-fold hash over its pads |
| `HmacSha.LongKey` | arduino/trustmile-capture/src/az_iot/c-utility/src/hmac.c:93-103 | A key longer than a block gives the result of its hash as the key |
| `HmacSha.HMACContext.MakePads` | arduino/trustmile-capture/src/az_iot/c-utility/src/hmac.c:117-126 | Both pads are the key, filled with zeros, XORed with 0x36 and 0x5c |
| `HmacSha.HMACContext.Input` | arduino/trustmile-capture/src/az_iot/c-utility/src/hmac.c:154-160 | The text grows by the bytes given, until the counter overflows; a computed or corrupted context answers with its code |
| `HmacSha.HMACContext.FinalBits` | arduino/trustmile-capture/src/az_iot/c-utility/src/hmac.c:181-190 | Up to seven bits end the text; no bits change nothing, and eight or more, or a computed or corrupted context, are answered with a code |
| `HmacSha.HMACContext.Result` | arduino/trustmile-capture/src/az_iot/c-utility/src/hmac.c:211-231 | The digest is H(K xor opad, H(K xor ipad, text)) of section 2 of RFC 2104, although it first holds the inner hash |
| `HmacSha.ComputeHmac` | arduino/trustmile-capture/src/az_iot/c-utility/src/hmac.c:41-49 | The one-shot form computes the same value |
| `Base64.PackedB16` | arduino/trustmile-capture/src/az_iot/c-utility/src/base64.c:43-52 | The packed table holds base64char of the value shifted by two bits |
| `Base64.PackedB8` | arduino/trustmile-capture/src/az_iot/c-utility/src/base64.c:54-58 | The packed word holds base64char of the value shifted by four bits |
| `Base64.CharRoundTrip` | arduino/trustmile-capture/src/az_iot/c-utility/src/base64.c:60-89 | base64toValue inverts base64char on the sixty-four values |
| `Base64.Alphabet` | arduino/trustmile-capture/src/az_iot/c-utility/src/base64.c:13-89 | The characters are those of table 1 of RFC 4648, in both directions |
| `Base64.Base64EncodeInternal` | arduino/trustmile-capture/src/az_iot/c-utility/src/base64.c:236-314 | The loop and the two endings produce the encoding, and fill the buffer to its last place |
| `Base64.EncodeCarriesBits` | arduino/trustmile-capture/src/az_iot/c-utility/src/base64.c:236-314 | The characters before the padding carry exactly the bits of the input and zero fill (section 4 of RFC 4648) |
| `Base64.NumberOfBase64Characters` | arduino/trustmile-capture/src/az_iot/c-utility/src/base64.c:91-100 | The characters before the first one outside the alphabet are counted |
| `Base64.DecodeFits` | arduino/trustmile-capture/src/az_iot/c-utility/src/base64.c:104-126 | Decoding fits the computed length for every text of a length divisible by four, also malformed |
| `Base64.Base64Decode` | arduino/trustmile-capture/src/az_iot/c-utility/src/base64.c:128-185 | The decoded bytes fill the front of the buffer and the rest is untouched; every write is inside it |
| `Base64.Base64Decoder` | arduino/trustmile-capture/src/az_iot/c-utility/src/base64.c:187-233 | Fails exactly on a length that is no multiple of four, and otherwise returns the computed length starting with the decoded bytes |
| `Base64.DecodeEncode` | arduino/trustmile-capture/src/az_iot/c-utility/src/base64.c:104-314 | Decoding undoes encoding for every byte sequence, and allocates exactly its length |
| `Base64.EncodeAlphabet` | arduino/trustmile-capture/src/az_iot/c-utility/src/base64.c:236-314 | An encoded text holds characters of the alphabet and equal signs only |
| `CrtAbstractions.DecimalNumber` | arduino/trustmile-capture/src/az_iot/c-utility/src/crt_abstractions.c:777-822 | A numeral consists of digits and denotes the number it was made from |
| `CrtAbstractions.DigitPlaces` | arduino/trustmile-capture/src/az_iot/c-utility/src/crt_abstractions.c:281-282 | The digits of base 36 in both cases stand for their places, and no other character does |
| `CrtAbstractions.Spaces` | arduino/trustmile-capture/src/az_iot/c-utility/src/crt_abstractions.c:284-285 | White space is the six characters of isspace in the C locale |
| `CrtAbstractions.ReverseInPlace` | arduino/trustmile-capture/src/az_iot/c-utility/src/crt_abstractions.c:803-811 | The swapping loop reverses the digits and touches nothing else |
| `CrtAbstractions.SizeToString` | arduino/trustmile-capture/src/az_iot/c-utility/src/crt_abstractions.c:777-822 | Succeeds exactly when the numeral and its NUL fit, and then writes them |
| `CrtAbstractions.DivisionTest` | arduino/trustmile-capture/src/az_iot/c-utility/src/crt_abstractions.c:355-365 | The overflow test by division holds exactly when the next value exceeds ULLONG_MAX |
| `CrtAbstractions.ConvertDigits` | arduino/trustmile-capture/src/az_iot/c-utility/src/crt_abstractions.c:349-369 | The digit loop returns the value of the whole digit run, or ULLONG_MAX and ERANGE exactly when it does not fit |
| `CrtAbstractions.FindSubject` | arduino/trustmile-capture/src/az_iot/c-utility/src/crt_abstractions.c:302-347 | White space, sign and prefix are skipped and the base is chosen as the subject sequence says |
| `CrtAbstractions.StrToULL` | arduino/trustmile-capture/src/az_iot/c-utility/src/crt_abstractions.c:290-389 | Value, end and range error are those of the subject sequence, in every base |
| `CrtAbstractions.OverflowResult` | arduino/trustmile-capture/src/az_iot/c-utility/src/crt_abstractions.c:383-386 | Out of range, the result is ULLONG_MAX if and only if there is no minus sign; with one it is 1 |
| `CrtAbstractions.ParseDecimal` | arduino/trustmile-capture/src/az_iot/c-utility/src/crt_abstractions.c:290-389 | Parsing undoes printing, whatever non-digit follows, and saturates above 64 bits |
| `CrtAbstractions.ParseNegativeOverflow` | arduino/trustmile-capture/src/az_iot/c-utility/src/crt_abstractions.c:383-386 | Every number above ULLONG_MAX written with a minus sign parses as 1 |
| `CrtAbstractions.AgreesWithStandard` | arduino/trustmile-capture/src/az_iot/c-utility/src/crt_abstractions.c:290-389 | On every text and base the result is the one of strtoull in section 7.22.1.4 of ISO/IEC 9899:2011, if and only if no lone zero is taken for a prefix and the number is not negative and out of range |
| `CrtAbstractions.ParseDigits` | arduino/trustmile-capture/src/az_iot/c-utility/src/crt_abstractions.c:321-369 | In bases 2 to 36 a digit run is read whole, with its exact or saturated value, if and only if it is not a lone zero before a non-x in base 8 or before an x in base 16 |
| `CrtAbstractions.ParseUnprefixed` | arduino/trustmile-capture/src/az_iot/c-utility/src/crt_abstractions.c:321-347 | In base 0 parsing undoes decimal printing exactly for the numbers above 0 |
| `CrtAbstractions.LoneZero` | arduino/trustmile-capture/src/az_iot/c-utility/src/crt_abstractions.c:321-340 | An input that fails: in bases 0 and 8 nothing of a lone zero is converted |
| `UrlEncode.PrintedCharacter` | arduino/trustmile-capture/src/az_iot/c-utility/src/urlencode.c:24-74 | The nibble arithmetic writes the UTF-8 bytes of the character in percent-encoding (section 2.1 of RFC 3986) |
| `UrlEncode.UrlEncode` | arduino/trustmile-capture/src/az_iot/c-utility/src/urlencode.c:120-167 | The result is the percent-encoding of the UTF-8 form, in a buffer the first pass sized exactly |
| `UrlEncode.DecodeEncode` | arduino/trustmile-capture/src/az_iot/c-utility/src/urlencode.c:120-167 | Independent decoders for percent-encoding and UTF-8 give back the text |
| `UrlEncode.EncodedAlphabet` | arduino/trustmile-capture/src/az_iot/c-utility/src/urlencode.c:13-22 | Only printable characters and percent signs are left |
| `UrlEncode.EncodedCharacters` | arduino/trustmile-capture/src/az_iot/c-utility/src/urlencode.c:13-22 | No character that RFC 2396 reserves, no space, no quote and nothing outside ASCII is left |
| `SasToken.GetExpiryValue` | arduino/trustmile-capture/src/az_iot/c-utility/src/sastoken.c:18-35 | The value of a decimal numeral before the NUL, and 0 for any other text |
| `SasToken.ScanToken` | arduino/trustmile-capture/src/az_iot/c-utility/src/sastoken.c:51-124 | The six indices after the loop are those of the scan, and no access leaves the token and its NUL |
| `SasToken.ScanBounded` | arduino/trustmile-capture/src/az_iot/c-utility/src/sastoken.c:51-124 | Every index is -1 or inside the token |
| `SasToken.ReadExpiry` | arduino/trustmile-capture/src/az_iot/c-utility/src/sastoken.c:155-176 | The copy up to an ampersand, and its value |
| `SasToken.Validate` | arduino/trustmile-capture/src/az_iot/c-utility/src/sastoken.c:37-203 | True exactly when the three fields are found in order and the expiry is positive and not past |
| `SasToken.ConstructSasToken` | arduino/trustmile-capture/src/az_iot/c-utility/src/sastoken.c:205-303 | NULL exactly for a key that is empty or of a length no multiple of four; otherwise the token with the URL-encoded base64 HMAC-SHA256 of scope and expiry |
| `SasToken.SignedText` | arduino/trustmile-capture/src/az_iot/c-utility/src/sastoken.c:244-246 | What is signed is the scope, a line feed and the decimal expiry, and all of it can be read back |
| `SasToken.SignatureDecodes` | arduino/trustmile-capture/src/az_iot/c-utility/src/sastoken.c:252-276 | The signature decodes to the thirty-two bytes of HMAC-SHA256, under the decoded bytes of the key, of the bytes of that text |
| `SasToken.CreatedParameters` | arduino/trustmile-capture/src/az_iot/c-utility/src/sastoken.c:277-290 | Cut at its ampersands, a created token is the four parameters with the scope, the encoded signature, the expiry and the key name |
| `SasToken.ScanPrinted` | arduino/trustmile-capture/src/az_iot/c-utility/src/sastoken.c:51-124 | On a printed token each of the three markers matches once, at its own place, when scope and key name hold none |
| `SasToken.ScopeScan` | arduino/trustmile-capture/src/az_iot/c-utility/src/sastoken.c:58-122 | After any scope the six indices are those of its first separated marker, or can no longer be accepted |
| `SasToken.KeyScan` | arduino/trustmile-capture/src/az_iot/c-utility/src/sastoken.c:58-122 | After any key name the expiry starts behind its last "se=", and any "sr=" or "sig=" leaves a field that starts behind its stop |
| `SasToken.PrintedAccepted` | arduino/trustmile-capture/src/az_iot/c-utility/src/sastoken.c:37-203 | A printed token with any scope and key name is accepted if and only if the scope is read, the key name holds no "sr=" or "sig=", and the expiry that counts is positive and not past |
| `SasToken.SignaturePlain` | arduino/trustmile-capture/src/az_iot/c-utility/src/sastoken.c:273-276 | The signature in a token has no equals sign left |
| `SasToken.CreatedAccepted` | arduino/trustmile-capture/src/az_iot/c-utility/src/sastoken.c:205-303 | The same for every token the printer makes, from any key; without markers in scope and key name, exactly until the printed expiry and for scopes of two characters or more |
| `SasToken.PlainScope` | arduino/trustmile-capture/src/az_iot/c-utility/src/sastoken.c:126-150 | Without markers a scope is read if and only if it has two characters or more |
| `SasToken.KeyRoundTrip` | arduino/trustmile-capture/src/az_iot/c-utility/src/sastoken.c:213-214 | A key that was base64-encoded is used as exactly its bytes |
| `SasTokenOrder.ScanLaid` | arduino/trustmile-capture/src/az_iot/c-utility/src/sastoken.c:51-150 | Over a token with its three fields in any order and any separators, each marker opens its field and closes the one before |
| `SasTokenOrder.AcceptedInOrder` | arduino/trustmile-capture/src/az_iot/c-utility/src/sastoken.c:37-203 | Such a token is accepted if and only if something is taken of each field, and what is taken of the expiry is positive and not past; before an ampersand the last character is not taken |
| `SasTokenOrder.OrderMatters` | arduino/trustmile-capture/src/az_iot/c-utility/src/sastoken.c:60-122 | With an ampersand behind its expiry a token is accepted exactly until a tenth of it, and with any other place of the expiry exactly until it |
| `HttpProxyIo.FindEndIsFirst` | arduino/trustmile-capture/src/az_iot/c-utility/src/http_proxy_io.c:646-647 | The header end found is the first double new-line |
| `HttpProxyIo.OrderKept` | arduino/trustmile-capture/src/az_iot/c-utility/src/http_proxy_io.c:230-862 | An event keeps the open and completion protocol if and only if it is not the loss of memory with an old header in the buffer |
| `HttpProxyIo.RunInOrder` | arduino/trustmile-capture/src/az_iot/c-utility/src/http_proxy_io.c:230-862 | Over every run with memory, data and sends only occur between a successful completion and the end of the connection |
| `HttpProxyIo.RunOrder` | arduino/trustmile-capture/src/az_iot/c-utility/src/http_proxy_io.c:230-862 | A run keeps that order if and only if memory never runs out in it while a header of an earlier connection waits in the buffer |
| `HttpProxyIo.CompletedOnce` | arduino/trustmile-capture/src/az_iot/c-utility/src/http_proxy_io.c:230-816 | In a run in order the completions are as many as the opens, less one while an open is pending |
| `HttpProxyTraffic.RunSends` | arduino/trustmile-capture/src/az_iot/c-utility/src/http_proxy_io.c:230-862 | Over every run the socket is handed exactly the requests and what the user sends through an open tunnel, in order; opens complete as cancelled exactly when they were; and who closes is told as the last close asked |
| `HttpProxyIo.FirstOpenInOrder` | arduino/trustmile-capture/src/az_iot/c-utility/src/http_proxy_io.c:598-752 | With one open at most, the order is kept even when memory runs out |
| `HttpProxyIo.SecondOpenDoubles` | arduino/trustmile-capture/src/az_iot/c-utility/src/http_proxy_io.c:622-752 | After any complete header, accepted or refused, a second open that runs out of memory is completed twice |
| `HttpProxyIo.StatusStable` | arduino/trustmile-capture/src/az_iot/c-utility/src/http_proxy_io.c:525-596 | For a header that decides its status, what follows it changes nothing |
| `HttpProxyIo.TunnelledStream` | arduino/trustmile-capture/src/az_iot/c-utility/src/http_proxy_io.c:598-693 | Over any chunks, the bytes handed on are those behind a deciding header whose status is read as 2xx, and none for another status (section 5.3 of RFC 2817) |
| `HttpProxyIo.StatusLineDecides` | arduino/trustmile-capture/src/az_iot/c-utility/src/http_proxy_io.c:503-596 | A status line with versions, a code of three digits and a reason or line end decides the status, which is 2xx if and only if the code starts with 2 |
| `HttpProxyIo.FirstSessionStream` | arduino/trustmile-capture/src/az_iot/c-utility/src/http_proxy_io.c:598-693 | On the first open, over any chunks of a header with such a status line and a body, the bytes handed on are the body when the code starts with 2, and none otherwise |
| `HttpProxyIo.OtherBases` | arduino/trustmile-capture/src/az_iot/c-utility/src/http_proxy_io.c:505-520 | The codes 0310 and 0xC8 are read as 200 |
| `HttpProxyIo.DecimalCode` | arduino/trustmile-capture/src/az_iot/c-utility/src/http_proxy_io.c:505-596 | A code of any length up to INT_MAX is read in decimal if and only if it has no leading zero or is below 8 |
| `HttpProxyIo.KeptBuffer` | arduino/trustmile-capture/src/az_iot/c-utility/src/http_proxy_io.c:598-752 | An open with text in its buffer hands on the right stream for every response with a well-formed status line, and any chunks, if and only if that text is empty, or starts like a status line with no space behind its first dot, no NUL and no header end |
| `HttpProxyIo.HarmfulWrong` | arduino/trustmile-capture/src/az_iot/c-utility/src/http_proxy_io.c:598-693 | With any other text one of the responses 200 and 404 goes wrong |
| `HttpProxyIo.ChunkingMatters` | arduino/trustmile-capture/src/az_iot/c-utility/src/http_proxy_io.c:525-683 | Any header that does not decide its status has two chunkings with different outcomes |
| `HttpProxyIo.RequestFits` | arduino/trustmile-capture/src/az_iot/c-utility/src/http_proxy_io.c:353-403 | The request never exceeds its buffer for a 32-bit port, and fills it exactly for negative ports of ten digits |
| `HttpProxyTraffic.RequestRead` | arduino/trustmile-capture/src/az_iot/c-utility/src/http_proxy_io.c:358-405 | A reader of lines finds a request line with host and port, the Host line, the credentials if there are any, and an empty line |
| `HttpProxyTraffic.CredentialsRead` | arduino/trustmile-capture/src/az_iot/c-utility/src/http_proxy_io.c:296-341 | The credentials decode to the user, a colon and the password |
| `HttpProxyIo.HttpProxyInstance.constructor` | arduino/trustmile-capture/src/az_iot/c-utility/src/http_proxy_io.c:180-195 | A new instance is closed and has an empty buffer |
| `HttpProxyIo.HttpProxyInstance.Open` | arduino/trustmile-capture/src/az_iot/c-utility/src/http_proxy_io.c:695-752 | The instance takes the open step; the result says whether it was started |
| `HttpProxyIo.HttpProxyInstance.Close` | arduino/trustmile-capture/src/az_iot/c-utility/src/http_proxy_io.c:754-816 | The instance takes the close step, in every state |
| `HttpProxyIo.HttpProxyInstance.Send` | arduino/trustmile-capture/src/az_iot/c-utility/src/http_proxy_io.c:818-862 | Bytes reach the socket only when the instance is open |
| `HttpProxyIo.HttpProxyInstance.BuildRequest` | arduino/trustmile-capture/src/az_iot/c-utility/src/http_proxy_io.c:287-421 | The request text, with Basic credentials of section 2 of RFC 2617 when there are any, printed inside its buffer |
| `HttpProxyIo.HttpProxyInstance.OnUnderlyingIoOpenComplete` | arduino/trustmile-capture/src/az_iot/c-utility/src/http_proxy_io.c:237-437 | The instance takes the open-complete step, in every state and for every outcome |
| `HttpProxyIo.HttpProxyInstance.OnUnderlyingIoError` | arduino/trustmile-capture/src/az_iot/c-utility/src/http_proxy_io.c:439-469 | The instance takes the error step |
| `HttpProxyIo.HttpProxyInstance.OnUnderlyingIoCloseComplete` | arduino/trustmile-capture/src/az_iot/c-utility/src/http_proxy_io.c:471-501 | The instance takes the close-complete step |
| `HttpProxyIo.HttpProxyInstance.ParseHttpResponse` | arduino/trustmile-capture/src/az_iot/c-utility/src/http_proxy_io.c:525-596 | The loops find the number behind the prefix, a dot and a space, saturated to an int, or fail when one is missing or errno reports the saturation; success with 2xx does not depend on errno |
| `HttpProxyIo.HttpProxyInstance.Append` | arduino/trustmile-capture/src/az_iot/c-utility/src/http_proxy_io.c:625-637 | The chunk is appended to the buffer, with room for a NUL |
| `HttpProxyIo.HttpProxyInstance.OnUnderlyingIoBytesReceived` | arduino/trustmile-capture/src/az_iot/c-utility/src/http_proxy_io.c:598-693 | The instance takes the bytes-received step, with and without memory |
| `IotHubClient.StepKeeps` | arduino/trustmile-capture/src/az_iot/iothub_client/src/iothub_client.c:401-1056 | Every step of either thread keeps the queue order, the conservation of events and the accounts of the contexts |
| `IotHubClient.RunKeeps` | arduino/trustmile-capture/src/az_iot/iothub_client/src/iothub_client.c:560-1056 | So does every run |
| `IotHubClient.RunQueues` | arduino/trustmile-capture/src/az_iot/iothub_client/src/iothub_client.c:316-333 | In every run the queue gets exactly the confirmations of the reports that took effect and could be appended, with their results and in order, and the others are lost |
| `IotHubClient.RunSubmits` | arduino/trustmile-capture/src/az_iot/iothub_client/src/iothub_client.c:1025-1046 | In every run the contexts are those of the events handed to the lower layer, by their callbacks, and accepted or rejected as it answered |
| `IotHubClient.EachOnce` | arduino/trustmile-capture/src/az_iot/iothub_client/src/iothub_client.c:843-982 | After the destruction the confirmations that were reported and could be saved came up in that order with their results; that of every accepted event came up once or was lost to a failed push, and every context was freed once |
| `IotHubClient.DeliveredToLast` | arduino/trustmile-capture/src/az_iot/iothub_client/src/iothub_client.c:401-447 | In every run, what a step delivers goes to the callback of the last send that was started |
| `IotHubClient.OwnCallbacks` | arduino/trustmile-capture/src/az_iot/iothub_client/src/iothub_client.c:984-1056 | Every confirmation reaches the callback its event was sent with, under every interleaving, if and only if no send with a callback is followed by one with another or none |
| `IotHubClient.MisdirectedRun` | arduino/trustmile-capture/src/az_iot/iothub_client/src/iothub_client.c:560-605 | For any other sequence of sends an allowed run without failures delivers a confirmation to a callback that is not its own |
| `IotHubClient.SteadyRunOwn` | arduino/trustmile-capture/src/az_iot/iothub_client/src/iothub_client.c:316-447 | In a run whose callback does not change every confirmation reaches its own callback |
| `IotHubClient.ConfirmedOnce` | arduino/trustmile-capture/src/az_iot/iothub_client/src/iothub_client.c:316-447 | When the callback does not change and no push fails, the callback of every accepted event ran for it exactly once, with the result that was reported and in the order of the reports |
| `IotHubClient.LateSendTakesOver` | arduino/trustmile-capture/src/az_iot/iothub_client/src/iothub_client.c:1007-1010 | A later send takes over, or without a callback silences, the confirmations the worker holds |
| `IotHubClient.DestroyCompletes` | arduino/trustmile-capture/src/az_iot/iothub_client/src/iothub_client.c:843-982 | From every state between sends an allowed run leads to the end of the destruction: the worker leaves and the join ends |
| `IotHubClient.IotHubClientInstance.StartSend` | arduino/trustmile-capture/src/az_iot/iothub_client/src/iothub_client.c:607-638 | The worker is started when needed and the callback is overwritten without the lock |
| `IotHubClient.IotHubClientInstance.LockedSend` | arduino/trustmile-capture/src/az_iot/iothub_client/src/iothub_client.c:1013-1051 | A context is allocated and handed over, or freed when the event is refused |
| `IotHubClient.IotHubClientInstance.EventConfirmCallback` | arduino/trustmile-capture/src/az_iot/iothub_client/src/iothub_client.c:316-331 | The confirmation is appended or lost, and the context freed |
| `IotHubClient.IotHubClientInstance.WorkerPass` | arduino/trustmile-capture/src/az_iot/iothub_client/src/iothub_client.c:560-605 | One pass under the lock: exit on stop, or confirm and take over the vector |
| `IotHubClient.IotHubClientInstance.DispatchOne` | arduino/trustmile-capture/src/az_iot/iothub_client/src/iothub_client.c:401-447 | One confirmation reaches the callback registered at that moment |
| `IotHubClient.IotHubClientInstance.BeginDestroy` | arduino/trustmile-capture/src/az_iot/iothub_client/src/iothub_client.c:859-891 | The stop flag is set exactly when there is a worker to join |
| `IotHubClient.IotHubClientInstance.EndDestroy` | arduino/trustmile-capture/src/az_iot/iothub_client/src/iothub_client.c:901-957 | What the lower layer still held is confirmed, and what was saved is delivered in order |
| `Vector.Vector.Move` | arduino/trustmile-capture/src/az_iot/c-utility/src/vector.c:56-85 | The new vector takes over storage and elements and this one is left empty, or nothing changes |
| `Vector.Vector.PushBack` | arduino/trustmile-capture/src/az_iot/c-utility/src/vector.c:89-122 | The elements are appended in grown storage, or nothing changes |
| `Vector.Vector.Erase` | arduino/trustmile-capture/src/az_iot/c-utility/src/vector.c:126-187 | The elements of the range leave and the others keep their order, also when the storage cannot shrink; a range outside changes nothing |
| `Vector.Vector.FindIf` | arduino/trustmile-capture/src/az_iot/c-utility/src/vector.c:285-319 | The first element that matches, or NULL when there is none |
| `Vector.TakenApart` | arduino/trustmile-capture/src/az_iot/c-utility/src/vector.c:56-122 | What a vector took over is out of reach of later pushes to its source |
| `HttpApiEx.RequestLevels` | arduino/trustmile-capture/src/az_iot/c-utility/src/httpapiex.c:347-475 | The calls of a successful request leave a connection open, those of a failed one leave nothing behind |
| `HttpApiEx.AttemptBounds` | arduino/trustmile-capture/src/az_iot/c-utility/src/httpapiex.c:347-475 | One init, two connects and three executes at most in one request |
| `HttpApiEx.Balance` | arduino/trustmile-capture/src/az_iot/c-utility/src/httpapiex.c:501-515 | Calls that bracket correctly balance, up to what is still open |
| `HttpApiEx.HttpApiExHandle.constructor` | arduino/trustmile-capture/src/az_iot/c-utility/src/httpapiex.c:31-79 | A new handle has no connection and no options |
| `HttpApiEx.HttpApiExHandle.CreateConnection` | arduino/trustmile-capture/src/az_iot/c-utility/src/httpapiex.c:383-406 | A connection that succeeds is handed every saved option in order |
| `HttpApiEx.HttpApiExHandle.Turn` | arduino/trustmile-capture/src/az_iot/c-utility/src/httpapiex.c:353-472 | One turn climbs a level, steps back and undoes it, or executes the request; the measure of the place falls |
| `HttpApiEx.HttpApiExHandle.ExecuteRequest` | arduino/trustmile-capture/src/az_iot/c-utility/src/httpapiex.c:347-475 | Between calls k is -1 or 2 and there is a connection exactly at 2; the calls made are a word of the retry language, and the loop ends |
| `HttpApiEx.HttpApiExHandle.Destroy` | arduino/trustmile-capture/src/az_iot/c-utility/src/httpapiex.c:501-515 | Over the life of the handle inits and deinits, and connections and closes, are equally many |
| `HttpApiEx.HttpApiExHandle.CreateOrUpdateOption` | arduino/trustmile-capture/src/az_iot/c-utility/src/httpapiex.c:541-580 | The value replaces the one under the same name or is appended; names stay distinct |
| `HttpApiEx.HttpApiExHandle.SetOption` | arduino/trustmile-capture/src/az_iot/c-utility/src/httpapiex.c:582-657 | The option is saved, passed on to an existing connection, and the result is the one of the table |
| `HttpApiEx.AllHanded` | arduino/trustmile-capture/src/az_iot/c-utility/src/httpapiex.c:390-402 | A new connection is handed every saved option, in order, behind the connect |
| `HttpApiEx.SavedValue` | arduino/trustmile-capture/src/az_iot/c-utility/src/httpapiex.c:541-580 | After setting an option the others are as before |
| `DoublyLinkedList.Inverse` | arduino/trustmile-capture/src/az_iot/c-utility/src/doublylinkedlist.c:6-14 | Forward and backward links are inverse on every ring |
| `DoublyLinkedList.OneList` | arduino/trustmile-capture/src/az_iot/c-utility/src/doublylinkedlist.c:6-14 | The links of a head determine its entries and their order |
| `DoublyLinkedList.Rotate` | arduino/trustmile-capture/src/az_iot/c-utility/src/doublylinkedlist.c:27-43 | A ring can be read from any of its entries |
| `DoublyLinkedList.InitializeListHead` | arduino/trustmile-capture/src/az_iot/c-utility/src/doublylinkedlist.c:6-14 | The list is empty |
| `DoublyLinkedList.IsListEmpty` | arduino/trustmile-capture/src/az_iot/c-utility/src/doublylinkedlist.c:16-24 | True exactly for a list without entries |
| `DoublyLinkedList.RemoveEntryList` | arduino/trustmile-capture/src/az_iot/c-utility/src/doublylinkedlist.c:26-43 | The entry leaves whatever ring it is on; true exactly when at most one entry remains |
| `DoublyLinkedList.RemoveHeadList` | arduino/trustmile-capture/src/az_iot/c-utility/src/doublylinkedlist.c:45-61 | The first entry is removed and returned, the head itself for an empty list |
| `DoublyLinkedList.InsertTailList` | arduino/trustmile-capture/src/az_iot/c-utility/src/doublylinkedlist.c:65-80 | The entry becomes the last one |
| `DoublyLinkedList.AppendTailList` | arduino/trustmile-capture/src/az_iot/c-utility/src/doublylinkedlist.c:83-97 | A ring without a head of its own follows the entries of the list |
| `DoublyLinkedList.InsertHeadList` | arduino/trustmile-capture/src/az_iot/c-utility/src/doublylinkedlist.c:101-107 | The entry becomes the first one |
| `Strings.CountJson` | arduino/trustmile-capture/src/az_iot/c-utility/src/strings.c:263-290 | The counts of the first pass give the length of the escaped text, and it fails exactly on a code from 128 up |
| `Strings.NewJson` | arduino/trustmile-capture/src/az_iot/c-utility/src/strings.c:252-361 | The JSON string of the text, in a buffer filled to its last place |
| `Strings.ReadEscaped` | arduino/trustmile-capture/src/az_iot/c-utility/src/strings.c:316-350 | A reader takes exactly the escape of a character and returns its code |
| `Strings.ReadJson` | arduino/trustmile-capture/src/az_iot/c-utility/src/strings.c:252-361 | A reader of section 7 of RFC 8259 gets the text back and stops behind it |
| `Map.ReadBack` | arduino/trustmile-capture/src/az_iot/c-utility/src/map.c:587-677 | A reader of section 4 of RFC 8259 gets back exactly the pairs of the map, in order |
| `Map.StringMap.constructor` | arduino/trustmile-capture/src/az_iot/c-utility/src/map.c:23-37 | A new map is empty and has the filter given |
| `Map.StringMap.FindKey` | arduino/trustmile-capture/src/az_iot/c-utility/src/map.c:248-269 | The first index of the key, or the count when it is not there |
| `Map.StringMap.DecreaseStorage` | arduino/trustmile-capture/src/az_iot/c-utility/src/map.c:209-246 | The last place leaves both arrays, also when they cannot shrink; the last one to go takes the filter with it |
| `Map.StringMap.IncreaseStorage` | arduino/trustmile-capture/src/az_iot/c-utility/src/map.c:161-207 | Both arrays grow by one place and keep their elements, or the elements are as before when either reallocation fails |
| `Map.MoveUp` | arduino/trustmile-capture/src/az_iot/c-utility/src/map.c:470-471 | The elements behind the index move up by one place |
| `Map.StringMap.InsertNewKeyValue` | arduino/trustmile-capture/src/az_iot/c-utility/src/map.c:294-325 | The pair is appended, or the pairs are as before when an allocation fails |
| `Map.StringMap.Add` | arduino/trustmile-capture/src/az_iot/c-utility/src/map.c:327-375 | A new key is appended; an existing one, a rejected pair and a failed allocation leave the pairs alone; keys stay distinct |
| `Map.StringMap.AddOrUpdate` | arduino/trustmile-capture/src/az_iot/c-utility/src/map.c:377-440 | The value of the key is replaced or the pair appended; the filter is asked first |
| `Map.StringMap.Delete` | arduino/trustmile-capture/src/az_iot/c-utility/src/map.c:442-478 | The pair leaves and the order of the others is kept |
| `Map.StringMap.GetValueFromKey` | arduino/trustmile-capture/src/az_iot/c-utility/src/map.c:528-557 | The value stored under the key, or NULL when there is none |
| `Map.StringMap.ToJSON` | arduino/trustmile-capture/src/az_iot/c-utility/src/map.c:587-677 | Fails exactly on text outside the codes below 128, and otherwise a JSON reader gets the pairs back |
| `Esp32MqttClient.HeldOnce` | arduino/trustmile-capture/src/Esp32MQTTClient.cpp:94-104 | An event instance is in one place only |
| `Esp32MqttClient.Client.Confirm` | arduino/trustmile-capture/src/Esp32MQTTClient.cpp:151-175 | A confirmation counts only with the current identifier, and frees its event |
| `Esp32MqttClient.Client.Close` | arduino/trustmile-capture/src/Esp32MQTTClient.cpp:602-611 | Messages the lower layer still holds and reported states its transport has taken are confirmed without success and freed; other reported states are dropped |
| `Esp32MqttClient.Client.DoWork` | arduino/trustmile-capture/src/az_iot/iothub_client/src/iothub_client_ll.c:1256-1304 | In one turn the outstanding event is confirmed and freed, or waits; a reported state may be taken by the transport, or be dropped when it cannot be published |
| `Esp32MqttClient.LostReport` | arduino/trustmile-capture/src/az_iot/iothub_client/src/iothub_client_ll.c:955-965 | From a closed client: a reported state whose wait ends before the transport has taken it is dropped by the close and never freed |
| `Esp32MqttClient.Settled` | arduino/trustmile-capture/src/Esp32MQTTClient.cpp:94-104 | With nothing left at the lower layer every instance no caller holds is freed once or dropped once, by whether its callback had to come |
| `Esp32MqttClient.Client.Init` | arduino/trustmile-capture/src/Esp32MQTTClient.cpp:373-479 | Identifiers restart at 0; the wait for the connection ends, and when it times out the handle stays and a reset is due |
| `Esp32MqttClient.Client.CheckConnection` | arduino/trustmile-capture/src/Esp32MQTTClient.cpp:39-49 | Nothing is outstanding afterwards: what a reset destroys is freed, or dropped if it is a reported state the transport has not taken; destroying a message with the current identifier marks it failed |
| `Esp32MqttClient.Client.Generate` | arduino/trustmile-capture/src/Esp32MQTTClient.cpp:337-363 | A new event instance is in the hands of the caller, or freed at once when its message cannot be created |
| `Esp32MqttClient.Client.SendEventOnce` | arduino/trustmile-capture/src/Esp32MQTTClient.cpp:260-334 | True exactly when this event is confirmed OK while it waits, unless the reset before it destroyed an event of the same identifier; an event left outstanding makes a reset due |
| `Esp32MqttClient.Client.Await` | arduino/trustmile-capture/src/Esp32MQTTClient.cpp:301-333 | The waiting loop ends with the confirmation or with a reset due |
| `Esp32MqttClient.MissedConfirmation` | arduino/trustmile-capture/src/Esp32MQTTClient.cpp:260-523 | From a closed client: after an initialisation that timed out, a first attempt left waiting makes the second fail even when its event is confirmed OK |
| `Esp32MqttClient.Client.SendEvent` | arduino/trustmile-capture/src/Esp32MQTTClient.cpp:509-566 | Two attempts at most; true implies that one of its own events was confirmed OK |
| `Esp32MqttClient.Client.ReceiveEvent` | arduino/trustmile-capture/src/Esp32MQTTClient.cpp:525-550 | Without a message a reset is due; events stay accounted for |
| `Esp32MqttClient.Client.Check` | arduino/trustmile-capture/src/Esp32MQTTClient.cpp:578-600 | Once the interval is over a due reset is made up for as CheckConnection does, nothing is outstanding, and the lower layer gets five turns or fewer when a reset becomes due; before that, and without a handle, nothing changes |
| `Esp32MqttClient.Client.Reset` | arduino/trustmile-capture/src/Esp32MQTTClient.cpp:643-647 | Nothing is outstanding afterwards |
| `Esp32MqttClient.Client.CloseForGood` | arduino/trustmile-capture/src/Esp32MQTTClient.cpp:602-611 | Every message no caller holds has been freed exactly once; a reported state that was accepted has been freed exactly once if and only if the transport had taken it, and is dropped otherwise |
| `StringTokenizer.OneDelimiter` | arduino/trustmile-capture/src/az_iot/c-utility/src/string_tokenizer.c:98-149 | With one delimiter the token is what stands between a run of delimiters and the next one or the end |
| `StringTokenizer.ManyDelimiters` | arduino/trustmile-capture/src/az_iot/c-utility/src/string_tokenizer.c:98-149 | With any list the token stands between a run of delimiters and the first listed one that occurs, or the end; it is free of delimiters if and only if that one stands no later than every other, or none occurs |
| `StringTokenizer.ListOrderDecides` | arduino/trustmile-capture/src/az_iot/c-utility/src/string_tokenizer.c:142-149 | An input of the other kind: the first of the list decides, even behind the other |
| `StringTokenizer.Tokenizer.GetNextToken` | arduino/trustmile-capture/src/az_iot/c-utility/src/string_tokenizer.c:69-187 | Token and new position are those of the remaining text; every token shortens it |
| `ConnectionStringParser.ParsedWellFormed` | arduino/trustmile-capture/src/az_iot/c-utility/src/connection_string_parser.c:88-141 | Whatever is parsed has distinct, non-empty keys without an equals sign and non-empty values without a semicolon |
| `ConnectionStringParser.RoundTrip` | arduino/trustmile-capture/src/az_iot/c-utility/src/connection_string_parser.c:35-156 | Parsing what was joined, with or without a trailing semicolon, gives the same list if and only if the list is well-formed |
| `ConnectionStringParser.ParseConnectionString` | arduino/trustmile-capture/src/az_iot/c-utility/src/connection_string_parser.c:35-156 | The map returned holds exactly the parsed pairs, and is NULL exactly when parsing fails |
| `ConnectionStringParser.SplitHostName` | arduino/trustmile-capture/src/az_iot/c-utility/src/connection_string_parser.c:159-215 | Name and suffix are what stands before and behind the first dot; fails exactly when one is empty or there is no dot |
| `Blob.BlocksCover` | arduino/trustmile-capture/src/az_iot/iothub_client/src/blob.c:174-287 | The blocks put so far are the front of the source, and all of it when they cover it |
| `Blob.PaddedSix` | arduino/trustmile-capture/src/az_iot/iothub_client/src/blob.c:179-186 | Block numbers below 50000 print as six characters |
| `Blob.DistinctIds` | arduino/trustmile-capture/src/az_iot/iothub_client/src/blob.c:179-189 | No two blocks carry the same identifier |
| `Blob.IdentifierNumber` | arduino/trustmile-capture/src/az_iot/iothub_client/src/blob.c:179-189 | An identifier decodes to the number of its block behind spaces |
| `Blob.ListRead` | arduino/trustmile-capture/src/az_iot/iothub_client/src/blob.c:160-300 | A reader of the block list finds the identifiers of the blocks in order |
| `Blob.UploadBlock` | arduino/trustmile-capture/src/az_iot/iothub_client/src/blob.c:177-287 | The request carries the block under its identifier, and the element of the list names it |
| `Blob.UploadLarge` | arduino/trustmile-capture/src/az_iot/iothub_client/src/blob.c:156-362 | Blocks are put in order under their own identifiers; the block list is put only after all were executed with a status below 300 and cover the source, and names them in order; each result says how the last request ended, or that an allocation failed |
| `Gballoc.Accounts.constructor` | arduino/trustmile-capture/src/az_iot/c-utility/src/gballoc.c:28-33 | No records before the first initialisation |
| `Gballoc.SecondSession` | arduino/trustmile-capture/src/az_iot/c-utility/src/gballoc.c:35-74 | A block held over from an earlier session leaves wrong accounts if and only if it has a size |
| `Gballoc.Accounts.Init` | arduino/trustmile-capture/src/az_iot/c-utility/src/gballoc.c:35-63 | The accounts are right afterwards if and only if no record of an earlier session holds memory |
| `Gballoc.Accounts.Malloc` | arduino/trustmile-capture/src/az_iot/c-utility/src/gballoc.c:76-184 | A live block has one record more; failures change nothing |
| `Gballoc.Accounts.Find` | arduino/trustmile-capture/src/az_iot/c-utility/src/gballoc.c:211-226 | The record of the address and the one before it, or NULL exactly when there is none |
| `Gballoc.Accounts.Free` | arduino/trustmile-capture/src/az_iot/c-utility/src/gballoc.c:280-332 | The record leaves the list and its size the total; an unknown address changes nothing |
| `Gballoc.Accounts.Realloc` | arduino/trustmile-capture/src/az_iot/c-utility/src/gballoc.c:186-278 | The record takes over the new address and size, a new one is made for NULL, and failures change nothing; the accounts are right afterwards if and only if the C library did not free the block for size 0 |
| `Gballoc.Accounts.Count` | arduino/trustmile-capture/src/az_iot/c-utility/src/gballoc.c:116-121 | The maximum is the highest total reached |

## Left out

- NULL arguments, logging, and allocation failure where no property mentions it.
- The `USE_32BIT_ONLY` branches of `sha384-512.c`, which a preprocessor error disables.
- Lengths above the range of the C type `int` in calls that cast to it, and wrap-around of the millisecond clock.
- The floating-point value of an expiry: it is exact up to 2^53, and the model has no rounding.
- The floating-point parsers of `crt_abstractions.c`, and `unsignedIntToString`, which is the same code on another type.
- Callbacks that call back into the instance that called them, and a socket that completes inside the call that starts it.
- Lock, thread and allocator implementations: a step is one hold of a lock, or one unlocked access; the worker's test and call of the callback are one step.
- Clients created over a shared transport, device twin, device method and message callbacks, and blob-upload threads of `iothub_client.c`.
- The construction and release of temporary headers and buffers in `httpapiex.c`, and the header contents.
- `vector.c`: addresses of elements are indices, so that misaligned and foreign addresses do not occur.
- `Map_Clone`, filters of other maps, and `STRING` functions beyond the JSON printer.
- The host name in a blob URI, the path for blobs below 64 MB, and the HTTP headers of its request.
- The lower-layer client, the MQTT transport, HTTPAPI and the socket layer: they are environments that may answer anything their contract allows.
- Usha.USHAContext.Result: message lengths are counted in bits below 2^64 or 2^128; a longer message corrupts the context, and no digest is claimed for it.
- Blob.UploadLarge: the contents of the responses are not modelled.
- Gballoc.Accounts.Init: calls made while the module is not initialised go to the C library alone, so that a block freed then keeps its record and counts as live here.
- HttpProxyIo.HttpProxyInstance.ParseHttpResponse: `long` has the 32 bits of `int`, as on the device; the value of errno before the call is any.
