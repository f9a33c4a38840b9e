/** Shared access signature tokens (sastoken.c): the printer, the scanner, and their agreement. */
module SasToken {
  import opened CrtAbstractions
  import opened Bits
  import opened ShaSpec
  import opened Wrappers
  import Base64
  import UrlEncode
  import HmacSha

  // ---- the scanner ----

  /** The six indices of the scan; -1 stands for not found. */
  datatype Fields = Fields(seStart: int, seStop: int, srStart: int, srStop: int, sigStart: int, sigStop: int)

  predicate Marker(t: string, i: int, m: string) {
    0 <= i && i + |m| <= |t| && t[i..i + |m|] == m
  }

  /** Where the field before a marker ends. */
  function StopBefore(t: string, i: int): int
    requires i > 0
  {
    if At(t, i - 1) == ' ' then i - 1 else i - 2
  }

  predicate Separated(t: string, i: int)
    requires i > 0
  {
    At(t, i - 1) == ' ' || At(t, i - 1) == '&'
  }

  /** One step of the scan: a marker opens its field and closes the one that is open. */
  function Step(t: string, i: nat, f: Fields): Fields {
    if Marker(t, i, "se=") then
      if f.srStart > 0 && f.srStop < 0 && i > 0 then
        if Separated(t, i) then f.(seStart := i + 3, srStop := StopBefore(t, i)) else f.(seStart := -1)
      else if f.sigStart > 0 && f.sigStop < 0 && i > 0 then
        if Separated(t, i) then f.(seStart := i + 3, sigStop := StopBefore(t, i)) else f.(seStart := -1)
      else f.(seStart := i + 3)
    else if Marker(t, i, "sr=") then
      if f.seStart > 0 && f.seStop < 0 && i > 0 then
        if Separated(t, i) then f.(srStart := i + 3, seStop := StopBefore(t, i)) else f.(srStart := -1)
      else if f.sigStart > 0 && f.sigStop < 0 && i > 0 then
        if Separated(t, i) then f.(srStart := i + 3, sigStop := StopBefore(t, i)) else f.(srStart := -1)
      else f.(srStart := i + 3)
    else if Marker(t, i, "sig=") then
      if f.srStart > 0 && f.srStop < 0 && i > 0 then
        if Separated(t, i) then f.(sigStart := i + 4, srStop := StopBefore(t, i)) else f.(sigStart := -1)
      else if f.seStart > 0 && f.seStop < 0 && i > 0 then
        if Separated(t, i) then f.(sigStart := i + 4, seStop := StopBefore(t, i)) else f.(sigStart := -1)
      else f.(sigStart := i + 4)
    else f
  }

  function Scan(t: string, n: nat): Fields {
    if n == 0 then Fields(-1, -1, -1, -1, -1, -1) else Step(t, n - 1, Scan(t, n - 1))
  }

  /** Only one field that is still open is closed at the end of the token. */
  function Closed(f: Fields, length: nat): Fields {
    if f.seStop < 0 then f.(seStop := length)
    else if f.srStop < 0 then f.(srStop := length)
    else if f.sigStop < 0 then f.(sigStop := length)
    else f
  }

  predicate WellFormed(f: Fields) {
    && f.seStart >= 0 && f.srStart >= 0 && f.sigStart >= 0
    && f.seStart < f.seStop && f.srStart < f.srStop && f.sigStart < f.sigStop
  }

  /** getExpiryValue: anything but a numeral counts as 0. */
  function Expiry(s: string): nat {
    if AllDigits(s, 10) then Number(s, 10) else 0
  }

  predicate Accepts(t: string, now: int) {
    var f := Scan(t, |t|);
    var c := Closed(f, |t|);
    && f.seStart >= 0 && f.srStart >= 0 && f.sigStart >= 0
    && WellFormed(c) && c.seStop <= |t|
    && var expiry := Expiry(UpTo(t[c.seStart..c.seStop], '&'));
    expiry > 0 && now <= expiry
  }

  method GetExpiryValue(expiryASCII: array<char>) returns (value: nat)
    requires expiryASCII.Length > 0 && expiryASCII[expiryASCII.Length - 1] == '\0'
    ensures value == Expiry(UpTo(expiryASCII[..], '\0'))
  {
    hide UpTo, Number, AllDigits;
    ghost var text := UpTo(expiryASCII[..], '\0');
    value := 0;
    var i := 0;
    assert expiryASCII[expiryASCII.Length - 1] in expiryASCII[..];
    assert |text| < expiryASCII.Length;
    assert text == expiryASCII[..|text|];
    assert text[..0] == "";
    NumberOfNone(10);
    NoDigits();
    while expiryASCII[i] != '\0'
      decreases |text| - i
      invariant 0 <= i <= |text| && AllDigits(text[..i], 10) && value == Number(text[..i], 10)
    {
      assert text[i] == expiryASCII[i];
      NextDigit(text, i);
      if '0' <= expiryASCII[i] <= '9' {
        NumberStep(text, i, 10);
        value := value * 10 + (expiryASCII[i] as int - 48);
      } else {
        return 0;
      }
      i := i + 1;
    }
    assert text[..i] == text;
  }

  lemma NoDigits()
    ensures AllDigits("", 10)
  {
  }

  /** Extending a run of decimal digits, or finding that the text is no numeral. */
  lemma NextDigit(text: string, i: nat)
    requires i < |text| && AllDigits(text[..i], 10)
    ensures AllDigits(text[..i + 1], 10) == ('0' <= text[i] <= '9')
    ensures !('0' <= text[i] <= '9') ==> !AllDigits(text, 10)
  {
    assert IsDigit(text[i], 10) == ('0' <= text[i] <= '9');
    assert text[..i + 1][i] == text[i];
    assert text[..i + 1] == text[..i] + [text[i]];
  }

  lemma MarkerChars(t: string, i: nat)
    requires i < |t| && '\0' !in t
    ensures Marker(t, i, "se=") == (t[i] == 's' && At(t, i + 1) == 'e' && At(t, i + 2) == '=')
    ensures Marker(t, i, "sr=") == (t[i] == 's' && At(t, i + 1) == 'r' && At(t, i + 2) == '=')
    ensures Marker(t, i, "sig=") == (t[i] == 's' && At(t, i + 1) == 'i' && At(t, i + 2) == 'g' && At(t, i + 3) == '=')
  {
    if i + 3 <= |t| {
      assert t[i..i + 3] == [t[i], t[i + 1], t[i + 2]];
    }
    if i + 4 <= |t| {
      assert t[i..i + 4] == [t[i], t[i + 1], t[i + 2], t[i + 3]];
    }
  }

  /** Every index is -1 or behind the place scanned so far, and inside the token. */
  predicate Bounded(f: Fields, n: nat, length: nat) {
    && -1 <= f.seStart <= length && -1 <= f.srStart <= length && -1 <= f.sigStart <= length
    && f.seStop < length && f.srStop < length && f.sigStop < length
    && (n == 0 ==> f == Fields(-1, -1, -1, -1, -1, -1))
  }

  lemma MarkersFit(t: string, i: nat)
    ensures Marker(t, i, "se=") || Marker(t, i, "sr=") ==> i + 3 <= |t|
    ensures Marker(t, i, "sig=") ==> i + 4 <= |t|
  {
  }

  lemma StepBounded(t: string, i: nat, f: Fields)
    requires i < |t| && Bounded(f, i, |t|)
    ensures Bounded(Step(t, i, f), i + 1, |t|)
  {
    MarkersFit(t, i);
    hide Marker, At;
  }

  lemma {:induction false} ScanBounded(t: string, n: nat)
    requires n <= |t|
    ensures Bounded(Scan(t, n), n, |t|)
  {
    hide Step;
    if n > 0 {
      ScanBounded(t, n - 1);
      StepBounded(t, n - 1, Scan(t, n - 1));
    }
  }

  /** The scanning loop of SASToken_Validate over the token and its NUL. */
  method ScanToken(sasTokenArray: array<char>, ghost t: string) returns (seStart: int, seStop: int, srStart: int, srStop: int, sigStart: int, sigStop: int)
    requires '\0' !in t && sasTokenArray[..] == t + ['\0']
    ensures Fields(seStart, seStop, srStart, srStop, sigStart, sigStop) == Scan(t, |t|)
  {
    hide Marker;
    seStart, seStop, srStart, srStop, sigStart, sigStop := -1, -1, -1, -1, -1, -1;
    var tokenLength := sasTokenArray.Length - 1;
    var i := 0;
    while i < tokenLength
      invariant 0 <= i <= tokenLength
      invariant Fields(seStart, seStop, srStart, srStop, sigStart, sigStop) == Scan(t, i)
    {
      MarkerChars(t, i);
      ScanBounded(t, i);
      assert forall k :: 0 <= k <= |t| ==> sasTokenArray[k] == sasTokenArray[..][k] == At(t, k);
      if sasTokenArray[i] == 's' && sasTokenArray[i + 1] == 'e' && sasTokenArray[i + 2] == '=' {
        seStart := i + 3;
        if srStart > 0 && srStop < 0 {
          if sasTokenArray[i - 1] != '&' && sasTokenArray[i - 1] == ' ' {
            srStop := i - 1;
          } else if sasTokenArray[i - 1] == '&' {
            srStop := i - 2;
          } else {
            seStart := -1;
          }
        } else if sigStart > 0 && sigStop < 0 {
          if sasTokenArray[i - 1] != '&' && sasTokenArray[i - 1] == ' ' {
            sigStop := i - 1;
          } else if sasTokenArray[i - 1] == '&' {
            sigStop := i - 2;
          } else {
            seStart := -1;
          }
        }
      } else if sasTokenArray[i] == 's' && sasTokenArray[i + 1] == 'r' && sasTokenArray[i + 2] == '=' {
        srStart := i + 3;
        if seStart > 0 && seStop < 0 {
          if sasTokenArray[i - 1] != '&' && sasTokenArray[i - 1] == ' ' {
            seStop := i - 1;
          } else if sasTokenArray[i - 1] == '&' {
            seStop := i - 2;
          } else {
            srStart := -1;
          }
        } else if sigStart > 0 && sigStop < 0 {
          if sasTokenArray[i - 1] != '&' && sasTokenArray[i - 1] == ' ' {
            sigStop := i - 1;
          } else if sasTokenArray[i - 1] == '&' {
            sigStop := i - 2;
          } else {
            srStart := -1;
          }
        }
      } else if sasTokenArray[i] == 's' && sasTokenArray[i + 1] == 'i' && sasTokenArray[i + 2] == 'g' && sasTokenArray[i + 3] == '=' {
        sigStart := i + 4;
        if srStart > 0 && srStop < 0 {
          if sasTokenArray[i - 1] != '&' && sasTokenArray[i - 1] == ' ' {
            srStop := i - 1;
          } else if sasTokenArray[i - 1] == '&' {
            srStop := i - 2;
          } else {
            sigStart := -1;
          }
        } else if seStart > 0 && seStop < 0 {
          if sasTokenArray[i - 1] != '&' && sasTokenArray[i - 1] == ' ' {
            seStop := i - 1;
          } else if sasTokenArray[i - 1] == '&' {
            seStop := i - 2;
          } else {
            sigStart := -1;
          }
        }
      }
      i := i + 1;
    }
  }

  lemma UpToFilled(s: string, n: nat)
    requires '\0' !in s
    ensures UpTo(s + Fill('\0', n), '\0') == s
  {
    if s == "" {
      assert n > 0 ==> (s + Fill('\0', n))[0] == '\0';
    } else {
      assert (s + Fill('\0', n))[1..] == s[1..] + Fill('\0', n);
      UpToFilled(s[1..], n);
    }
  }

  /** The copy of the expiry field into a zeroed buffer, and its value. */
  method ReadExpiry(sasTokenArray: array<char>, seStart: nat, seStop: nat) returns (expiry: nat)
    requires seStart < seStop < sasTokenArray.Length && '\0' !in sasTokenArray[seStart..seStop]
    ensures expiry == Expiry(UpTo(sasTokenArray[seStart..seStop], '&'))
  {
    hide Expiry, UpTo;
    ghost var field := sasTokenArray[seStart..seStop];
    var expiryASCII := new char[seStop - seStart + 1](_ => '\0');
    var i := seStart;
    while i < seStop && sasTokenArray[i] != '&'
      invariant seStart <= i <= seStop
      invariant '&' !in field[..i - seStart]
      invariant expiryASCII[..] == field[..i - seStart] + Fill('\0', seStop - i + 1)
    {
      assert sasTokenArray[i] == field[i - seStart];
      assert field[..i + 1 - seStart] == field[..i - seStart] + [field[i - seStart]];
      expiryASCII[i - seStart] := sasTokenArray[i];
      i := i + 1;
    }
    assert i < seStop ==> field[i - seStart] == '&';
    UpToIs(field, i - seStart, '&');
    assert '\0' !in field[..i - seStart];
    UpToFilled(field[..i - seStart], seStop - i + 1);
    expiry := GetExpiryValue(expiryASCII);
  }

  /** SASToken_Validate; `memory` is the outcome of its allocation. */
  method Validate(sasTokenArray: array<char>, ghost t: string, now: int, memory: bool) returns (result: bool)
    requires '\0' !in t && sasTokenArray[..] == t + ['\0']
    ensures memory ==> result == Accepts(t, now)
    ensures !memory ==> !result
  {
    hide Scan, Expiry;
    var seStart, seStop, srStart, srStop, sigStart, sigStop := ScanToken(sasTokenArray, t);
    var tokenLength := sasTokenArray.Length - 1;
    ScanBounded(t, |t|);
    if seStart < 0 || srStart < 0 || sigStart < 0 {
      return false;
    }
    if seStop < 0 {
      seStop := tokenLength;
    } else if srStop < 0 {
      srStop := tokenLength;
    } else if sigStop < 0 {
      sigStop := tokenLength;
    }
    if seStop <= seStart || srStop <= srStart || sigStop <= sigStart || !memory {
      return false;
    }
    assert sasTokenArray[seStart..seStop] == sasTokenArray[..][seStart..seStop] == t[seStart..seStop];
    var expiry := ReadExpiry(sasTokenArray, seStart, seStop);
    result := expiry > 0 && now <= expiry;
  }

  // ---- the printer ----

  function Bytes(s: seq<Base64.Byte>): (r: seq<bv8>)
    ensures |r| == |s|
  {
    seq(|s|, i requires 0 <= i < |s| => s[i] as bv8)
  }

  function Numbers(s: seq<bv8>): (r: seq<Base64.Byte>)
    ensures |r| == |s|
  {
    seq(|s|, i requires 0 <= i < |s| => s[i] as nat)
  }

  lemma NumeralText(n: nat)
    ensures IsText(Decimal(n))
  {
    forall i | 0 <= i < |Decimal(n)|
      ensures 0 < Decimal(n)[i] as int < 256
    {
      DecimalAt(n, i);
    }
  }

  /** The text that is signed. */
  function ToBeHashed(scope: string, expiry: nat): (r: string)
    requires IsText(scope)
    ensures IsText(r)
  {
    NumeralText(expiry);
    scope + "\n" + Decimal(expiry)
  }

  /** The base64 characters of HMAC-SHA256 over the scope, a line feed and the expiry. */
  function Signature(key: seq<Base64.Byte>, scope: string, expiry: nat): (r: string)
    requires IsText(scope)
    ensures IsText(r)
  {
    var mac := Numbers(HmacSha.Hmac(SHA256, Bytes(key), ToBits(Bytes(Base64.TextBytes(ToBeHashed(scope, expiry))))));
    EncodeText(mac);
    Base64.Encode(mac)
  }

  function TokenText(scope: string, sig: string, expiry: string, keyname: string): string {
    "SharedAccessSignature sr=" + scope + "&sig=" + sig + "&se=" + expiry + "&skn=" + keyname
  }

  lemma {:induction false} EncodeText(s: seq<Base64.Byte>)
    ensures IsText(Base64.Encode(s)) && |Base64.Encode(s)| >= |s|
  {
    hide Base64.Group3;
    if |s| == 1 {
      CharsText(Base64.Group3(s[0], 0, 0)[..2]);
    } else if |s| == 2 {
      CharsText(Base64.Group3(s[0], s[1], 0)[..3]);
    } else if |s| >= 3 {
      CharsText(Base64.Group3(s[0], s[1], s[2]));
      EncodeText(s[3..]);
    }
  }

  lemma CharsText(v: seq<nat>)
    requires forall i :: 0 <= i < |v| ==> v[i] < 64
    ensures IsText(Base64.Chars(v))
  {
  }

  /** What is signed can be read back: the scope, up to a line feed, and behind it the expiry in decimal digits. */
  lemma SignedText(scope: string, expiry: nat)
    requires IsText(scope)
    ensures var t := ToBeHashed(scope, expiry);
      && |t| > |scope| && t[..|scope|] == scope && t[|scope|] == '\n'
      && AllDigits(t[|scope| + 1..], 10) && Number(t[|scope| + 1..], 10) == expiry
      && ('\n' !in scope ==> UpTo(t, '\n') == scope)
  {
    hide Decimal, UpTo, Number, AllDigits;
    var t := ToBeHashed(scope, expiry);
    DecimalNumber(expiry);
    assert t[|scope| + 1..] == Decimal(expiry);
    assert t[..|scope|] == scope;
    if '\n' !in scope {
      UpToIs(t, |scope|, '\n');
    }
  }

  lemma ByteNumber(b: bv8)
    ensures (b as nat) as bv8 == b
  {
  }

  lemma BytesAre(s: seq<bv8>, n: seq<Base64.Byte>)
    requires |s| == |n| && forall i :: 0 <= i < |s| ==> s[i] as nat == n[i]
    ensures Bytes(n) == s
  {
    forall i | 0 <= i < |s|
      ensures Bytes(n)[i] == s[i]
    {
      ByteNumber(s[i]);
    }
  }

  /** The signature is the base64 text of the thirty-two bytes of HMAC-SHA256, under the bytes of the key, of the
      bytes signed. */
  lemma SignatureDecodes(key: seq<Base64.Byte>, scope: string, expiry: nat, k: seq<bv8>, text: seq<bv8>)
    requires IsText(scope)
    requires |k| == |key| && forall i :: 0 <= i < |k| ==> k[i] as nat == key[i]
    requires |text| == |ToBeHashed(scope, expiry)|
    requires forall i :: 0 <= i < |text| ==> text[i] as nat == ToBeHashed(scope, expiry)[i] as int
    ensures var sig, mac := Signature(key, scope, expiry), HmacSha.Hmac(SHA256, k, ToBits(text));
      && |mac| == 32
      && Base64.Decode(sig[..Base64.PrefixLength(sig)]) == Numbers(mac)
      && (forall i :: 0 <= i < 32 ==> Numbers(mac)[i] == mac[i] as nat)
  {
    hide HmacSha.Hmac, Base64.Encode, Base64.Decode, Base64.PrefixLength, ToBits, ToBeHashed;
    BytesAre(k, key);
    BytesAre(text, Base64.TextBytes(ToBeHashed(scope, expiry)));
    hide Bytes, Base64.TextBytes;
    Base64.DecodeEncode(Numbers(HmacSha.Hmac(SHA256, k, ToBits(text))));
  }

  /** The parts of a text between the occurrences of a character. */
  function Parts(t: string, c: char): (r: seq<string>)
    decreases |t|
  {
    var first := UpTo(t, c);
    if |first| == |t| then [t] else [first] + Parts(t[|first| + 1..], c)
  }

  lemma FirstPart(first: string, c: char, rest: string)
    requires c !in first
    ensures Parts(first + [c] + rest, c) == [first] + Parts(rest, c)
  {
    hide UpTo;
    var t := first + [c] + rest;
    assert t[..|first|] == first;
    UpToIs(t, |first|, c);
    assert t[|first| + 1..] == rest;
  }

  /** A token is four parameters: resource, signature, expiry and key name. */
  lemma TokenParameters(scope: string, sig: string, expiry: string, keyname: string)
    requires '&' !in scope && '&' !in sig && '&' !in expiry && '&' !in keyname
    ensures Parts(TokenText(scope, sig, expiry, keyname), '&')
         == ["SharedAccessSignature sr=" + scope, "sig=" + sig, "se=" + expiry, "skn=" + keyname]
  {
    hide UpTo, Parts;
    var a, b, c, d := "SharedAccessSignature sr=" + scope, "sig=" + sig, "se=" + expiry, "skn=" + keyname;
    assert TokenText(scope, sig, expiry, keyname) == a + ['&'] + (b + ['&'] + (c + ['&'] + d));
    FirstPart(a, '&', b + ['&'] + (c + ['&'] + d));
    FirstPart(b, '&', c + ['&'] + d);
    FirstPart(c, '&', d);
    LastPart(d, '&');
  }

  lemma LastPart(t: string, c: char)
    requires c !in t
    ensures Parts(t, c) == [t]
  {
    hide UpTo;
    UpToIs(t, |t|, c);
  }

  /** construct_sas_token with every allocation succeeding: NULL exactly when the key is no
      base64 text length, or is empty. */
  method ConstructSasToken(key: string, scope: string, keyname: string, expiry: nat)
    returns (result: Option<string>, ghost decodedKey: seq<Base64.Byte>)
    requires IsText(key) && IsText(scope) && IsText(keyname)
    requires expiry <= ULLONG_MAX && |key| < 0x8000_0000 && |scope| < 0x7FFF_FF00
    ensures result.None? == (|key| % 4 != 0 || key == "")
    ensures result.Some? ==>
      && |decodedKey| == Base64.DecodeLength(key) && Base64.Decode(key[..Base64.PrefixLength(key)]) <= decodedKey
      && result.value == TokenText(scope, UrlEncode.Encode(Signature(decodedKey, scope, expiry)), Decimal(expiry), keyname)
  {
    hide Decimal, Base64.Decode, Base64.Encode, HmacSha.Hmac, Bytes, Numbers, ToBits, UrlEncode.Encode;
    var ok, bytes := Base64.Base64Decoder(key);
    decodedKey := bytes;
    if !ok {
      return None, decodedKey;
    }
    DecimalFits(expiry);
    var tokenExpirationTime := new char[32](_ => '\0');
    var converted := SizeToString(tokenExpirationTime, expiry);
    var decimal := tokenExpirationTime[..|Decimal(expiry)|];
    assert decimal == Decimal(expiry);
    var toBeHashed := scope + "\n" + decimal;
    assert toBeHashed == ToBeHashed(scope, expiry);
    var inBuf := ToArray(Bytes(Base64.TextBytes(toBeHashed)));
    var keyBuf := ToArray(Bytes(bytes));
    if keyBuf.Length == 0 {
      return None, decodedKey;
    }
    var digest := new bv8[32];
    var r := HmacSha.ComputeHmac(SHA256, inBuf, inBuf.Length, keyBuf, keyBuf.Length, digest);
    assert inBuf[..inBuf.Length] == inBuf[..] && keyBuf[..keyBuf.Length] == keyBuf[..] && digest[..32] == digest[..];
    assert Base64.Encode(Numbers(digest[..])) == Signature(bytes, scope, expiry);
    var base64Signature := Base64.Base64EncodeInternal(Numbers(digest[..]));
    EncodeText(Numbers(digest[..]));
    var urlEncodedSignature := UrlEncode.UrlEncode(base64Signature);
    result := Some("SharedAccessSignature sr=" + scope + "&sig=" + urlEncodedSignature + "&se=" + decimal + "&skn=" + keyname);
  }

  method ToArray(s: seq<bv8>) returns (a: array<bv8>)
    ensures fresh(a) && a[..] == s
  {
    a := new bv8[|s|](i requires 0 <= i < |s| => s[i]);
  }

  lemma DecimalFits(n: nat)
    requires n <= ULLONG_MAX
    ensures |Decimal(n)| <= 20
  {
    assert PowerOf10(5) == 10_0000 && PowerOf10(10) == 100_0000_0000 && PowerOf10(15) == 1000_0000_0000_0000;
    DigitCount(n, 20);
  }

  // ---- agreement of printer and scanner ----

  /** No marker of the scanner starts inside the text and ends inside it. */
  predicate NoMarker(s: string) {
    forall i :: 0 <= i < |s| ==> !Marker(s, i, "se=") && !Marker(s, i, "sr=") && !Marker(s, i, "sig=")
  }

  predicate Holds(t: string, at: nat, s: string) {
    at + |s| <= |t| && t[at..at + |s|] == s
  }

  /** The characters that follow the first one in a marker. */
  predicate InMarker(c: char) {
    c == 'e' || c == 'r' || c == 'i' || c == 'g' || c == '='
  }

  lemma MarkerAt(t: string, i: nat, m: string, k: nat)
    requires Marker(t, i, m) && k < |m|
    ensures t[i + k] == m[k]
  {
    assert t[i..i + |m|][k] == t[i + k];
  }

  lemma QuietStep(t: string, i: nat)
    requires i < |t| && (t[i] != 's' || !InMarker(At(t, i + 1)))
    ensures Scan(t, i + 1) == Scan(t, i)
  {
    hide Marker;
    if Marker(t, i, "se=") {
      MarkerAt(t, i, "se=", 0);
      MarkersFit(t, i);
      MarkerAt(t, i, "se=", 1);
    } else if Marker(t, i, "sr=") {
      MarkerAt(t, i, "sr=", 0);
      MarkersFit(t, i);
      MarkerAt(t, i, "sr=", 1);
    } else if Marker(t, i, "sig=") {
      MarkerAt(t, i, "sig=", 0);
      MarkersFit(t, i);
      MarkerAt(t, i, "sig=", 1);
    }
  }

  lemma SliceOfSlice(t: string, lo: nat, hi: nat, i: nat, n: nat)
    requires i + n <= hi - lo && hi <= |t|
    ensures t[lo..hi][i..i + n] == t[lo + i..lo + i + n]
  {
    var inner, outer := t[lo..hi][i..i + n], t[lo + i..lo + i + n];
    forall k | 0 <= k < n
      ensures inner[k] == outer[k]
    {
      assert inner[k] == t[lo..hi][i + k];
    }
  }

  lemma MarkerCrosses(t: string, i: nat, m: string, hi: nat)
    requires Marker(t, i, m) && forall k :: 0 < k < |m| ==> InMarker(m[k])
    ensures i < hi < i + |m| ==> hi < |t| && InMarker(t[hi])
  {
    if i < hi < i + |m| {
      MarkerAt(t, i, m, hi - i);
    }
  }

  lemma MarkerInside(t: string, lo: nat, s: string, i: nat, m: string)
    requires Holds(t, lo, s) && lo <= i < lo + |s| && Marker(t, i, m)
    requires forall k :: 0 < k < |m| ==> InMarker(m[k])
    requires lo + |s| < |t| ==> !InMarker(t[lo + |s|])
    ensures Marker(s, i - lo, m)
  {
    var hi := lo + |s|;
    MarkerCrosses(t, i, m, hi);
    SliceOfSlice(t, lo, hi, i - lo, |m|);
  }

  /** Text without markers leaves the indices as they are. */
  lemma {:induction false} QuietSegment(t: string, lo: nat, s: string, n: nat)
    requires Holds(t, lo, s) && NoMarker(s) && n <= |s|
    requires lo + |s| < |t| ==> !InMarker(t[lo + |s|])
    ensures Scan(t, lo + n) == Scan(t, lo)
  {
    hide *;
    if n > 0 {
      QuietSegment(t, lo, s, n - 1);
      QuietAt(t, lo, s, lo + n - 1);
    }
  }

  lemma QuietAt(t: string, lo: nat, s: string, i: nat)
    requires Holds(t, lo, s) && NoMarker(s) && lo <= i < lo + |s|
    requires lo + |s| < |t| ==> !InMarker(t[lo + |s|])
    ensures Scan(t, i + 1) == Scan(t, i)
  {
    hide Marker, Holds;
    if Marker(t, i, "se=") {
      MarkerInside(t, lo, s, i, "se=");
    } else if Marker(t, i, "sr=") {
      MarkerInside(t, lo, s, i, "sr=");
    } else if Marker(t, i, "sig=") {
      MarkerInside(t, lo, s, i, "sig=");
    }
  }

  lemma NoEqualsNoMarker(s: string)
    requires '=' !in s
    ensures NoMarker(s)
  {
    forall i | 0 <= i < |s|
      ensures !Marker(s, i, "se=") && !Marker(s, i, "sr=") && !Marker(s, i, "sig=")
    {
      if Marker(s, i, "se=") {
        MarkerAt(s, i, "se=", 2);
      }
      if Marker(s, i, "sr=") {
        MarkerAt(s, i, "sr=", 2);
      }
      if Marker(s, i, "sig=") {
        MarkerAt(s, i, "sig=", 3);
      }
    }
  }

  lemma HoldsFits(t: string, at: nat, s: string)
    requires Holds(t, at, s)
    ensures at + |s| <= |t|
  {
  }

  lemma HoldsAt(t: string, at: nat, s: string, k: nat)
    requires Holds(t, at, s) && k < |s|
    ensures t[at + k] == s[k]
  {
    assert t[at..at + |s|][k] == t[at + k];
  }

  lemma HoldsIsMarker(t: string, at: nat, s: string, k: nat)
    requires Holds(t, at, s) && k <= |s|
    ensures Marker(t, at + k, s[k..])
  {
    assert t[at..at + |s|][k..] == t[at + k..at + |s|];
  }

  lemma PrefixHolds(t: string, p: string, s: string)
    requires p + s <= t
    ensures Holds(t, |p|, s) && p <= t
  {
    assert t[..|p + s|] == p + s;
    assert t[|p|..|p + s|] == (p + s)[|p|..];
  }

  /** Where the pieces of a printed token are; the four positions are those of the fields. */
  ghost predicate Layout(t: string, scope: string, sig: string, dec: string, keyname: string) {
    var p := 25 + |scope|;
    var q := p + 5 + |sig|;
    var r := q + 4 + |dec|;
    && |t| == r + 5 + |keyname|
    && Holds(t, 0, "SharedAccessSignature ") && Holds(t, 22, "sr=") && Holds(t, 25, scope)
    && Holds(t, p, "&sig=") && Holds(t, p + 5, sig)
    && Holds(t, q, "&se=") && Holds(t, q + 4, dec)
    && Holds(t, r, "&skn=") && Holds(t, r + 5, keyname)
  }

  lemma PrintedLayout(scope: string, sig: string, dec: string, keyname: string)
    ensures Layout(TokenText(scope, sig, dec, keyname), scope, sig, dec, keyname)
  {
    hide Holds;
    var t := TokenText(scope, sig, dec, keyname);
    var t0 := "SharedAccessSignature sr=";
    var t1 := t0 + scope;
    var t2 := t1 + "&sig=";
    var t3 := t2 + sig;
    var t4 := t3 + "&se=";
    var t5 := t4 + dec;
    var t6 := t5 + "&skn=";
    assert t == t6 + keyname;
    PrefixHolds(t, t6, keyname);
    PrefixHolds(t, t5, "&skn=");
    PrefixHolds(t, t4, dec);
    PrefixHolds(t, t3, "&se=");
    PrefixHolds(t, t2, sig);
    PrefixHolds(t, t1, "&sig=");
    PrefixHolds(t, t0, scope);
    assert t0 == "SharedAccessSignature " + "sr=";
    PrefixHolds(t, "SharedAccessSignature ", "sr=");
    assert "SharedAccessSignature " == "" + "SharedAccessSignature ";
    PrefixHolds(t, "", "SharedAccessSignature ");
  }

  predicate StartsNoMarker(s: string, k: nat)
    requires k < |s|
  {
    s[k] != 's' || (k + 1 < |s| && !InMarker(s[k + 1]))
  }

  /** A literal that is no marker start leaves the indices as they are. */
  lemma {:induction false} QuietText(t: string, at: nat, s: string, n: nat)
    requires Holds(t, at, s) && n <= |s|
    requires forall k :: 0 <= k < n ==> StartsNoMarker(s, k)
    ensures Scan(t, at + n) == Scan(t, at)
  {
    hide Marker, Scan, Holds, InMarker;
    HoldsFits(t, at, s);
    if n > 0 {
      var k := n - 1;
      QuietText(t, at, s, k);
      HoldsAt(t, at, s, k);
      assert StartsNoMarker(s, k);
      if s[k] == 's' {
        HoldsAt(t, at, s, k + 1);
        assert At(t, at + k + 1) == s[k + 1];
      }
      QuietStep(t, at + k);
    }
  }

  lemma OneMarker(t: string, i: nat, m: string, other: string)
    requires Marker(t, i, m) && |m| > 1 && |other| > 1 && m[1] != other[1]
    ensures !Marker(t, i, other)
  {
    MarkerAt(t, i, m, 1);
  }

  /** A field opened by a marker: the marker itself, then the rest of its characters. */
  lemma OpenSr(t: string, i: nat)
    requires Holds(t, i, "sr=") && Scan(t, i) == Fields(-1, -1, -1, -1, -1, -1)
    ensures Scan(t, i + 3) == Fields(-1, -1, i + 3, -1, -1, -1)
  {
    HoldsAt(t, i, "sr=", 1);
    HoldsIsMarker(t, i, "sr=", 0);
    assert "sr="[0..] == "sr=";
    OneMarker(t, i, "sr=", "se=");
    HoldsIsMarker(t, i, "sr=", 1);
    assert "sr="[1..] == "r=";
    QuietText(t, i + 1, "r=", 2);
  }

  /** The separated markers of signature and expiry open their field whatever precedes, and close
      the one of scope or expiry, or of scope or signature. */
  function SigOpened(f: Fields, p: nat): Fields {
    if f.srStart > 0 && f.srStop < 0 then f.(sigStart := p + 5, srStop := p - 1)
    else if f.seStart > 0 && f.seStop < 0 then f.(sigStart := p + 5, seStop := p - 1)
    else f.(sigStart := p + 5)
  }

  function SeOpened(f: Fields, q: nat): Fields {
    if f.srStart > 0 && f.srStop < 0 then f.(seStart := q + 4, srStop := q - 1)
    else if f.sigStart > 0 && f.sigStop < 0 then f.(seStart := q + 4, sigStop := q - 1)
    else f.(seStart := q + 4)
  }

  lemma OpenSig(t: string, p: nat)
    requires Holds(t, p, "&sig=")
    ensures Scan(t, p + 5) == SigOpened(Scan(t, p), p)
  {
    HoldsAt(t, p, "&sig=", 0);
    HoldsAt(t, p, "&sig=", 2);
    QuietText(t, p, "&sig=", 1);
    HoldsIsMarker(t, p, "&sig=", 1);
    assert "&sig="[1..] == "sig=";
    OneMarker(t, p + 1, "sig=", "se=");
    OneMarker(t, p + 1, "sig=", "sr=");
    assert Scan(t, p + 2) == Step(t, p + 1, Scan(t, p + 1));
    HoldsIsMarker(t, p, "&sig=", 2);
    assert "&sig="[2..] == "ig=";
    QuietText(t, p + 2, "ig=", 3);
  }

  lemma OpenSe(t: string, q: nat)
    requires Holds(t, q, "&se=")
    ensures Scan(t, q + 4) == SeOpened(Scan(t, q), q)
  {
    HoldsAt(t, q, "&se=", 0);
    QuietText(t, q, "&se=", 1);
    HoldsIsMarker(t, q, "&se=", 1);
    assert "&se="[1..] == "se=";
    assert Scan(t, q + 2) == Step(t, q + 1, Scan(t, q + 1));
    HoldsIsMarker(t, q, "&se=", 2);
    assert "&se="[2..] == "e=";
    QuietText(t, q + 2, "e=", 2);
  }

  lemma ScanMiddle(t: string, p: nat, sig: string, q: nat, dec: string, r: nat)
    requires q == p + 5 + |sig| && r == q + 4 + |dec| && '=' !in sig && '=' !in dec
    requires Holds(t, p, "&sig=") && Holds(t, p + 5, sig) && Holds(t, q, "&se=") && Holds(t, q + 4, dec) && Holds(t, r, "&skn=")
    ensures Scan(t, r + 5) == SeOpened(SigOpened(Scan(t, p), p), q)
  {
    hide Scan, NoMarker, Marker, Holds, Step, At, SigOpened, SeOpened;
    OpenSig(t, p);
    HoldsFits(t, q, "&se=");
    HoldsAt(t, q, "&se=", 0);
    NoEqualsNoMarker(sig);
    QuietSegment(t, p + 5, sig, |sig|);
    OpenSe(t, q);
    ScanBack(t, q + 4, dec);
  }

  lemma LayoutPieces(t: string, scope: string, sig: string, dec: string, keyname: string, p: nat, q: nat, r: nat)
    requires Layout(t, scope, sig, dec, keyname) && p == 25 + |scope| && q == p + 5 + |sig| && r == q + 4 + |dec|
    ensures |t| == r + 5 + |keyname| && Holds(t, r + 5, keyname)
    ensures Holds(t, 0, "SharedAccessSignature ") && Holds(t, 22, "sr=") && Holds(t, 25, scope) && Holds(t, p, "&sig=")
    ensures Holds(t, p + 5, sig) && Holds(t, q, "&se=") && Holds(t, q + 4, dec) && Holds(t, r, "&skn=")
  {
    hide Holds;
  }

  /** Up to the key name, the markers behind the scope match once, each at its own place. */
  lemma ScanToKey(t: string, scope: string, sig: string, dec: string, keyname: string, p: nat, q: nat, r: nat)
    requires Layout(t, scope, sig, dec, keyname) && p == 25 + |scope| && q == p + 5 + |sig| && r == q + 4 + |dec|
    requires '=' !in sig && '=' !in dec
    ensures |t| == r + 5 + |keyname| && Holds(t, r + 5, keyname) && Holds(t, 25, scope)
    ensures Scan(t, 25) == Fields(-1, -1, 25, -1, -1, -1)
    ensures Scan(t, r + 5) == SeOpened(SigOpened(Scan(t, p), p), q)
  {
    hide *;
    LayoutPieces(t, scope, sig, dec, keyname, p, q, r);
    ScanFront(t);
    ScanMiddle(t, p, sig, q, dec, r);
  }

  /** Each of the three markers of a printed token matches once, at its own place, if there is none
      in the scope and in the key name. */
  lemma ScanPrinted(t: string, scope: string, sig: string, dec: string, keyname: string)
    requires Layout(t, scope, sig, dec, keyname)
    requires NoMarker(scope) && NoMarker(keyname) && '=' !in sig && '=' !in dec
    ensures var p := 25 + |scope|;
      var q := p + 5 + |sig|;
      Scan(t, |t|) == Fields(q + 4, -1, 25, p - 1, p + 5, q - 1)
  {
    hide Scan, NoMarker, Marker, Holds, Step, At, Layout;
    var p := 25 + |scope|;
    var q := p + 5 + |sig|;
    var r := q + 4 + |dec|;
    ScanToKey(t, scope, sig, dec, keyname, p, q, r);
    LayoutPieces(t, scope, sig, dec, keyname, p, q, r);
    HoldsAt(t, p, "&sig=", 0);
    QuietSegment(t, 25, scope, |scope|);
    QuietSegment(t, r + 5, keyname, |keyname|);
  }

  lemma ScanFront(t: string)
    requires Holds(t, 0, "SharedAccessSignature ") && Holds(t, 22, "sr=")
    ensures Scan(t, 25) == Fields(-1, -1, 25, -1, -1, -1)
  {
    hide Scan, NoMarker, Marker, Step;
    StartOfScan(t);
    NoEqualsNoMarker("SharedAccessSignature ");
    HoldsAt(t, 22, "sr=", 0);
    QuietSegment(t, 0, "SharedAccessSignature ", 22);
    OpenSr(t, 22);
  }

  lemma ScanBack(t: string, at: nat, dec: string)
    requires Holds(t, at, dec) && Holds(t, at + |dec|, "&skn=") && '=' !in dec
    ensures Scan(t, at + |dec| + 5) == Scan(t, at)
  {
    hide Scan, NoMarker, Marker, Step;
    NoEqualsNoMarker(dec);
    HoldsAt(t, at + |dec|, "&skn=", 0);
    QuietSegment(t, at, dec, |dec|);
    QuietText(t, at + |dec|, "&skn=", 5);
  }

  lemma StartOfScan(t: string)
    ensures Scan(t, 0) == Fields(-1, -1, -1, -1, -1, -1)
  {
  }

  /** The scanner reads back the expiry of a printed token. */
  lemma ExpiryField(t: string, at: nat, dec: string)
    requires Holds(t, at, dec) && '&' !in dec && at + |dec| < |t| && t[at + |dec|] == '&'
    ensures UpTo(t[at..], '&') == dec
  {
    var rest := t[at..];
    assert rest[..|dec|] == t[at..at + |dec|];
    UpToIs(rest, |dec|, '&');
  }

  // ---- markers in the scope ----

  /** A place in the text behind a space or an ampersand. */
  predicate Parted(s: string, i: int) {
    0 < i <= |s| && (s[i - 1] == ' ' || s[i - 1] == '&')
  }

  /** The first separated "se=" or "sig=" that starts among the first n characters, or -1. */
  function FirstParted(s: string, n: nat): (k: int)
    ensures -1 <= k < n && (k >= 0 ==> Parted(s, k) && (Marker(s, k, "se=") || Marker(s, k, "sig=")))
  {
    if n == 0 then -1
    else if FirstParted(s, n - 1) >= 0 then FirstParted(s, n - 1)
    else if Parted(s, n - 1) && (Marker(s, n - 1, "se=") || Marker(s, n - 1, "sig=")) then n - 1 else -1
  }

  /** Behind the last "sr=" that starts among the first n characters, or the start of the text. */
  function ScopeStart(s: string, n: nat): nat {
    if n == 0 then 0 else if Marker(s, n - 1, "sr=") then n + 2 else ScopeStart(s, n - 1)
  }

  /** Where a field ends that a marker at k closes: before an ampersand one character is lost. */
  function ScopeStop(s: string, k: nat): int
    requires Parted(s, k)
  {
    if s[k - 1] == ' ' then k - 1 else k - 2
  }

  /** A marker that spoils a signature field that is open. */
  predicate Spoils(s: string, i: int) {
    Marker(s, i, "sr=") || (Marker(s, i, "se=") && Parted(s, i))
  }

  predicate Spoilt(s: string, k: int, n: nat) {
    exists i :: k < i < n && Spoils(s, i)
  }

  /** Which scopes are read.  Without a separated "se=" or "sig=": those with two characters or more
      behind their last "sr=".  With one: those in which the first is "sig=", has a field before it
      that is not empty (of two characters or more before an ampersand), and neither "sr=" nor a
      separated "se=" behind it. */
  predicate ScopeRead(s: string) {
    var k := FirstParted(s, |s|);
    if k < 0 then |s| - ScopeStart(s, |s|) >= 2
    else Marker(s, k, "sig=") && ScopeStart(s, k) < ScopeStop(s, k) && !Spoilt(s, k, |s|)
  }

  /** A field that starts behind its stop, or not at all. */
  predicate Late(start: int, stop: int) {
    stop >= 0 && (start == -1 || start > stop)
  }

  predicate Doomed(f: Fields) {
    Late(f.seStart, f.seStop) || Late(f.srStart, f.srStop) || Late(f.sigStart, f.sigStop)
  }

  /** Fields that the markers behind the scope will make late. */
  predicate Lost(f: Fields) {
    || Late(f.srStart, f.srStop) || f.sigStop >= 0
    || (f.srStop >= 0 && (f.seStop >= 0 || (f.seStart > 0 && f.sigStart == -1)))
  }

  predicate StopsBefore(f: Fields, n: int) {
    f.seStop < n && f.srStop < n && f.sigStop < n
  }

  /** The fields while the scope is scanned. */
  predicate InScope(f: Fields, s: string, n: nat) {
    var k := FirstParted(s, n);
    if k < 0 then f == Fields(-1, -1, 25 + ScopeStart(s, n), -1, -1, -1)
    else if Marker(s, k, "sig=") && !Spoilt(s, k, n) then
      && f.seStart == f.seStop == f.sigStop == -1 && f.sigStart > 0
      && f.srStart == 25 + ScopeStart(s, k) && f.srStop == 25 + ScopeStop(s, k)
    else Lost(f)
  }

  lemma StepStops(t: string, i: nat, f: Fields)
    requires StopsBefore(f, i)
    ensures StopsBefore(Step(t, i, f), i + 1)
  {
    hide Marker, At;
  }

  lemma {:induction false} ScanStops(t: string, n: nat)
    ensures StopsBefore(Scan(t, n), n)
  {
    hide Step;
    if n > 0 {
      ScanStops(t, n - 1);
      StepStops(t, n - 1, Scan(t, n - 1));
    }
  }

  lemma LostStays(t: string, i: nat, f: Fields)
    requires Lost(f) && StopsBefore(f, i) && i >= 2
    ensures Lost(Step(t, i, f))
  {
    hide Marker, At;
  }

  lemma DoomedStays(t: string, i: nat, f: Fields)
    requires Doomed(f) && StopsBefore(f, i)
    ensures Doomed(Step(t, i, f))
  {
    hide Marker, At;
  }

  lemma {:induction false} DoomedLasts(t: string, m: nat, n: nat)
    requires m <= n && Doomed(Scan(t, m))
    ensures Doomed(Scan(t, n))
    decreases n - m
  {
    hide Step, Doomed;
    if m < n {
      ScanStops(t, m);
      DoomedStays(t, m, Scan(t, m));
      DoomedLasts(t, m + 1, n);
    }
  }

  lemma SpoiltStep(s: string, k: int, n: nat)
    ensures Spoilt(s, k, n + 1) == (Spoilt(s, k, n) || (k < n && Spoils(s, n)))
  {
    hide Spoils;
  }

  /** One character of the scope, by what the scanner sees there. */
  lemma ScopeStep(t: string, s: string, f: Fields, n: nat)
    requires n < |s| && InScope(f, s, n) && StopsBefore(f, 25 + n)
    requires forall m :: m == "se=" || m == "sr=" || m == "sig=" ==> Marker(t, 25 + n, m) == Marker(s, n, m)
    requires (At(t, 24 + n) == ' ' || At(t, 24 + n) == '&') == Parted(s, n)
    requires Parted(s, n) ==> At(t, 24 + n) == s[n - 1]
    ensures InScope(Step(t, 25 + n, f), s, n + 1)
  {
    var k := FirstParted(s, n);
    SpoiltStep(s, k, n);
    SpoiltStep(s, n, n);
    assert !Spoilt(s, n, n);
    if Lost(f) {
      LostStays(t, 25 + n, f);
    }
    if Marker(s, n, "se=") {
      OneMarker(s, n, "se=", "sr=");
      OneMarker(s, n, "se=", "sig=");
    } else if Marker(s, n, "sr=") {
      OneMarker(s, n, "sr=", "sig=");
    }
    hide Marker, At, Spoilt, Parted;
  }

  lemma MarkerInScope(t: string, s: string, n: nat, m: string)
    requires Holds(t, 25, s) && Holds(t, 25 + |s|, "&sig=") && n < |s| && (m == "se=" || m == "sr=" || m == "sig=")
    ensures Marker(t, 25 + n, m) == Marker(s, n, m)
  {
    HoldsAt(t, 25 + |s|, "&sig=", 0);
    if Marker(t, 25 + n, m) {
      MarkerInside(t, 25, s, 25 + n, m);
    }
    if n + |m| <= |s| {
      SliceOfSlice(t, 25, 25 + |s|, n, |m|);
    }
  }

  lemma {:induction false} ScopeScan(t: string, s: string, n: nat)
    requires Holds(t, 22, "sr=") && Holds(t, 25, s) && Holds(t, 25 + |s|, "&sig=") && n <= |s|
    requires Scan(t, 25) == Fields(-1, -1, 25, -1, -1, -1)
    ensures InScope(Scan(t, 25 + n), s, n)
  {
    hide Step, Marker, Holds, Parted;
    if n > 0 {
      var i := n - 1;
      ScopeScan(t, s, i);
      ScanStops(t, 25 + i);
      forall m | m == "se=" || m == "sr=" || m == "sig="
        ensures Marker(t, 25 + i, m) == Marker(s, i, m)
      {
        MarkerInScope(t, s, i, m);
      }
      PartedHere(t, s, i);
      hide Scan, InScope;
      ScopeStep(t, s, Scan(t, 25 + i), i);
      NextScan(t, 25 + i);
    }
  }

  lemma NextScan(t: string, i: nat)
    ensures Scan(t, i + 1) == Step(t, i, Scan(t, i))
  {
  }

  lemma PartedHere(t: string, s: string, i: nat)
    requires Holds(t, 22, "sr=") && Holds(t, 25, s) && i < |s|
    ensures (At(t, 24 + i) == ' ' || At(t, 24 + i) == '&') == Parted(s, i)
    ensures Parted(s, i) ==> At(t, 24 + i) == s[i - 1]
  {
    HoldsFits(t, 25, s);
    if i == 0 {
      HoldsAt(t, 22, "sr=", 2);
    } else {
      HoldsAt(t, 25, s, i - 1);
    }
  }

  /** What becomes of the fields behind the scope. */
  lemma BehindScope(f: Fields, s: string, p: nat, q: nat)
    requires InScope(f, s, |s|) && StopsBefore(f, p) && p == 25 + |s| && p + 5 <= q
    ensures var k := FirstParted(s, |s|);
      var g := SeOpened(SigOpened(f, p), q);
      if k >= 0 && (!Marker(s, k, "sig=") || Spoilt(s, k, |s|)) then Doomed(g)
      else if k < 0 then g == Fields(q + 4, -1, 25 + ScopeStart(s, |s|), p - 1, p + 5, q - 1)
      else g == Fields(q + 4, -1, 25 + ScopeStart(s, k), 25 + ScopeStop(s, k), p + 5, q - 1)
  {
    hide Marker, Spoilt, FirstParted;
  }

  // ---- markers in the key name ----

  predicate Occurs(s: string, m: string, n: nat) {
    exists i :: 0 <= i < n && Marker(s, i, m)
  }

  /** The last "se=" that starts among the first n characters; -1 when there is none. */
  function LastSe(s: string, n: nat): (i: int)
    ensures -1 <= i < n && (i >= 0 ==> Marker(s, i, "se="))
  {
    if n == 0 then -1 else if Marker(s, n - 1, "se=") then n - 1 else LastSe(s, n - 1)
  }

  /** The expiry the scanner finds: a later "se=" in the key name replaces the printed one. */
  function EffectiveExpiry(keyname: string, expiry: nat): nat {
    var i := LastSe(keyname, |keyname|);
    if i < 0 then expiry else Expiry(UpTo(keyname[i + 3..], '&'))
  }

  /** The fields while the key name is scanned, once sr and sig are closed: another start of one
      of these is lost or stands behind its stop. */
  predicate InKey(f: Fields, f0: Fields, keyname: string, n: nat, base: nat) {
    var last := LastSe(keyname, n);
    && f.srStop == f0.srStop && f.sigStop == f0.sigStop
    && (if Occurs(keyname, "sr=", n) then f.srStart == -1 || f.srStart > f.srStop else f.srStart == f0.srStart)
    && (if Occurs(keyname, "sig=", n) then f.sigStart == -1 || f.sigStart > f.sigStop else f.sigStart == f0.sigStart)
    && (!Occurs(keyname, "sr=", n) && !Occurs(keyname, "sig=", n) ==>
          f.seStop == -1 && f.seStart == if last < 0 then f0.seStart else base + last + 3)
  }

  lemma OccursStep(s: string, m: string, n: nat)
    ensures Occurs(s, m, n + 1) == (Occurs(s, m, n) || Marker(s, n, m))
  {
    hide Marker;
  }

  lemma MarkerInKey(t: string, base: nat, keyname: string, i: nat, m: string)
    requires Holds(t, base, keyname) && |t| == base + |keyname|
    ensures Marker(t, base + i, m) == Marker(keyname, i, m)
  {
    if i + |m| <= |keyname| {
      SliceOfSlice(t, base, base + |keyname|, i, |m|);
    }
  }

  lemma KeyStep(t: string, base: nat, keyname: string, f0: Fields, f: Fields, n: nat)
    requires Holds(t, base, keyname) && |t| == base + |keyname| && n < |keyname| && base > 0
    requires 0 <= f0.srStop < base && 0 <= f0.sigStop < base && InKey(f, f0, keyname, n, base)
    ensures InKey(Step(t, base + n, f), f0, keyname, n + 1, base)
  {
    OccursStep(keyname, "sr=", n);
    OccursStep(keyname, "sig=", n);
    MarkerInKey(t, base, keyname, n, "se=");
    MarkerInKey(t, base, keyname, n, "sr=");
    MarkerInKey(t, base, keyname, n, "sig=");
    if Marker(keyname, n, "se=") {
      OneMarker(keyname, n, "se=", "sr=");
      OneMarker(keyname, n, "se=", "sig=");
    } else if Marker(keyname, n, "sr=") {
      OneMarker(keyname, n, "sr=", "sig=");
    }
    hide Marker, Occurs, Holds, At;
  }

  lemma {:induction false} KeyScan(t: string, base: nat, keyname: string, f0: Fields, n: nat)
    requires Holds(t, base, keyname) && |t| == base + |keyname| && n <= |keyname| && base > 0
    requires 0 <= f0.srStop < base && 0 <= f0.sigStop < base && f0.seStop == -1 && Scan(t, base) == f0
    ensures InKey(Scan(t, base + n), f0, keyname, n, base)
  {
    hide Step, Holds, Marker;
    if n > 0 {
      KeyScan(t, base, keyname, f0, n - 1);
      KeyStep(t, base, keyname, f0, Scan(t, base + n - 1), n - 1);
    }
  }

  /** The expiry field as the scanner reads it. */
  lemma ExpiryRead(t: string, at: nat, expiry: nat, base: nat, keyname: string)
    requires var dec := Decimal(expiry);
      Holds(t, at, dec) && at + |dec| < |t| && t[at + |dec|] == '&'
    requires Holds(t, base, keyname) && |t| == base + |keyname|
    ensures var last := LastSe(keyname, |keyname|);
      var seStart := if last < 0 then at else base + last + 3;
      seStart <= |t| && Expiry(UpTo(t[seStart..], '&')) == EffectiveExpiry(keyname, expiry)
  {
    hide Decimal, UpTo, LastSe, Holds, Marker, Expiry;
    LastSeFits(keyname, |keyname|);
    KeyTail(t, base, keyname, LastSe(keyname, |keyname|) + 3);
    PlainExpiry(t, at, expiry);
  }

  lemma PlainExpiry(t: string, at: nat, expiry: nat)
    requires var dec := Decimal(expiry);
      Holds(t, at, dec) && at + |dec| < |t| && t[at + |dec|] == '&'
    ensures Expiry(UpTo(t[at..], '&')) == expiry
  {
    hide Decimal, Number, UpTo, Holds;
    PlainNumeral(expiry);
    ExpiryField(t, at, Decimal(expiry));
    DecimalNumber(expiry);
  }

  lemma KeyTail(t: string, base: nat, keyname: string, n: int)
    requires Holds(t, base, keyname) && |t| == base + |keyname|
    ensures 0 <= n <= |keyname| ==> t[base + n..] == keyname[n..]
  {
    assert t[base..base + |keyname|] == t[base..];
  }

  /** Which printed tokens are accepted: the scope is one that is read, the key name holds no "sr="
      and no "sig=", and the expiry is positive and not past; the expiry being the one in the key
      name behind its last "se=", if there is one. */
  lemma PrintedAccepted(scope: string, sig: string, expiry: nat, keyname: string, now: int)
    requires '=' !in sig && |sig| >= 2
    ensures Accepts(TokenText(scope, sig, Decimal(expiry), keyname), now) <==>
            && ScopeRead(scope) && !Occurs(keyname, "sr=", |keyname|) && !Occurs(keyname, "sig=", |keyname|)
            && 1 <= EffectiveExpiry(keyname, expiry) && now <= EffectiveExpiry(keyname, expiry)
  {
    hide *;
    var dec := Decimal(expiry);
    var t := TokenText(scope, sig, dec, keyname);
    var p := 25 + |scope|;
    var q := p + 5 + |sig|;
    var r := q + 4 + |dec|;
    PlainNumeral(expiry);
    PrintedLayout(scope, sig, dec, keyname);
    LayoutPieces(t, scope, sig, dec, keyname, p, q, r);
    ScanToKey(t, scope, sig, dec, keyname, p, q, r);
    ScopeScan(t, scope, |scope|);
    ScanStops(t, p);
    BehindScope(Scan(t, p), scope, p, q);
    ScopeReadMeans(scope);
    var k := FirstParted(scope, |scope|);
    if k >= 0 && (!Marker(scope, k, "sig=") || Spoilt(scope, k, |scope|)) {
      DoomedLasts(t, r + 5, |t|);
      DoomedRefused(t, now);
    } else {
      ReadOn(t, p, sig, q, expiry, r, keyname, Scan(t, r + 5), now);
    }
  }

  lemma ScopeReadMeans(s: string)
    ensures var k := FirstParted(s, |s|);
      && -1 <= k < |s|
      && (k >= 0 ==> Parted(s, k) && -1 <= ScopeStop(s, k) < |s|)
      && (ScopeRead(s) <==> if k < 0 then 25 + ScopeStart(s, |s|) < 24 + |s|
                            else Marker(s, k, "sig=") && ScopeStart(s, k) < ScopeStop(s, k) && !Spoilt(s, k, |s|))
  {
    hide Marker, Spoilt, FirstParted, ScopeStart;
  }

  lemma DoomedRefused(t: string, now: int)
    requires Doomed(Scan(t, |t|))
    ensures !Accepts(t, now)
  {
    hide Scan, Expiry, UpTo;
  }

  /** The rest of the token, from the expiry on. */
  lemma ReadOn(t: string, p: nat, sig: string, q: nat, expiry: nat, r: nat, keyname: string, f0: Fields, now: int)
    requires q == p + 5 + |sig| && |sig| >= 2 && r == q + 4 + |Decimal(expiry)| && p >= 25
    requires |t| == r + 5 + |keyname| && Holds(t, q + 4, Decimal(expiry)) && Holds(t, r, "&skn=") && Holds(t, r + 5, keyname)
    requires Scan(t, r + 5) == f0 == Fields(q + 4, -1, f0.srStart, f0.srStop, p + 5, q - 1) && f0.srStart > 0 && 0 <= f0.srStop < p
    ensures var e := EffectiveExpiry(keyname, expiry);
      Accepts(t, now) <==> f0.srStart < f0.srStop && !Occurs(keyname, "sr=", |keyname|) && !Occurs(keyname, "sig=", |keyname|)
                           && 1 <= e && now <= e
  {
    hide *;
    KeyScan(t, r + 5, keyname, f0, |keyname|);
    HoldsFits(t, r, "&skn=");
    HoldsAt(t, r, "&skn=", 0);
    assert t[q + 4 + |Decimal(expiry)|] == '&';
    ExpiryRead(t, q + 4, expiry, r + 5, keyname);
    Decided(t, f0, keyname, r + 5, now);
  }

  /** The decision on the fields behind the key name. */
  lemma Decided(t: string, f0: Fields, keyname: string, base: nat, now: int)
    requires |t| == base + |keyname| && InKey(Scan(t, |t|), f0, keyname, |keyname|, base) && f0.seStop == -1
    requires 0 < f0.seStart < |t| && 0 < f0.srStart && 0 < f0.sigStart < f0.sigStop && f0.srStop >= 0
    ensures var last := LastSe(keyname, |keyname|);
      var seStart := if last < 0 then f0.seStart else base + last + 3;
      seStart <= |t| && var e := Expiry(UpTo(t[seStart..], '&'));
      Accepts(t, now) <==> f0.srStart < f0.srStop && !Occurs(keyname, "sr=", |keyname|) && !Occurs(keyname, "sig=", |keyname|)
                           && 1 <= e && now <= e
  {
    hide Scan, Occurs, Expiry, UpTo, Marker, Accepts;
    LastSeFits(keyname, |keyname|);
    hide LastSe;
    if Occurs(keyname, "sr=", |keyname|) || Occurs(keyname, "sig=", |keyname|) {
      DoomedRefused(t, now);
    } else {
      AcceptsMeans(t, Scan(t, |t|), now);
    }
  }

  lemma AcceptsMeans(t: string, f: Fields, now: int)
    requires f == Scan(t, |t|) && f.seStop == -1 && 0 < f.seStart <= |t| && f.srStart >= 0 && f.sigStart >= 0
    requires f.srStop >= 0 && f.sigStop >= 0
    ensures var e := Expiry(UpTo(t[f.seStart..], '&'));
      Accepts(t, now) <==> f.srStart < f.srStop && f.sigStart < f.sigStop && 1 <= e && now <= e
  {
    hide Scan, Expiry, UpTo;
    NothingExpires();
    assert t[f.seStart..|t|] == t[f.seStart..];
    assert f.seStart == |t| ==> t[f.seStart..] == "";
  }

  lemma LastSeFits(s: string, n: nat)
    ensures LastSe(s, n) >= 0 ==> LastSe(s, n) + 3 <= |s|
  {
  }

  /** Without a marker in the key name it is the printed expiry that counts. */
  lemma PlainKeyName(keyname: string, expiry: nat)
    requires NoMarker(keyname)
    ensures EffectiveExpiry(keyname, expiry) == expiry
    ensures !Occurs(keyname, "sr=", |keyname|) && !Occurs(keyname, "sig=", |keyname|)
  {
    hide Marker;
  }

  /** Without a marker in the scope two characters are enough, and needed. */
  lemma PlainScope(s: string)
    requires NoMarker(s)
    ensures ScopeRead(s) <==> |s| >= 2
  {
    hide Marker;
    NothingParted(s, |s|);
  }

  lemma {:induction false} NothingParted(s: string, n: nat)
    requires NoMarker(s) && n <= |s|
    ensures FirstParted(s, n) == -1 && ScopeStart(s, n) == 0
  {
    hide Marker;
    if n > 0 {
      NothingParted(s, n - 1);
    }
  }

  lemma NothingExpires()
    ensures Expiry(UpTo("", '&')) == 0
  {
  }

  lemma PlainNumeral(n: nat)
    ensures '=' !in Decimal(n) && '&' !in Decimal(n)
  {
    forall i | 0 <= i < |Decimal(n)|
      ensures Decimal(n)[i] != '=' && Decimal(n)[i] != '&'
    {
      DecimalAt(n, i);
    }
  }

  /** The signature of a token has no reserved character left and at least two characters. */
  lemma SignaturePlain(key: seq<Base64.Byte>, scope: string, expiry: nat)
    requires IsText(scope)
    ensures var sig := UrlEncode.Encode(Signature(key, scope, expiry));
      '=' !in sig && |sig| >= 32
  {
    hide Base64.Encode, UrlEncode.IsPrintable, HmacSha.Hmac, ToBits, UrlEncode.PercentAll, ToBeHashed;
    EncodeText(Numbers(HmacSha.Hmac(SHA256, Bytes(key), ToBits(Bytes(Base64.TextBytes(ToBeHashed(scope, expiry)))))));
    EncodedPlain(Signature(key, scope, expiry));
  }

  /** No separator is left in an encoded text, and it is no shorter. */
  lemma EncodedPlain(s: string)
    requires IsText(s)
    ensures '=' !in UrlEncode.Encode(s) && '&' !in UrlEncode.Encode(s) && |UrlEncode.Encode(s)| >= |s|
  {
    hide UrlEncode.IsPrintable, UrlEncode.PercentAll;
    UrlEncode.PrintedIsEncode(s);
    UrlEncode.EncodedLength(s);
    var bytes := UrlEncode.Utf8All(s);
    UrlEncode.PercentNotPrintable();
    forall i | 0 <= i < |UrlEncode.PercentAll(bytes)|
      ensures UrlEncode.PercentAll(bytes)[i] != '=' && UrlEncode.PercentAll(bytes)[i] != '&'
    {
      UrlEncode.EncodedAlphabet(bytes, i);
    }
  }

  /** A created token, cut at its ampersands, is four parameters that hold what it was created from. */
  lemma CreatedParameters(key: seq<Base64.Byte>, scope: string, expiry: nat, keyname: string)
    requires IsText(scope) && '&' !in scope && '&' !in keyname
    ensures var sig := UrlEncode.Encode(Signature(key, scope, expiry));
      Parts(TokenText(scope, sig, Decimal(expiry), keyname), '&')
      == ["SharedAccessSignature sr=" + scope, "sig=" + sig, "se=" + Decimal(expiry), "skn=" + keyname]
  {
    hide UrlEncode.Encode, Signature, Parts, TokenText;
    EncodedPlain(Signature(key, scope, expiry));
    forall i | 0 <= i < |Decimal(expiry)|
      ensures Decimal(expiry)[i] != '&'
    {
      DecimalAt(expiry, i);
    }
    TokenParameters(scope, UrlEncode.Encode(Signature(key, scope, expiry)), Decimal(expiry), keyname);
  }

  /** The token of any key, scope, expiry and key name; without a marker in the scope and the key
      name it is accepted exactly until it expires, if the scope has two characters. */
  lemma CreatedAccepted(key: seq<Base64.Byte>, scope: string, expiry: nat, keyname: string, now: int)
    requires IsText(scope)
    ensures var accepted := Accepts(TokenText(scope, UrlEncode.Encode(Signature(key, scope, expiry)), Decimal(expiry), keyname), now);
      && (accepted <==> && ScopeRead(scope) && !Occurs(keyname, "sr=", |keyname|) && !Occurs(keyname, "sig=", |keyname|)
                        && 1 <= EffectiveExpiry(keyname, expiry) && now <= EffectiveExpiry(keyname, expiry))
      && (NoMarker(scope) && NoMarker(keyname) ==> (accepted <==> |scope| >= 2 && 1 <= expiry && now <= expiry))
  {
    hide Accepts, TokenText, Signature, UrlEncode.Encode, NoMarker, Decimal, Occurs, EffectiveExpiry, ScopeRead;
    SignaturePlain(key, scope, expiry);
    PrintedAccepted(scope, UrlEncode.Encode(Signature(key, scope, expiry)), expiry, keyname, now);
    if NoMarker(scope) && NoMarker(keyname) {
      PlainScope(scope);
      PlainKeyName(keyname, expiry);
    }
  }

  /** The key of a token survives base64: a well-formed key text decodes to exactly its bytes. */
  lemma KeyRoundTrip(bytes: seq<Base64.Byte>, decodedKey: seq<Base64.Byte>)
    requires var key := Base64.Encode(bytes);
      |key| % 4 == 0 && |decodedKey| == Base64.DecodeLength(key) && Base64.Decode(key[..Base64.PrefixLength(key)]) <= decodedKey
    ensures decodedKey == bytes
  {
    hide Base64.Encode, Base64.Decode, Base64.DecodeLength, Base64.PrefixLength;
    Base64.DecodeEncode(bytes);
  }
}
