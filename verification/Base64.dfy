/** Base64 encoding and decoding (base64.c), against section 4 of RFC 4648.
    Bytes are numbers below 256; the shifts and masks of unsigned characters are written as
    divisions and remainders. */
module Base64 {
  import opened Bits
  import opened CrtAbstractions
  import opened Wrappers
  import Arithmetic

  type Byte = n: nat | n < 256

  /** base64char. */
  function Base64Char(val: nat): char
    requires val < 256
  {
    if val < 26 then (65 + val) as char
    else if val < 52 then (97 + val - 26) as char
    else if val < 62 then (48 + val - 52) as char
    else if val == 62 then '+'
    else '/'
  }

  /** joinChars: four characters packed in a word, the first in the lowest byte. */
  function JoinChars(a: char, b: char, c: char, d: char): nat {
    (a as int + 0x100 * b as int + 0x10000 * c as int + 0x1000000 * d as int) % 0x1_0000_0000
  }

  /** splitInt: the character in byte `pos` of a word. */
  function SplitInt(word: nat, pos: nat): char
    requires pos < 4
  {
    (if pos == 0 then word % 256 else if pos == 1 then word / 0x100 % 256
     else if pos == 2 then word / 0x10000 % 256 else word / 0x1000000 % 256) as char
  }

  /** base64b16. */
  function Base64B16(val: nat): char
    requires val < 16
  {
    var words := [JoinChars('A', 'E', 'I', 'M'), JoinChars('Q', 'U', 'Y', 'c'),
                  JoinChars('g', 'k', 'o', 's'), JoinChars('w', '0', '4', '8')];
    SplitInt(words[val / 4], val % 4)
  }

  /** base64b8. */
  function Base64B8(val: nat): char
    requires val < 4
  {
    SplitInt(JoinChars('A', 'Q', 'g', 'w'), val)
  }

  lemma JoinSplit(a: char, b: char, c: char, d: char, pos: nat)
    requires a as int < 256 && b as int < 256 && c as int < 256 && d as int < 256 && pos < 4
    ensures SplitInt(JoinChars(a, b, c, d), pos) == [a, b, c, d][pos]
  {
    Arithmetic.UnpackFour(a as int, b as int, c as int, d as int);
  }

  /** The packed tables hold the characters of the values shifted to the top of a sextet. */
  lemma PackedB16(v: nat)
    requires v < 16
    ensures Base64B16(v) == Base64Char(4 * v)
  {
    hide SplitInt, JoinChars;
    JoinSplit('A', 'E', 'I', 'M', v % 4);
    JoinSplit('Q', 'U', 'Y', 'c', v % 4);
    JoinSplit('g', 'k', 'o', 's', v % 4);
    JoinSplit('w', '0', '4', '8', v % 4);
  }

  lemma PackedB8(v: nat)
    requires v < 4
    ensures Base64B8(v) == Base64Char(16 * v)
  {
    hide SplitInt, JoinChars;
    JoinSplit('A', 'Q', 'g', 'w', v);
  }

  /** base64toValue; None stands for the result -1. */
  function Base64ToValue(c: char): (r: Option<nat>)
    ensures r.Some? ==> r.value < 64
  {
    if 'A' <= c <= 'Z' then Some(c as int - 65)
    else if 'a' <= c <= 'z' then Some(c as int - 97 + 26)
    else if '0' <= c <= '9' then Some(c as int - 48 + 52)
    else if c == '+' then Some(62)
    else if c == '/' then Some(63)
    else None
  }

  lemma CharRoundTrip(v: nat)
    requires v < 64
    ensures Base64ToValue(Base64Char(v)) == Some(v)
  {
  }

  /** Table 1 of RFC 4648. */
  function Table1(v: nat): char
    requires v < 64
  {
    if v < 16 then "ABCDEFGHIJKLMNOP"[v]
    else if v < 32 then "QRSTUVWXYZabcdef"[v - 16]
    else if v < 48 then "ghijklmnopqrstuv"[v - 32]
    else "wxyz0123456789+/"[v - 48]
  }

  lemma Alphabet(v: nat)
    requires v < 64
    ensures Base64Char(v) == Table1(v) && Base64ToValue(Table1(v)) == Some(v)
  {
    hide Base64ToValue;
    CharRoundTrip(v);
  }

  predicate IsBase64(s: string) {
    forall i :: 0 <= i < |s| ==> Base64ToValue(s[i]).Some?
  }

  // ---- encoding ----

  function TextBytes(s: string): (r: seq<Byte>)
    requires IsText(s)
    ensures |r| == |s|
  {
    seq(|s|, i requires 0 <= i < |s| => s[i] as int)
  }

  /** The sextets of a whole group of three bytes, and of a last group of two or one. */
  function Group3(a: Byte, b: Byte, c: Byte): (v: seq<nat>)
    ensures |v| == 4 && forall i :: 0 <= i < 4 ==> v[i] < 64
  {
    [a / 4, a % 4 * 16 + b / 16, b % 16 * 4 + c / 64, c % 64]
  }

  function Chars(v: seq<nat>): (r: string)
    requires forall i :: 0 <= i < |v| ==> v[i] < 64
    ensures |r| == |v|
  {
    seq(|v|, i requires 0 <= i < |v| => Base64Char(v[i]))
  }

  function Encode(s: seq<Byte>): string {
    if |s| == 0 then ""
    else if |s| == 1 then Chars(Group3(s[0], 0, 0)[..2]) + "=="
    else if |s| == 2 then Chars(Group3(s[0], s[1], 0)[..3]) + "="
    else Chars(Group3(s[0], s[1], s[2])) + Encode(s[3..])
  }

  lemma {:induction false} EncodeLength(s: seq<Byte>)
    ensures |Encode(s)| == (|s| + 2) / 3 * 4
  {
    hide Chars;
    if |s| >= 3 {
      EncodeLength(s[3..]);
    }
  }

  lemma EncodeGroup(s: seq<Byte>, i: nat)
    requires i + 3 <= |s|
    ensures var a, b, c := s[i], s[i + 1], s[i + 2];
      Encode(s[i..]) == [Base64Char(a / 4), Base64Char(a % 4 * 16 + b / 16), Base64Char(b % 16 * 4 + c / 64 % 4), Base64Char(c % 64)]
                        + Encode(s[i + 3..])
  {
    hide Base64Char;
    var a, b, c := s[i], s[i + 1], s[i + 2];
    assert c / 64 % 4 == c / 64;
    assert s[i..][3..] == s[i + 3..];
    assert Chars(Group3(a, b, c)) == [Base64Char(a / 4), Base64Char(a % 4 * 16 + b / 16), Base64Char(b % 16 * 4 + c / 64), Base64Char(c % 64)];
  }

  method Put(encoded: array<char>, at: nat, c1: char, c2: char, c3: char, c4: char)
    requires at + 4 <= encoded.Length
    modifies encoded
    ensures encoded[..at + 4] == old(encoded[..at]) + [c1, c2, c3, c4]
  {
    encoded[at], encoded[at + 1], encoded[at + 2], encoded[at + 3] := c1, c2, c3, c4;
  }

  /** Base64_Encode_Internal: the buffer is filled to its last place. */
  method Base64EncodeInternal(source: seq<Byte>) returns (result: string)
    ensures result == Encode(source)
  {
    hide Encode, Base64Char, Base64B16, Base64B8, Group3, Chars;
    var size := |source|;
    var neededSize := (if size == 0 then 0 else ((size - 1) / 3 + 1) * 4) + 1;
    var encoded := new char[neededSize];
    var currentPosition, destinationPosition := 0, 0;
    assert neededSize == |Encode(source)| + 1 by {
      EncodeLength(source);
    }
    assert source[0..] == source;
    while size - currentPosition >= 3
      invariant 0 <= currentPosition <= size
      invariant destinationPosition * 3 == currentPosition * 4
      invariant destinationPosition + |Encode(source[currentPosition..])| + 1 == neededSize
      invariant encoded[..destinationPosition] + Encode(source[currentPosition..]) == Encode(source)
    {
      EncodeGroup(source, currentPosition);
      var a, b, c := source[currentPosition], source[currentPosition + 1], source[currentPosition + 2];
      currentPosition := currentPosition + 3;
      Put(encoded, destinationPosition,
          Base64Char(a / 4), Base64Char(a % 4 * 16 + b / 16), Base64Char(b % 16 * 4 + c / 64 % 4), Base64Char(c % 64));
      destinationPosition := destinationPosition + 4;
    }
    if size - currentPosition == 2 {
      var a, b := source[currentPosition], source[currentPosition + 1];
      EncodeTwo(a, b);
      assert source[currentPosition..] == [a, b];
      Put(encoded, destinationPosition, Base64Char(a / 4), Base64Char(a % 4 * 16 + b / 16), Base64B16(b % 16), '=');
      destinationPosition := destinationPosition + 4;
    } else if size - currentPosition == 1 {
      var a := source[currentPosition];
      EncodeOne(a);
      assert source[currentPosition..] == [a];
      Put(encoded, destinationPosition, Base64Char(a / 4), Base64B8(a % 4), '=', '=');
      destinationPosition := destinationPosition + 4;
    } else {
      assert source[currentPosition..] == [];
      EncodeNone();
    }
    encoded[destinationPosition] := '\0';
    result := encoded[..destinationPosition];
  }

  lemma Chars2(a: nat, b: nat)
    requires a < 64 && b < 64
    ensures Chars([a, b]) == [Base64Char(a), Base64Char(b)]
  {
    hide Base64Char;
  }

  lemma Chars3(a: nat, b: nat, c: nat)
    requires a < 64 && b < 64 && c < 64
    ensures Chars([a, b, c]) == [Base64Char(a), Base64Char(b), Base64Char(c)]
  {
    hide Base64Char;
  }

  lemma EncodeNone()
    ensures Encode([]) == ""
  {
  }

  lemma EncodeOne(a: Byte)
    ensures Encode([a]) == [Base64Char(a / 4), Base64B8(a % 4), '=', '=']
  {
    hide Base64B8, Base64Char, Chars;
    PackedB8(a % 4);
    Chars2(a / 4, 16 * (a % 4));
    assert Group3(a, 0, 0)[..2] == [a / 4, 16 * (a % 4)];
  }

  lemma EncodeTwo(a: Byte, b: Byte)
    ensures Encode([a, b]) == [Base64Char(a / 4), Base64Char(a % 4 * 16 + b / 16), Base64B16(b % 16), '=']
  {
    hide Base64B16, Base64Char, Chars;
    PackedB16(b % 16);
    Chars3(a / 4, a % 4 * 16 + b / 16, 4 * (b % 16));
    assert Group3(a, b, 0)[..3] == [a / 4, a % 4 * 16 + b / 16, 4 * (b % 16)];
  }

  // ---- decoding ----

  /** Characters before the first one outside the alphabet. */
  function PrefixLength(s: string): (n: nat)
    ensures n <= |s| && forall i :: 0 <= i < n ==> Base64ToValue(s[i]).Some?
    ensures n < |s| ==> Base64ToValue(s[n]).None?
  {
    if s == [] || Base64ToValue(s[0]).None? then 0
    else
      assert forall i :: 1 <= i < |s| ==> s[i] == s[1..][i - 1];
      1 + PrefixLength(s[1..])
  }

  function Value(c: char): (v: nat)
    ensures v < 64
  {
    match Base64ToValue(c)
    case None => 0
    case Some(v) => v
  }

  /** The bytes of two, three or four encoded characters. */
  function Byte1(c1: char, c2: char): Byte { Value(c1) * 4 + Value(c2) / 16 }

  function Byte2(c2: char, c3: char): Byte { Value(c2) % 16 * 16 + Value(c3) / 4 }

  function Byte3(c3: char, c4: char): Byte { Value(c3) % 4 * 64 + Value(c4) }

  function Decode(p: string): seq<Byte> {
    if |p| >= 4 then [Byte1(p[0], p[1]), Byte2(p[1], p[2]), Byte3(p[2], p[3])] + Decode(p[4..])
    else if |p| == 3 then [Byte1(p[0], p[1]), Byte2(p[1], p[2])]
    else if |p| == 2 then [Byte1(p[0], p[1])]
    else []
  }

  /** Base64decode_len. */
  function DecodeLength(s: string): nat
    requires |s| % 4 == 0
  {
    if s == [] then 0
    else if s[|s| - 1] == '=' then (if s[|s| - 2] == '=' then |s| / 4 * 3 - 2 else |s| / 4 * 3 - 1)
    else |s| / 4 * 3
  }

  lemma {:induction false} DecodedLength(p: string)
    ensures |Decode(p)| == |p| / 4 * 3 + (if |p| % 4 == 2 then 1 else if |p| % 4 == 3 then 2 else 0)
  {
    if |p| >= 4 {
      DecodedLength(p[4..]);
    }
  }

  /** What is decoded fits in what was allocated, also for malformed input. */
  lemma DecodeFits(s: string)
    requires |s| % 4 == 0
    ensures |Decode(s[..PrefixLength(s)])| <= DecodeLength(s)
  {
    hide Decode;
    DecodedLength(s[..PrefixLength(s)]);
    if s != [] && s[|s| - 1] == '=' {
      assert PrefixLength(s) <= |s| - 1;
      if s[|s| - 2] == '=' {
        assert PrefixLength(s) <= |s| - 2;
      }
    }
  }

  /** numberOfBase64Characters. */
  method NumberOfBase64Characters(s: string) returns (length: nat)
    ensures length == PrefixLength(s)
  {
    length := 0;
    assert s[0..] == s;
    while length < |s| && Base64ToValue(s[length]).Some?
      invariant 0 <= length <= |s|
      invariant PrefixLength(s) == length + PrefixLength(s[length..])
    {
      assert s[length..][1..] == s[length + 1..];
      length := length + 1;
    }
  }

  /** Base64decode: every write is inside the buffer that Base64decode_len sized. */
  method Base64Decode(decodedString: array<Byte>, s: string)
    requires |s| % 4 == 0 && decodedString.Length == DecodeLength(s)
    modifies decodedString
    ensures var d := Decode(s[..PrefixLength(s)]);
      |d| <= decodedString.Length && decodedString[..] == d + old(decodedString[|d|..])
  {
    hide Byte1, Byte2, Byte3, Base64ToValue, Decode;
    var n := NumberOfBase64Characters(s);
    DecodeFits(s);
    hide DecodeLength, PrefixLength;
    ghost var d := Decode(s[..n]);
    ghost var rest := decodedString[|d|..];
    var first, decodedIndex := DecodeGroups(decodedString, s, n);
    DecodeRest(s, first, n);
    if n - first == 2 {
      decodedString[decodedIndex] := Byte1(s[first], s[first + 1]);
    } else if n - first == 3 {
      decodedString[decodedIndex] := Byte1(s[first], s[first + 1]);
      decodedIndex := decodedIndex + 1;
      decodedString[decodedIndex] := Byte2(s[first + 1], s[first + 2]);
    }
    assert decodedString[..|d|] == d && decodedString[|d|..] == rest;
  }

  /** The loop over the whole groups of four characters. */
  method DecodeGroups(decodedString: array<Byte>, s: string, n: nat) returns (first: nat, decodedIndex: nat)
    requires n <= |s| && |Decode(s[..n])| <= decodedString.Length
    modifies decodedString
    ensures first <= n < first + 4 && decodedIndex + |Decode(s[first..n])| == |Decode(s[..n])|
    ensures decodedString[..decodedIndex] + Decode(s[first..n]) == Decode(s[..n])
    ensures decodedString[|Decode(s[..n])|..] == old(decodedString[|Decode(s[..n])|..])
  {
    hide Byte1, Byte2, Byte3, Decode;
    ghost var d := Decode(s[..n]);
    var numberOfEncodedChars := n;
    first, decodedIndex := 0, 0;
    assert s[0..n] == s[..n];
    while numberOfEncodedChars >= 4
      invariant first + numberOfEncodedChars == n
      invariant decodedIndex + |Decode(s[first..n])| == |d|
      invariant decodedString[..decodedIndex] + Decode(s[first..n]) == d
      invariant decodedString[|d|..] == old(decodedString[|d|..])
    {
      DecodeGroup(s, first, n);
      Put3(decodedString, decodedIndex,
           Byte1(s[first], s[first + 1]), Byte2(s[first + 1], s[first + 2]), Byte3(s[first + 2], s[first + 3]));
      decodedIndex := decodedIndex + 3;
      numberOfEncodedChars := numberOfEncodedChars - 4;
      first := first + 4;
    }
  }

  method Put3(a: array<Byte>, at: nat, b1: Byte, b2: Byte, b3: Byte)
    requires at + 3 <= a.Length
    modifies a
    ensures a[..at + 3] == old(a[..at]) + [b1, b2, b3] && a[at + 3..] == old(a[at + 3..])
  {
    a[at], a[at + 1], a[at + 2] := b1, b2, b3;
  }

  lemma DecodeGroup(s: string, i: nat, n: nat)
    requires i + 4 <= n <= |s|
    ensures Decode(s[i..n]) == [Byte1(s[i], s[i + 1]), Byte2(s[i + 1], s[i + 2]), Byte3(s[i + 2], s[i + 3])] + Decode(s[i + 4..n])
  {
    hide Byte1, Byte2, Byte3;
    assert s[i..n][4..] == s[i + 4..n];
  }

  lemma DecodeRest(s: string, i: nat, n: nat)
    requires i <= n < i + 4 && n <= |s|
    ensures Decode(s[i..n]) == if n == i + 3 then [Byte1(s[i], s[i + 1]), Byte2(s[i + 1], s[i + 2])]
                               else if n == i + 2 then [Byte1(s[i], s[i + 1])] else []
  {
    hide Byte1, Byte2, Byte3;
  }

  /** Base64_Decoder: fails exactly on a length that is no multiple of four. Bytes past the
      decoded ones keep whatever the allocation held. */
  method Base64Decoder(source: string) returns (ok: bool, buffer: seq<Byte>)
    ensures ok == (|source| % 4 == 0)
    ensures ok ==> |buffer| == DecodeLength(source) && Decode(source[..PrefixLength(source)]) <= buffer
  {
    if |source| % 4 != 0 {
      return false, [];
    }
    var decoded := new Byte[DecodeLength(source)];
    Base64Decode(decoded, source);
    ok, buffer := true, decoded[..];
  }

  // ---- round trip ----

  lemma GroupRoundTrip(a: Byte, b: Byte, c: Byte)
    ensures var g := Chars(Group3(a, b, c));
      Byte1(g[0], g[1]) == a && Byte2(g[1], g[2]) == b && Byte3(g[2], g[3]) == c
  {
    hide Base64Char, Base64ToValue;
    var v := Group3(a, b, c);
    CharRoundTrip(v[0]);
    CharRoundTrip(v[1]);
    CharRoundTrip(v[2]);
    CharRoundTrip(v[3]);
  }

  lemma CharsAreBase64(v: seq<nat>)
    requires forall i :: 0 <= i < |v| ==> v[i] < 64
    ensures IsBase64(Chars(v))
  {
    hide Base64Char, Base64ToValue;
    forall i | 0 <= i < |v|
      ensures Base64ToValue(Chars(v)[i]).Some?
    {
      CharRoundTrip(v[i]);
    }
  }

  lemma {:induction false} PrefixOfConcat(p: string, s: string)
    requires IsBase64(p)
    ensures PrefixLength(p + s) == |p| + PrefixLength(s)
  {
    hide Base64ToValue;
    if p == [] {
      assert p + s == s;
    } else {
      assert (p + s)[1..] == p[1..] + s;
      PrefixOfConcat(p[1..], s);
    }
  }

  /** The characters of an encoding before its "=" signs. */
  function Body(s: seq<Byte>): string {
    if |s| == 0 then ""
    else if |s| == 1 then Chars(Group3(s[0], 0, 0)[..2])
    else if |s| == 2 then Chars(Group3(s[0], s[1], 0)[..3])
    else Chars(Group3(s[0], s[1], s[2])) + Body(s[3..])
  }

  function EqualSigns(n: nat): string {
    if n % 3 == 1 then "==" else if n % 3 == 2 then "=" else ""
  }

  lemma {:induction false} EncodeIsBody(s: seq<Byte>)
    ensures Encode(s) == Body(s) + EqualSigns(|s|)
  {
    hide Chars, Group3;
    if |s| >= 3 {
      EncodeIsBody(s[3..]);
    }
  }

  lemma {:induction false} BodyIsBase64(s: seq<Byte>)
    ensures IsBase64(Body(s))
  {
    hide Chars, Group3, Base64ToValue;
    if |s| == 1 {
      CharsAreBase64(Group3(s[0], 0, 0)[..2]);
    } else if |s| == 2 {
      CharsAreBase64(Group3(s[0], s[1], 0)[..3]);
    } else if |s| >= 3 {
      CharsAreBase64(Group3(s[0], s[1], s[2]));
      BodyIsBase64(s[3..]);
    }
  }

  lemma {:induction false} DecodeBody(s: seq<Byte>)
    ensures Decode(Body(s)) == s
  {
    hide Byte1, Byte2, Byte3, Group3;
    if |s| == 1 {
      GroupRoundTrip(s[0], 0, 0);
    } else if |s| == 2 {
      GroupRoundTrip(s[0], s[1], 0);
    } else if |s| >= 3 {
      GroupRoundTrip(s[0], s[1], s[2]);
      DecodeBody(s[3..]);
      assert Body(s)[4..] == Body(s[3..]);
    }
  }

  lemma NoEqualSign(v: nat)
    requires v < 64
    ensures Base64Char(v) != '='
  {
  }

  lemma DecodeLengthConcat(p: string, s: string)
    requires |p| == 4 && |s| % 4 == 0 && |s| > 0
    ensures |p + s| % 4 == 0 && DecodeLength(p + s) == 3 + DecodeLength(s)
  {
    var t := p + s;
    assert t[|t| - 1] == s[|s| - 1] && t[|t| - 2] == s[|s| - 2];
    assert |t| / 4 == |s| / 4 + 1;
  }

  lemma CharsPlain(v: seq<nat>)
    requires |v| > 0 && forall i :: 0 <= i < |v| ==> v[i] < 64
    ensures Chars(v)[|v| - 1] != '='
  {
    hide Base64Char;
    NoEqualSign(v[|v| - 1]);
  }

  lemma {:induction false} DecodeLengthOfEncode(s: seq<Byte>)
    ensures |Encode(s)| % 4 == 0 && DecodeLength(Encode(s)) == |s|
  {
    hide Chars, Group3;
    if |s| == 1 {
      assert Encode(s) == Chars(Group3(s[0], 0, 0)[..2]) + "==";
    } else if |s| == 2 {
      CharsPlain(Group3(s[0], s[1], 0)[..3]);
    } else if |s| == 3 {
      CharsPlain(Group3(s[0], s[1], s[2]));
      assert Encode(s) == Chars(Group3(s[0], s[1], s[2]));
    } else if |s| > 3 {
      hide DecodeLength;
      EncodeLength(s[3..]);
      DecodeLengthOfEncode(s[3..]);
      DecodeLengthConcat(Chars(Group3(s[0], s[1], s[2])), Encode(s[3..]));
    }
  }

  /** Decoding undoes encoding, and the decoder allocates exactly the encoded length. */
  lemma DecodeEncode(s: seq<Byte>)
    ensures Decode(Encode(s)[..PrefixLength(Encode(s))]) == s
    ensures |Encode(s)| % 4 == 0 && DecodeLength(Encode(s)) == |s|
  {
    hide Decode, Encode, Body, Base64ToValue, DecodeLength;
    DecodeLengthOfEncode(s);
    EncodeIsBody(s);
    BodyIsBase64(s);
    DecodeBody(s);
    PrefixOfConcat(Body(s), EqualSigns(|s|));
    PrefixOfEqualSigns(|s|);
    assert Encode(s)[..|Body(s)|] == Body(s);
  }

  lemma PrefixOfEqualSigns(n: nat)
    ensures PrefixLength(EqualSigns(n)) == 0
  {
  }

  /** An encoded text holds characters of the alphabet, and equal signs. */
  lemma {:induction false} EncodeAlphabet(s: seq<Byte>)
    ensures forall c :: c in Encode(s) ==> c == '=' || Base64ToValue(c).Some?
  {
    hide Base64ToValue, Group3, Chars;
    if |s| == 1 {
      CharsAlphabet(Group3(s[0], 0, 0)[..2]);
    } else if |s| == 2 {
      CharsAlphabet(Group3(s[0], s[1], 0)[..3]);
    } else if |s| >= 3 {
      CharsAlphabet(Group3(s[0], s[1], s[2]));
      EncodeAlphabet(s[3..]);
    }
  }

  lemma CharsAlphabet(v: seq<nat>)
    requires forall i :: 0 <= i < |v| ==> v[i] < 64
    ensures forall c :: c in Chars(v) ==> Base64ToValue(c).Some?
  {
    hide Base64ToValue, Base64Char;
    forall i | 0 <= i < |v|
      ensures Base64ToValue(Chars(v)[i]).Some?
    {
      CharRoundTrip(v[i]);
    }
  }

  // ---- section 4 of RFC 4648 ----

  function ByteBits(s: seq<Byte>): (r: seq<bool>)
    ensures |r| == 8 * |s|
  {
    if s == [] then [] else NatBits(s[0], 8) + ByteBits(s[1..])
  }

  function SextetBits(p: string): (r: seq<bool>)
    ensures |r| == 6 * |p|
  {
    if p == "" then [] else NatBits(Value(p[0]), 6) + SextetBits(p[1..])
  }

  /** Zero bits added to fill the last sextet. */
  function FillBits(n: nat): nat {
    if n % 3 == 1 then 4 else if n % 3 == 2 then 2 else 0
  }

  lemma GroupBits(a: Byte, b: Byte, c: Byte)
    ensures var v := Group3(a, b, c);
      NatBits(v[0], 6) + NatBits(v[1], 6) + NatBits(v[2], 6) + NatBits(v[3], 6) == NatBits(a, 8) + NatBits(b, 8) + NatBits(c, 8)
  {
    hide NatBits, Group3;
    var v0, v1, v2, v3 := a / 4, a % 4 * 16 + b / 16, b % 16 * 4 + c / 64, c % 64;
    assert Group3(a, b, c) == [v0, v1, v2, v3] by {
      GroupValues(a, b, c);
    }
    Arithmetic.SameNumber(a, b, c);
    SplitSextet(64 * (64 * v0 + v1) + v2, v3, 18);
    SplitSextet(64 * v0 + v1, v2, 12);
    SplitSextet(v0, v1, 6);
    SplitOctet(256 * a + b, c, 16);
    SplitOctet(a, b, 8);
  }

  lemma GroupValues(a: Byte, b: Byte, c: Byte)
    ensures Group3(a, b, c) == [a / 4, a % 4 * 16 + b / 16, b % 16 * 4 + c / 64, c % 64]
  {
  }

  /** The encoded characters carry exactly the bits of the input, followed by zero bits that
      fill the last sextet. */
  lemma {:induction false} EncodeCarriesBits(s: seq<Byte>)
    ensures SextetBits(Body(s)) == ByteBits(s) + Fill(false, FillBits(|s|))
  {
    hide NatBits, Chars, Group3, ByteBits, SextetBits, Fill;
    if |s| == 0 {
      NoBits();
    } else if |s| == 1 {
      CarryOne(s[0]);
      assert s == [s[0]];
    } else if |s| == 2 {
      CarryTwo(s[0], s[1]);
      assert s == [s[0], s[1]];
    } else {
      EncodeCarriesBits(s[3..]);
      CarryMore(s[0], s[1], s[2], s[3..], Body(s[3..]), FillBits(|s|));
      assert s == [s[0], s[1], s[2]] + s[3..];
    }
  }

  lemma CarryMore(a: Byte, b: Byte, c: Byte, rest: seq<Byte>, body: string, fill: nat)
    requires SextetBits(body) == ByteBits(rest) + Fill(false, fill)
    ensures SextetBits(Chars(Group3(a, b, c)) + body) == ByteBits([a, b, c] + rest) + Fill(false, fill)
  {
    hide *;
    CarryGroup(a, b, c);
    SextetBitsConcat(Chars(Group3(a, b, c)), body);
    ByteBitsConcat([a, b, c], rest);
  }

  lemma NoBits()
    ensures SextetBits("") == [] && ByteBits([]) == [] && Fill(false, 0) == []
  {
  }

  lemma {:induction false} SextetBitsConcat(p: string, q: string)
    ensures SextetBits(p + q) == SextetBits(p) + SextetBits(q)
  {
    if p == "" {
      assert p + q == q;
    } else {
      assert (p + q)[1..] == p[1..] + q;
      SextetBitsConcat(p[1..], q);
    }
  }

  lemma {:induction false} ByteBitsConcat(p: seq<Byte>, q: seq<Byte>)
    ensures ByteBits(p + q) == ByteBits(p) + ByteBits(q)
  {
    if p == [] {
      assert p + q == q;
    } else {
      assert (p + q)[1..] == p[1..] + q;
      ByteBitsConcat(p[1..], q);
    }
  }

  function ValueBits(v: seq<nat>): seq<bool> {
    if v == [] then [] else NatBits(v[0], 6) + ValueBits(v[1..])
  }

  lemma {:induction false} SextetBitsOfChars(v: seq<nat>)
    requires forall i :: 0 <= i < |v| ==> v[i] < 64
    ensures SextetBits(Chars(v)) == ValueBits(v)
  {
    hide NatBits, Base64Char, Base64ToValue;
    if v != [] {
      CharRoundTrip(v[0]);
      SextetBitsOfChars(v[1..]);
      assert Chars(v)[1..] == Chars(v[1..]);
    }
  }

  lemma ValueBitsOne(v: nat)
    ensures ValueBits([v]) == NatBits(v, 6)
  {
    hide NatBits;
    assert ValueBits([v][1..]) == [];
    assert NatBits(v, 6) + [] == NatBits(v, 6);
  }

  lemma ValueBitsCons(v: nat, rest: seq<nat>)
    ensures ValueBits([v] + rest) == NatBits(v, 6) + ValueBits(rest)
  {
    hide NatBits;
    assert ([v] + rest)[1..] == rest;
  }

  lemma ValueBitsTwo(v0: nat, v1: nat)
    ensures ValueBits([v0, v1]) == NatBits(v0, 6) + NatBits(v1, 6)
  {
    hide *;
    ValueBitsOne(v1);
    ValueBitsCons(v0, [v1]);
    assert [v0, v1] == [v0] + [v1];
  }

  lemma ValueBitsThree(v0: nat, v1: nat, v2: nat)
    ensures ValueBits([v0, v1, v2]) == NatBits(v0, 6) + NatBits(v1, 6) + NatBits(v2, 6)
  {
    hide *;
    ValueBitsTwo(v1, v2);
    ValueBitsCons(v0, [v1, v2]);
    assert [v0, v1, v2] == [v0] + [v1, v2];
    assert NatBits(v0, 6) + (NatBits(v1, 6) + NatBits(v2, 6)) == NatBits(v0, 6) + NatBits(v1, 6) + NatBits(v2, 6);
  }

  lemma UnfoldBits(v0: nat, v1: nat, v2: nat, v3: nat)
    ensures ValueBits([v0, v1]) == NatBits(v0, 6) + NatBits(v1, 6)
    ensures ValueBits([v0, v1, v2]) == NatBits(v0, 6) + NatBits(v1, 6) + NatBits(v2, 6)
    ensures ValueBits([v0, v1, v2, v3]) == NatBits(v0, 6) + NatBits(v1, 6) + NatBits(v2, 6) + NatBits(v3, 6)
  {
    hide *;
    ValueBitsTwo(v0, v1);
    ValueBitsThree(v0, v1, v2);
    ValueBitsThree(v1, v2, v3);
    ValueBitsCons(v0, [v1, v2, v3]);
    assert [v0, v1, v2, v3] == [v0] + [v1, v2, v3];
    var a, b, c, d := NatBits(v0, 6), NatBits(v1, 6), NatBits(v2, 6), NatBits(v3, 6);
    assert a + (b + c + d) == a + b + c + d;
  }

  lemma ByteBitsCons(b: Byte, rest: seq<Byte>)
    ensures ByteBits([b] + rest) == NatBits(b, 8) + ByteBits(rest)
  {
    hide NatBits;
    assert ([b] + rest)[1..] == rest;
  }

  lemma ByteBitsOne(b: Byte)
    ensures ByteBits([b]) == NatBits(b, 8)
  {
    hide NatBits;
    assert ByteBits([b][1..]) == [];
    assert NatBits(b, 8) + [] == NatBits(b, 8);
  }

  lemma UnfoldBytes(a: Byte, b: Byte, c: Byte)
    ensures ByteBits([a]) == NatBits(a, 8)
    ensures ByteBits([a, b]) == NatBits(a, 8) + NatBits(b, 8)
    ensures ByteBits([a, b, c]) == NatBits(a, 8) + NatBits(b, 8) + NatBits(c, 8)
  {
    hide *;
    ByteBitsOne(a);
    ByteBitsOne(b);
    ByteBitsOne(c);
    ByteBitsCons(a, [b]);
    ByteBitsCons(b, [c]);
    ByteBitsCons(a, [b, c]);
    assert [a, b] == [a] + [b] && [b, c] == [b] + [c] && [a, b, c] == [a] + [b, c];
    var x, y, z := NatBits(a, 8), NatBits(b, 8), NatBits(c, 8);
    assert x + (y + z) == x + y + z;
  }

  lemma CarryGroup(a: Byte, b: Byte, c: Byte)
    ensures SextetBits(Chars(Group3(a, b, c))) == ByteBits([a, b, c])
  {
    hide *;
    var v := Group3(a, b, c);
    assert v == [v[0], v[1], v[2], v[3]];
    SextetBitsOfChars(v);
    UnfoldBits(v[0], v[1], v[2], v[3]);
    GroupBits(a, b, c);
    UnfoldBytes(a, b, c);
  }

  lemma CarryTwo(a: Byte, b: Byte)
    ensures SextetBits(Chars(Group3(a, b, 0)[..3])) == ByteBits([a, b]) + Fill(false, 2)
  {
    hide *;
    var v := Group3(a, b, 0);
    var v0, v1, v2 := v[0], v[1], v[2];
    assert v[..3] == [v0, v1, v2];
    SextetBitsOfChars(v[..3]);
    UnfoldBits(v0, v1, v2, v[3]);
    UnfoldBytes(a, b, 0);
    GroupBits(a, b, 0);
    LastZero(a, b);
    CutTail(NatBits(v0, 6) + NatBits(v1, 6) + NatBits(v2, 6), NatBits(a, 8) + NatBits(b, 8), 6, 2);
  }

  lemma CarryOne(a: Byte)
    ensures SextetBits(Chars(Group3(a, 0, 0)[..2])) == ByteBits([a]) + Fill(false, 4)
  {
    hide *;
    var v := Group3(a, 0, 0);
    var v0, v1 := v[0], v[1];
    assert v[..2] == [v0, v1];
    SextetBitsOfChars(v[..2]);
    UnfoldBits(v0, v1, v[2], v[3]);
    UnfoldBytes(a, 0, 0);
    GroupBits(a, 0, 0);
    LastZero(a, 0);
    LastTwoZero(a);
    assert NatBits(v0, 6) + NatBits(v1, 6) + Fill(false, 6) + Fill(false, 6) == NatBits(v0, 6) + NatBits(v1, 6) + Fill(false, 12);
    assert NatBits(a, 8) + Fill(false, 8) + Fill(false, 8) == NatBits(a, 8) + Fill(false, 16);
    CutTail(NatBits(v0, 6) + NatBits(v1, 6), NatBits(a, 8), 12, 4);
  }

  lemma LastZero(a: Byte, b: Byte)
    ensures NatBits(Group3(a, b, 0)[3], 6) == Fill(false, 6) && NatBits(0, 8) == Fill(false, 8)
  {
    ZeroNumber(6);
    ZeroNumber(8);
  }

  lemma LastTwoZero(a: Byte)
    ensures NatBits(Group3(a, 0, 0)[2], 6) == Fill(false, 6)
  {
    ZeroNumber(6);
  }

  lemma {:induction false} ZeroNumber(w: nat)
    ensures NatBits(0, w) == Fill(false, w)
  {
    if w > 0 {
      ZeroNumber(w - 1);
    }
  }

  lemma CutTail(x: seq<bool>, y: seq<bool>, n: nat, m: nat)
    requires x + Fill(false, n) == y + Fill(false, n + m) && |x| == |y| + m
    ensures x == y + Fill(false, m)
  {
    assert (x + Fill(false, n))[..|x|] == x;
    assert (y + Fill(false, n + m))[..|x|] == y + Fill(false, m);
  }
}
