/** URL encoding (urlencode.c): percent-encoding (section 2.1 of RFC 3986) of the UTF-8 form of
    the text, each input character being one code point below 256. */
module UrlEncode {

  import opened CrtAbstractions
  import opened Hexadecimal
  import opened Wrappers

  /** IS_PRINTABLE without its NUL case. */
  predicate IsPrintable(c: char) {
    || c == '!' || c == '(' || c == ')' || c == '*' || c == '-' || c == '.' || c == '_'
    || '0' <= c <= '9' || 'A' <= c <= 'Z' || 'a' <= c <= 'z'
  }

  // ---- the encoding by its definition ----

  /** UTF-8 of a code point below 256. */
  function Utf8(code: nat): (r: seq<nat>)
    requires code < 256
    ensures forall i :: 0 <= i < |r| ==> r[i] < 256
  {
    if code < 0x80 then [code] else [0xC0 + code / 64, 0x80 + code % 64]
  }

  function Hex(d: nat): char
    requires d < 16
  {
    HEX_DIGITS[d]
  }

  /** A printable byte stands for itself, any other is a percent sign and two hexadecimal digits. */
  function Percent(b: nat): string
    requires b < 256
  {
    if IsPrintable(b as char) then [b as char] else ['%', Hex(b / 16), Hex(b % 16)]
  }

  function PercentAll(bytes: seq<nat>): string
    requires forall i :: 0 <= i < |bytes| ==> bytes[i] < 256
  {
    if bytes == [] then "" else Percent(bytes[0]) + PercentAll(bytes[1..])
  }

  function Utf8All(s: string): (r: seq<nat>)
    requires IsText(s)
    ensures forall i :: 0 <= i < |r| ==> r[i] < 256
  {
    if s == "" then [] else Utf8(s[0] as int) + Utf8All(s[1..])
  }

  function Encode(s: string): string
    requires IsText(s)
  {
    PercentAll(Utf8All(s))
  }

  // ---- the code ----

  /** NIBBLE_STR. */
  function NibbleStr(d: nat): char
    requires d < 16
  {
    if d < 10 then (d + 48) as char else (d - 10 + 97) as char
  }

  /** URL_PrintableCharSize for a character other than NUL. */
  function PrintableCharSize(c: char): nat {
    if IsPrintable(c) then 1 else if c as int < 0x80 then 3 else 6
  }

  /** What URL_PrintableChar writes for a character other than NUL. */
  function PrintableChar(c: char): (r: string)
    requires c as int < 256
    ensures |r| == PrintableCharSize(c)
  {
    var value := c as int;
    var bigNibble := if value / 16 >= 0x0C then value / 16 - 4 else value / 16;
    if IsPrintable(c) then [c]
    else if value < 0x80 then ['%', NibbleStr(bigNibble), NibbleStr(value % 16)]
    else ['%', 'c', if value < 0xC0 then '2' else '3', '%', NibbleStr(bigNibble), NibbleStr(value % 16)]
  }

  function Printed(s: string): string
    requires IsText(s)
  {
    if s == "" then "" else PrintableChar(s[0]) + Printed(s[1..])
  }

  lemma NibbleIsHex(d: nat)
    requires d < 16
    ensures NibbleStr(d) == Hex(d)
  {
  }

  /** The two bytes of a code point from 0x80 up, nibble by nibble. */
  lemma TwoByteNibbles(v: nat)
    requires 0x80 <= v < 256
    ensures (0xC0 + v / 64) / 16 == 12 && (0xC0 + v / 64) % 16 == v / 64 == if v < 0xC0 then 2 else 3
    ensures (0x80 + v % 64) / 16 == (if v / 16 >= 12 then v / 16 - 4 else v / 16) < 16 && (0x80 + v % 64) % 16 == v % 16
  {
  }

  lemma NotPrintable(v: nat)
    requires 0x80 <= v < 256
    ensures !IsPrintable(v as char)
  {
  }

  /** A character is written as its UTF-8 bytes in percent-encoding. */
  lemma PrintedCharacter(c: char)
    requires 0 < c as int < 256
    ensures PrintableChar(c) == PercentAll(Utf8(c as int))
  {
    hide IsPrintable, NibbleStr, Hex, PercentAll;
    var v := c as int;
    NibbleIsHex(v % 16);
    if v < 0x80 {
      PercentAllOne(v);
      NibbleIsHex(v / 16);
    } else {
      var lead, next := 0xC0 + v / 64, 0x80 + v % 64;
      TwoByteNibbles(v);
      NotPrintable(v);
      NotPrintable(lead);
      NotPrintable(next);
      NibbleIsHex(next / 16);
      LeadDigits();
      PercentAllOne(next);
      PercentAllCons(lead, [next]);
      assert [lead] + [next] == [lead, next];
      assert Percent(lead) == ['%', 'c', if v < 0xC0 then '2' else '3'];
    }
  }

  lemma LeadDigits()
    ensures Hex(12) == 'c' && Hex(2) == '2' && Hex(3) == '3'
  {
  }

  lemma PercentAllOne(b: nat)
    requires b < 256
    ensures PercentAll([b]) == Percent(b)
  {
    hide Percent;
    PercentAllCons(b, []);
    assert [b] + [] == [b];
  }

  lemma PercentAllCons(b: nat, rest: seq<nat>)
    requires b < 256 && forall i :: 0 <= i < |rest| ==> rest[i] < 256
    ensures PercentAll([b] + rest) == Percent(b) + PercentAll(rest)
  {
    hide Percent;
    assert ([b] + rest)[1..] == rest;
  }

  lemma {:induction false} PercentAllConcat(a: seq<nat>, b: seq<nat>)
    requires forall i :: 0 <= i < |a| ==> a[i] < 256
    requires forall i :: 0 <= i < |b| ==> b[i] < 256
    ensures PercentAll(a + b) == PercentAll(a) + PercentAll(b)
  {
    hide Percent;
    if a == [] {
      assert a + b == b;
    } else {
      assert (a + b)[1..] == a[1..] + b;
      PercentAllConcat(a[1..], b);
    }
  }

  lemma {:induction false} PrintedIsEncode(s: string)
    requires IsText(s)
    ensures Printed(s) == Encode(s)
  {
    hide PrintableChar, Utf8;
    if s != "" {
      PrintedCharacter(s[0]);
      PrintedIsEncode(s[1..]);
      PercentAllConcat(Utf8(s[0] as int), Utf8All(s[1..]));
    }
  }

  lemma PrintedStep(s: string, i: nat)
    requires IsText(s) && i < |s|
    ensures Printed(s[i..]) == PrintableChar(s[i]) + Printed(s[i + 1..])
  {
    assert s[i..][1..] == s[i + 1..];
  }

  /** URL_Encode: the first pass sizes the buffer, the second fills it to its last place. */
  method UrlEncode(input: string) returns (result: string)
    requires IsText(input)
    ensures result == Encode(input)
  {
    hide Printed, Encode, PrintableChar, PrintableCharSize;
    var lengthOfResult, position := 0, 0;
    assert input[0..] == input && Printed("") == "" by {
      PrintedNone();
    }
    while position < |input|
      invariant 0 <= position <= |input| && lengthOfResult + |Printed(input[position..])| == |Printed(input)|
    {
      PrintedStep(input, position);
      lengthOfResult := lengthOfResult + PrintableCharSize(input[position]);
      position := position + 1;
    }
    lengthOfResult := lengthOfResult + 1;
    var encodedUrl := new char[lengthOfResult];
    var currentEncodePosition := 0;
    position := 0;
    while position < |input|
      invariant 0 <= position <= |input| && 0 <= currentEncodePosition
      invariant currentEncodePosition + |Printed(input[position..])| + 1 == lengthOfResult
      invariant encodedUrl[..currentEncodePosition] + Printed(input[position..]) == Printed(input)
    {
      PrintedStep(input, position);
      currentEncodePosition := CopyText(encodedUrl, currentEncodePosition, PrintableChar(input[position]));
      position := position + 1;
    }
    encodedUrl[currentEncodePosition] := '\0';
    PrintedIsEncode(input);
    result := encodedUrl[..currentEncodePosition];
  }

  lemma PrintedNone()
    ensures Printed("") == ""
  {
  }

  // ---- decoding ----

  /** A decoder written from section 2.1 of RFC 3986; None when the text is not percent-encoded. */
  function PercentDecode(s: string): Option<seq<nat>> {
    if s == "" then Some([])
    else if s[0] != '%' then
      match PercentDecode(s[1..])
      case None => None
      case Some(rest) => Some([s[0] as int] + rest)
    else if |s| < 3 || !IsDigit(s[1], 16) || !IsDigit(s[2], 16) then None
    else
      match PercentDecode(s[3..])
      case None => None
      case Some(rest) => Some([16 * DigitVal(s[1]) + DigitVal(s[2])] + rest)
  }

  lemma {:induction false} DecodePercentAll(bytes: seq<nat>)
    requires forall i :: 0 <= i < |bytes| ==> bytes[i] < 256
    ensures PercentDecode(PercentAll(bytes)) == Some(bytes)
  {
    hide DigitVal, IsPrintable;
    if bytes != [] {
      var b := bytes[0];
      var first, rest := Percent(b), PercentAll(bytes[1..]);
      DecodePercentAll(bytes[1..]);
      assert bytes == [b] + bytes[1..];
      if IsPrintable(b as char) {
        assert first[0] != '%' by {
          PercentNotPrintable();
        }
        assert (first + rest)[1..] == rest;
      } else {
        HexRoundTrip(b / 16);
        HexRoundTrip(b % 16);
        assert (first + rest)[3..] == rest;
      }
    }
  }

  lemma PercentNotPrintable()
    ensures !IsPrintable('%') && !IsPrintable('=') && !IsPrintable('&')
  {
  }

  /** A decoder written from section 3 of RFC 3629, for UTF-8 of one or two bytes a character; None for other
      sequences. */
  function Utf8Decode(bytes: seq<nat>): Option<string> {
    if bytes == [] then Some("")
    else if bytes[0] < 0x80 then
      match Utf8Decode(bytes[1..])
      case None => None
      case Some(rest) => Some([bytes[0] as char] + rest)
    else if |bytes| < 2 || bytes[0] / 32 != 6 || bytes[1] / 64 != 2 then None
    else
      match Utf8Decode(bytes[2..])
      case None => None
      case Some(rest) => Some([(bytes[0] % 32 * 64 + bytes[1] % 64) as char] + rest)
  }

  lemma {:induction false} Utf8RoundTrip(s: string)
    requires IsText(s)
    ensures Utf8Decode(Utf8All(s)) == Some(s)
  {
    hide Utf8Decode, Utf8;
    if s == "" {
      NoBytes();
    } else {
      Utf8RoundTrip(s[1..]);
      Utf8Step(s[0], Utf8All(s[1..]));
      assert s == [s[0]] + s[1..];
    }
  }

  lemma NoBytes()
    ensures Utf8Decode([]) == Some("")
  {
  }

  lemma Utf8Step(c: char, rest: seq<nat>)
    requires c as int < 256
    ensures Utf8Decode(Utf8(c as int) + rest) ==
      match Utf8Decode(rest) { case None => None case Some(s) => Some([c] + s) }
  {
    var first, n := Utf8(c as int), c as int;
    assert (first + rest)[|first|..] == rest;
    if n >= 0x80 {
      assert first[0] / 32 == 6 && first[1] / 64 == 2 && first[0] % 32 * 64 + first[1] % 64 == n;
    }
  }

  /** Percent-decoding what URL_Encode returns gives back the text in UTF-8, and decoding that the text. */
  lemma DecodeEncode(s: string)
    requires IsText(s)
    ensures PercentDecode(Encode(s)) == Some(Utf8All(s)) && Utf8Decode(Utf8All(s)) == Some(s)
  {
    DecodePercentAll(Utf8All(s));
    Utf8RoundTrip(s);
  }

  /** No reserved character is left in an encoded text. */
  lemma {:induction false} EncodedAlphabet(bytes: seq<nat>, i: nat)
    requires forall i :: 0 <= i < |bytes| ==> bytes[i] < 256
    requires i < |PercentAll(bytes)|
    ensures IsPrintable(PercentAll(bytes)[i]) || PercentAll(bytes)[i] == '%'
  {
    var n := |Percent(bytes[0])|;
    if i >= n {
      EncodedAlphabet(bytes[1..], i - n);
    }
  }

  /** The printable characters: letters, digits and seven marks, so none that section 2.2 of RFC 2396 reserves. */
  lemma Alphabet(c: char)
    ensures IsPrintable(c) <==> ('0' <= c <= '9' || 'A' <= c <= 'Z' || 'a' <= c <= 'z' || c in "-_.!*()")
    ensures c in ";/?:@&=+$,%" ==> !IsPrintable(c)
  {
    assert "-_.!*()"[0] == '-' && "-_.!*()"[1] == '_' && "-_.!*()"[2] == '.' && "-_.!*()"[3] == '!';
    assert "-_.!*()"[4] == '*' && "-_.!*()"[5] == '(' && "-_.!*()"[6] == ')';
  }

  /** What an encoded text never holds: a reserved character, a space, a quote, or one outside ASCII. */
  lemma EncodedCharacters(s: string, i: nat)
    requires IsText(s) && i < |Encode(s)|
    ensures Encode(s)[i] !in ";/?:@&=+$,"
    ensures '!' <= Encode(s)[i] <= 'z' && Encode(s)[i] != '"'
  {
    hide PercentAll;
    EncodedAlphabet(Utf8All(s), i);
    Alphabet(Encode(s)[i]);
  }

  lemma {:induction false} EncodedLength(s: string)
    requires IsText(s)
    ensures |Printed(s)| >= |s|
  {
    if s != "" {
      EncodedLength(s[1..]);
    }
  }
}
