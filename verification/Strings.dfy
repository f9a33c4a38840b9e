/** STRING_new_JSON (strings.c), and a reader for the JSON strings it writes (section 7 of
    RFC 8259). */
module Strings {
  import opened CrtAbstractions
  import opened Hexadecimal
  import opened Wrappers

  // ---- writing ----

  predicate IsControl(c: char) {
    c as int <= 0x1F
  }

  predicate IsEscaped(c: char) {
    c == '"' || c == '\\' || c == '/'
  }

  /** A control character as \u00xx, a quote, backslash or slash behind a backslash. */
  function Escape(c: char): string
    requires c as int < 128
  {
    if IsControl(c) then ['\\', 'u', '0', '0', HEX_TO_ASCII[c as int / 16], HEX_TO_ASCII[c as int % 16]]
    else if IsEscaped(c) then ['\\', c]
    else [c]
  }

  predicate IsAscii(s: string) {
    forall i :: 0 <= i < |s| ==> s[i] as int < 128
  }

  function EscapeAll(s: string): string
    requires IsAscii(s)
  {
    if s == "" then "" else EscapeAll(s[..|s| - 1]) + Escape(s[|s| - 1])
  }

  function Json(s: string): string
    requires IsAscii(s)
  {
    "\"" + EscapeAll(s) + "\""
  }

  lemma EscapeStep(s: string, i: nat)
    requires IsAscii(s) && i < |s|
    ensures EscapeAll(s[..i + 1]) == EscapeAll(s[..i]) + Escape(s[i])
  {
    assert s[..i + 1][..i] == s[..i];
  }

  lemma {:induction false} EscapeGrows(s: string, i: nat)
    requires IsAscii(s) && i <= |s|
    ensures |EscapeAll(s[..i])| <= |EscapeAll(s)|
    decreases |s| - i
  {
    if i == |s| {
      assert s[..i] == s;
    } else {
      EscapeStep(s, i);
      EscapeGrows(s, i + 1);
    }
  }

  /** The counting pass: the number of control characters and of escaped ones, or failure on a
      code from 128 up. */
  method CountJson(source: string) returns (ok: bool, nControl: nat, nEscape: nat)
    ensures ok == IsAscii(source)
    ensures ok ==> |source| + 5 * nControl + nEscape == |EscapeAll(source)|
  {
    ok, nControl, nEscape := true, 0, 0;
    var i := 0;
    while i < |source| && ok
      invariant 0 <= i <= |source| && (ok ==> IsAscii(source[..i])) && (!ok ==> i < |source| && source[i] as int >= 128)
      invariant ok ==> i + 5 * nControl + nEscape == |EscapeAll(source[..i])|
      decreases |source| - i, ok
    {
      if source[i] as int >= 128 {
        ok := false;
      } else {
        assert source[..i + 1][..i] == source[..i];
        if IsControl(source[i]) {
          nControl := nControl + 1;
        } else if IsEscaped(source[i]) {
          nEscape := nEscape + 1;
        }
        i := i + 1;
      }
    }
    assert ok ==> source[..i] == source;
  }

  /** STRING_new_JSON with its allocations succeeding: fails exactly on a code from 128 up, and
      fills the buffer of the counted size to its last place. */
  method NewJson(source: string) returns (result: Option<string>)
    ensures result == if IsAscii(source) then Some(Json(source)) else None
  {
    hide EscapeAll, Escape;
    var ok, nControl, nEscape := CountJson(source);
    if !ok {
      return None;
    }
    var buffer := new char[|source| + 5 * nControl + nEscape + 3];
    NothingEscaped();
    var pos := CopyText(buffer, 0, "\"");
    assert source[..0] == "";
    for i := 0 to |source|
      invariant pos == 1 + |EscapeAll(source[..i])| && pos + 2 <= buffer.Length
      invariant buffer[..pos] == "\"" + EscapeAll(source[..i])
    {
      EscapeStep(source, i);
      EscapeGrows(source, i + 1);
      pos := CopyText(buffer, pos, Escape(source[i]));
    }
    assert source[..|source|] == source;
    pos := CopyText(buffer, pos, "\"");
    assert pos == buffer.Length - 1;
    ghost var text := buffer[..pos];
    buffer[pos] := '\0';
    assert buffer[..pos] == text;
    result := Some(buffer[..pos]);
  }

  lemma NothingEscaped()
    ensures EscapeAll("") == ""
  {
  }

  // ---- reading ----

  /** The code of a simple escape, -1 for none. */
  function SimpleEscape(c: char): int {
    if c == '"' || c == '\\' || c == '/' then c as int
    else if c == 'b' then 8 else if c == 'f' then 12 else if c == 'n' then 10 else if c == 'r' then 13 else if c == 't' then 9
    else -1
  }

  /** What was read, and how many characters it took. */
  datatype Read<T> = Failure | Success(value: T, length: nat)

  /** One character of a string: its code, for an escape the code unit it denotes. */
  function ReadChar(s: string): (r: Read<nat>)
    ensures r.Success? ==> 0 < r.length <= |s|
  {
    if s == "" || s[0] == '"' || s[0] as int < 0x20 then Failure
    else if s[0] != '\\' then Success(s[0] as int, 1)
    else if |s| >= 2 && SimpleEscape(s[1]) >= 0 then Success(SimpleEscape(s[1]), 2)
    else if |s| >= 6 && s[1] == 'u' && IsDigit(s[2], 16) && IsDigit(s[3], 16) && IsDigit(s[4], 16) && IsDigit(s[5], 16) then
      Success(0x1000 * DigitVal(s[2]) + 0x100 * DigitVal(s[3]) + 0x10 * DigitVal(s[4]) + DigitVal(s[5]), 6)
    else Failure
  }

  /** Characters up to and including the closing quote. */
  function ReadChars(s: string): (r: Read<seq<nat>>)
    ensures r.Success? ==> 0 < r.length <= |s|
    decreases |s|
  {
    if s != "" && s[0] == '"' then Success([], 1)
    else
      match ReadChar(s)
      case Failure => Failure
      case Success(code, n) =>
        match ReadChars(s[n..])
        case Failure => Failure
        case Success(codes, m) => Success([code] + codes, n + m)
  }

  function ReadString(s: string): (r: Read<seq<nat>>)
    ensures r.Success? ==> 0 < r.length <= |s|
  {
    if s == "" || s[0] != '"' then Failure
    else
      match ReadChars(s[1..])
      case Failure => Failure
      case Success(codes, n) => Success(codes, 1 + n)
  }

  function Codes(s: string): (r: seq<nat>)
    ensures |r| == |s|
  {
    seq(|s|, i requires 0 <= i < |s| => s[i] as int)
  }

  /** The reader takes exactly the escape of a character and returns its code. */
  lemma ReadEscaped(c: char, rest: string)
    requires c as int < 128
    ensures ReadChar(Escape(c) + rest) == Success(c as int, |Escape(c)|)
    ensures Escape(c)[0] != '"'
  {
    if IsControl(c) {
      HexRoundTrip(c as int / 16);
      HexRoundTrip(c as int % 16);
    }
  }

  /** EscapeAll from the front. */
  lemma {:induction false} EscapeFront(s: string)
    requires IsAscii(s) && s != ""
    ensures EscapeAll(s) == Escape(s[0]) + EscapeAll(s[1..])
  {
    hide Escape, EscapeAll;
    var n := |s| - 1;
    EscapeStep(s, n);
    assert s[..n + 1] == s;
    NothingEscaped();
    if n == 0 {
      assert s[..0] == "" && s[1..] == "";
    } else {
      EscapeFront(s[..n]);
      EscapeStep(s[1..], n - 1);
      assert s[..n][1..] == s[1..][..n - 1] && s[1..][..n] == s[1..];
    }
  }

  lemma {:induction false} ReadEscapedAll(s: string, rest: string)
    requires IsAscii(s)
    ensures ReadChars(EscapeAll(s) + "\"" + rest) == Success(Codes(s), |EscapeAll(s)| + 1)
    decreases |s|
  {
    hide Escape, ReadChar;
    if s == "" {
      NothingEscaped();
      assert "" + "\"" + rest == "\"" + rest;
    } else {
      var e, more := Escape(s[0]), EscapeAll(s[1..]) + "\"" + rest;
      EscapeFront(s);
      hide EscapeAll;
      ReadEscaped(s[0], more);
      assert EscapeAll(s) + "\"" + rest == e + more;
      assert (e + more)[|e|..] == more;
      ReadEscapedAll(s[1..], rest);
      assert Codes(s) == [s[0] as int] + Codes(s[1..]);
    }
  }

  /** A reader of JSON gets back exactly the text that was written, and stops behind it. */
  lemma ReadJson(s: string, rest: string)
    requires IsAscii(s)
    ensures ReadString(Json(s) + rest) == Success(Codes(s), |Json(s)|)
  {
    hide EscapeAll, ReadChars;
    ReadEscapedAll(s, rest);
    var e := EscapeAll(s);
    assert ("\"" + e + "\"" + rest)[1..] == e + "\"" + rest;
  }
}
