/** Connection strings (connection_string_parser.c over string_tokenizer.c and map.c). */
module ConnectionStringParser {
  import opened CrtAbstractions
  import opened StringTokenizer
  import Map
  import Wrappers

  datatype Pair = Pair(key: string, value: string)

  datatype Parsed = Failure | Success(pairs: seq<Pair>)

  predicate HasKey(pairs: seq<Pair>, key: string) {
    exists i :: 0 <= i < |pairs| && pairs[i].key == key
  }

  /** Keys up to "=" and values up to ";" in turn, until no key is left. */
  function ParseFrom(s: string, pairs: seq<Pair>): Parsed
    decreases |s|
  {
    match NextToken(s, "=")
    case None => Success(pairs)
    case Some(key, rest) =>
      match NextToken(rest, ";")
      case None => Failure
      case Some(value, more) =>
        if key == "" || HasKey(pairs, key) then Failure else ParseFrom(more, pairs + [Pair(key, value)])
  }

  function Parse(s: string): Parsed {
    ParseFrom(s, [])
  }

  // ---- what is parsed ----

  predicate GoodPair(p: Pair) {
    p.key != "" && '=' !in p.key && p.value != "" && ';' !in p.value
  }

  /** Keys are distinct and not empty and have no "=", values are not empty and have no ";". */
  predicate WellFormed(pairs: seq<Pair>) {
    && (forall p :: p in pairs ==> GoodPair(p))
    && forall i, j :: 0 <= i < j < |pairs| ==> pairs[i].key != pairs[j].key
  }

  lemma WellFormedPush(pairs: seq<Pair>, p: Pair)
    ensures WellFormed(pairs + [p]) <==> WellFormed(pairs) && GoodPair(p) && !HasKey(pairs, p.key)
  {
    hide GoodPair;
    var all, n := pairs + [p], |pairs|;
    assert all[n] == p;
    if WellFormed(all) {
      assert forall q :: q in pairs ==> q in all;
      forall i, j | 0 <= i < j < n
        ensures pairs[i].key != pairs[j].key
      {
        assert all[i].key != all[j].key;
      }
      forall i | 0 <= i < n
        ensures pairs[i].key != p.key
      {
        assert all[i].key != all[n].key;
      }
    }
  }

  /** Whatever the text, what the parser returns is well-formed. */
  lemma {:induction false} ParsedWellFormed(s: string, pairs: seq<Pair>)
    requires WellFormed(pairs)
    ensures ParseFrom(s, pairs).Success? ==> WellFormed(ParseFrom(s, pairs).pairs)
    decreases |s|
  {
    hide WellFormed, HasKey, NextToken, Skipped;
    match NextToken(s, "=") {
      case None =>
      case Some(key, rest) =>
        match NextToken(rest, ";") {
          case None =>
          case Some(value, more) =>
            OneDelimiter(s, '=');
            OneDelimiter(rest, ';');
            if !HasKey(pairs, key) {
              WellFormedPush(pairs, Pair(key, value));
              ParsedWellFormed(more, pairs + [Pair(key, value)]);
            }
        }
    }
  }

  // ---- what is printed ----

  /** "key=value" joined by ";", with or without one at the end. */
  function Join(pairs: seq<Pair>, trailing: bool): string {
    if pairs == [] then ""
    else pairs[0].key + "=" + pairs[0].value
         + (if |pairs| > 1 || trailing then ";" else "") + Join(pairs[1..], trailing)
  }

  lemma TokenOf(text: string, c: char, rest: string)
    requires text != "" && c !in text
    ensures NextToken(text + [c] + rest, [c]) == Some(text, rest)
    ensures NextToken(text, [c]) == Some(text, "")
  {
    var s := text + [c] + rest;
    assert s[0] == text[0] != c;
    NoneSkipped(s, c);
    NoneSkipped(text, c);
    assert s[0..] == s && text[0..] == text && s[..|text|] == text && text[..|text|] == text;
    UpToIs(s, |text|, c);
    UpToIs(text, |text|, c);
    OneToken(s, c);
    OneToken(text, c);
  }

  lemma NoneSkipped(s: string, c: char)
    requires s != "" && s[0] != c
    ensures Skipped(s, [c]) == 0
  {
  }

  lemma JoinUnfold(p: Pair, more: seq<Pair>, trailing: bool)
    ensures var separated, rest := more != [] || trailing, Join(more, trailing);
      && Join([p] + more, trailing) == p.key + ['='] + (if separated then p.value + [';'] + rest else p.value)
      && (!separated ==> rest == "")
  {
    assert ([p] + more)[1..] == more;
    var separated, rest := more != [] || trailing, Join(more, trailing);
    if separated {
      assert p.key + "=" + p.value + ";" + rest == p.key + ['='] + (p.value + [';'] + rest);
    } else {
      assert p.key + "=" + p.value + "" + rest == p.key + ['='] + p.value;
    }
  }

  /** Parsing what was printed, behind pairs already found. */
  lemma {:induction false} ParseJoin(found: seq<Pair>, pairs: seq<Pair>, trailing: bool)
    requires WellFormed(found + pairs)
    ensures ParseFrom(Join(pairs, trailing), found) == Success(found + pairs)
    decreases |pairs|
  {
    if pairs == [] {
      assert found + pairs == found;
    } else {
      hide WellFormed, HasKey, ParseFrom, Join;
      var p, more := pairs[0], pairs[1..];
      assert [p] + more == pairs && found + [p] + more == found + pairs;
      FirstWellFormed(found, p, more);
      ParseJoin(found + [p], more, trailing);
      JoinUnfold(p, more, trailing);
      var rest := Join(more, trailing);
      ParsePair(found, p, if more != [] || trailing then p.value + [';'] + rest else p.value, rest);
    }
  }

  lemma FirstWellFormed(found: seq<Pair>, p: Pair, rest: seq<Pair>)
    requires WellFormed(found + [p] + rest)
    ensures GoodPair(p) && !HasKey(found, p.key)
  {
    var all := found + [p] + rest;
    assert all[|found|] == p;
    assert p in all;
    assert forall i :: 0 <= i < |found| ==> all[i] == found[i];
  }

  lemma ParsePair(found: seq<Pair>, p: Pair, tail: string, rest: string)
    requires GoodPair(p) && !HasKey(found, p.key)
    requires tail == p.value + [';'] + rest || (tail == p.value && rest == "")
    ensures ParseFrom(p.key + ['='] + tail, found) == ParseFrom(rest, found + [p])
  {
    TokenOf(p.key, '=', tail);
    TokenOf(p.value, ';', rest);
    hide NextToken, HasKey;
  }

  /** Parsing returns exactly the list that was printed if and only if the list is well-formed. */
  lemma RoundTrip(pairs: seq<Pair>, trailing: bool)
    ensures Parse(Join(pairs, trailing)) == Success(pairs) <==> WellFormed(pairs)
  {
    if WellFormed(pairs) {
      assert [] + pairs == pairs;
      ParseJoin([], pairs, trailing);
    }
    ParsedWellFormed(Join(pairs, trailing), []);
  }

  // ---- the parser ----

  function Keys(pairs: seq<Pair>): (r: seq<string>)
    ensures |r| == |pairs|
  {
    seq(|pairs|, i requires 0 <= i < |pairs| => pairs[i].key)
  }

  function Values(pairs: seq<Pair>): (r: seq<string>)
    ensures |r| == |pairs|
  {
    seq(|pairs|, i requires 0 <= i < |pairs| => pairs[i].value)
  }

  lemma KeysPush(pairs: seq<Pair>, p: Pair)
    ensures Keys(pairs + [p]) == Keys(pairs) + [p.key] && Values(pairs + [p]) == Values(pairs) + [p.value]
    ensures HasKey(pairs, p.key) <==> p.key in Keys(pairs)
  {
    assert forall i :: 0 <= i < |pairs| ==> Keys(pairs)[i] == pairs[i].key;
  }

  /** connectionstringparser_parse with its allocations succeeding. */
  method ParseConnectionString(connectionString: string) returns (result: Map.StringMap?)
    ensures result != null <==> Parse(connectionString).Success?
    ensures result != null ==> fresh(result) && result.Valid() && var pairs := Parse(connectionString).pairs;
      result.Keys() == Keys(pairs) && result.Values() == Values(pairs)
  {
    hide NextToken, HasKey, Keys, Values;
    var tokenizer := new Tokenizer(connectionString);
    result := new Map.StringMap(Wrappers.None);
    ghost var pairs: seq<Pair> := [];
    NoPairs();
    assert connectionString[0..] == connectionString;
    ghost var rest := connectionString;
    var more, key := tokenizer.GetNextToken("=");
    while more
      invariant tokenizer.Valid() && fresh(tokenizer) && fresh(result) && result.Valid() && tokenizer.inputString == connectionString
      invariant result.mapFilterCallback.None? && result.Keys() == Keys(pairs) && result.Values() == Values(pairs)
      invariant fresh(result.keys) && fresh(result.values)
      invariant Parse(connectionString) == ParseFrom(rest, pairs)
      invariant more == NextToken(rest, "=").Some?
      invariant more ==> NextToken(rest, "=") == Token.Some(key, connectionString[tokenizer.currentPos..])
      decreases |rest|
    {
      var found, value := tokenizer.GetNextToken(";");
      if !found || key == "" {
        return null;
      }
      KeysPush(pairs, Pair(key, value));
      var added := result.Add(key, value, true, true);
      if added != Map.MAP_OK {
        return null;
      }
      pairs := pairs + [Pair(key, value)];
      rest := connectionString[tokenizer.currentPos..];
      more, key := tokenizer.GetNextToken("=");
    }
  }

  lemma NoPairs()
    ensures Keys([]) == [] && Values([]) == []
  {
  }

  /** connectionstringparser_splitHostName_from_char: the name before the first dot and the suffix
      behind it, neither of them empty. */
  method SplitHostName(hostName: string) returns (ok: bool, name: string, suffix: string)
    ensures ok ==> hostName == name + "." + suffix && name != "" && '.' !in name && suffix != ""
    ensures !ok ==> forall n, s :: hostName == n + "." + s && n != "" && '.' !in n ==> s == ""
  {
    name, suffix := "", "";
    if hostName == "" || hostName[0] == '.' {
      return false, name, suffix;
    }
    var i := 0;
    while i < |hostName| && hostName[i] != '.'
      invariant 0 <= i <= |hostName| && '.' !in hostName[..i]
    {
      assert hostName[..i + 1] == hostName[..i] + [hostName[i]];
      i := i + 1;
    }
    UpToIs(hostName, i, '.');
    forall n, s | hostName == n + "." + s && '.' !in n
      ensures |n| == i && s == hostName[i + 1..]
    {
      assert hostName[..|n|] == n;
      UpToIs(hostName, |n|, '.');
    }
    if i >= |hostName| - 1 {
      return false, name, suffix;
    }
    ok, name, suffix := true, hostName[..i], hostName[i + 1..];
  }
}
