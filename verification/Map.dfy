/** The string map (map.c) and its JSON form, against a reader of JSON objects of strings
    (section 4 of RFC 8259). */
module Map {
  import opened Sequences
  import opened Strings
  import opened Wrappers

  datatype MapResult = MAP_OK | MAP_ERROR | MAP_KEYEXISTS | MAP_KEYNOTFOUND | MAP_FILTER_REJECT

  type Filter = (string, string) -> bool

  // ---- the JSON form ----

  predicate AllAscii(texts: seq<string>) {
    forall i :: 0 <= i < |texts| ==> IsAscii(texts[i])
  }

  function Member(key: string, value: string): string
    requires IsAscii(key) && IsAscii(value)
  {
    Json(key) + ":" + Json(value)
  }

  /** The members from the i-th on, each but the first of the map behind a comma. */
  function Members(keys: seq<string>, values: seq<string>, i: nat): string
    requires |keys| == |values| && AllAscii(keys) && AllAscii(values) && i <= |keys|
    decreases |keys| - i
  {
    if i == |keys| then ""
    else (if i > 0 then "," else "") + Member(keys[i], values[i]) + Members(keys, values, i + 1)
  }

  function ToJson(keys: seq<string>, values: seq<string>): string
    requires |keys| == |values| && AllAscii(keys) && AllAscii(values)
  {
    "{" + Members(keys, values, 0) + "}"
  }

  // ---- the reader ----

  predicate IsBlank(c: char) {
    c == ' ' || c == '\t' || c == '\n' || c == '\r'
  }

  function Blanks(s: string): (n: nat)
    ensures n <= |s|
  {
    if s != "" && IsBlank(s[0]) then 1 + Blanks(s[1..]) else 0
  }

  /** A character of the grammar, with white space around it. */
  function ReadToken(s: string, c: char): (r: Read<()>)
    ensures r.Success? ==> 0 < r.length <= |s|
  {
    var n := Blanks(s);
    if n == |s| || s[n] != c then Failure
    else Success((), n + 1 + Blanks(s[n + 1..]))
  }

  datatype Pair = Pair(key: seq<nat>, value: seq<nat>)

  function ReadMember(s: string): (r: Read<Pair>)
    ensures r.Success? ==> 0 < r.length <= |s|
  {
    match ReadString(s)
    case Failure => Failure
    case Success(key, n) =>
      match ReadToken(s[n..], ':')
      case Failure => Failure
      case Success(_, m) =>
        match ReadString(s[n + m..])
        case Failure => Failure
        case Success(value, k) => Success(Pair(key, value), n + m + k)
  }

  /** Members up to and including the closing brace. */
  function ReadMembers(s: string): (r: Read<seq<Pair>>)
    ensures r.Success? ==> 0 < r.length <= |s|
    decreases |s|
  {
    match ReadMember(s)
    case Failure => Failure
    case Success(p, n) =>
      match ReadRest(s[n..])
      case Failure => Failure
      case Success(ps, m) => Success([p] + ps, n + m)
  }

  /** What follows a member: the closing brace, or a comma and more members. */
  function ReadRest(s: string): (r: Read<seq<Pair>>)
    ensures r.Success? ==> 0 < r.length <= |s|
    decreases |s|
  {
    if ReadToken(s, '}').Success? then Success([], ReadToken(s, '}').length)
    else
      match ReadToken(s, ',')
      case Failure => Failure
      case Success(_, n) =>
        match ReadMembers(s[n..])
        case Failure => Failure
        case Success(ps, m) => Success(ps, n + m)
  }

  function ReadObject(s: string): Read<seq<Pair>> {
    match ReadToken(s, '{')
    case Failure => Failure
    case Success(_, n) =>
      if ReadToken(s[n..], '}').Success? then Success([], n + ReadToken(s[n..], '}').length)
      else
        match ReadMembers(s[n..])
        case Failure => Failure
        case Success(ps, m) => Success(ps, n + m)
  }

  // ---- reading back ----

  function PairsOf(keys: seq<string>, values: seq<string>): (r: seq<Pair>)
    requires |keys| == |values|
    ensures |r| == |keys|
  {
    seq(|keys|, i requires 0 <= i < |keys| => Pair(Codes(keys[i]), Codes(values[i])))
  }

  lemma TokenHere(c: char, rest: string)
    requires !IsBlank(c) && (rest == "" || !IsBlank(rest[0]))
    ensures ReadToken([c] + rest, c) == Success((), 1)
    ensures forall d :: d != c ==> ReadToken([c] + rest, d) == Failure
  {
    assert ([c] + rest)[1..] == rest;
  }

  lemma JsonStarts(s: string, rest: string)
    requires IsAscii(s)
    ensures Json(s) + rest != "" && (Json(s) + rest)[0] == '"'
  {
  }

  lemma ReadBackMember(key: string, value: string, rest: string)
    requires IsAscii(key) && IsAscii(value)
    ensures ReadMember(Member(key, value) + rest) == Success(Pair(Codes(key), Codes(value)), |Member(key, value)|)
  {
    hide Json, ReadString, ReadToken, Codes;
    var k, v := Json(key), Json(value);
    var tail := [':'] + (v + rest);
    assert Member(key, value) + rest == k + tail;
    ReadJson(key, tail);
    assert (k + tail)[|k|..] == tail;
    JsonStarts(value, rest);
    TokenHere(':', v + rest);
    assert (k + tail)[|k| + 1..] == v + rest;
    ReadJson(value, rest);
  }

  lemma RestIsEnd(rest: string)
    requires rest == "" || !IsBlank(rest[0])
    ensures ReadRest(['}'] + rest) == Success([], 1)
  {
    hide ReadMembers;
    TokenHere('}', rest);
  }

  lemma RestIsMore(next: string, ps: seq<Pair>, k: nat)
    requires next != "" && !IsBlank(next[0]) && ReadMembers(next) == Success(ps, k)
    ensures ReadRest([','] + next) == Success(ps, 1 + k)
  {
    hide ReadMembers, ReadToken;
    TokenHere(',', next);
    assert ([','] + next)[1..] == next;
  }

  lemma MemberThenRest(m: string, p: Pair, tail: string, ps: seq<Pair>, k: nat)
    requires ReadMember(m + tail) == Success(p, |m|) && ReadRest(tail) == Success(ps, k)
    ensures ReadMembers(m + tail) == Success([p] + ps, |m| + k)
  {
    hide ReadMember, ReadRest;
    assert (m + tail)[|m|..] == tail;
  }

  /** From the i-th member on, without the comma before it. */
  lemma {:induction false} ReadBackMembers(keys: seq<string>, values: seq<string>, i: nat, rest: string)
    requires |keys| == |values| && AllAscii(keys) && AllAscii(values) && i < |keys| && (rest == "" || !IsBlank(rest[0]))
    ensures var s := Member(keys[i], values[i]) + Members(keys, values, i + 1) + "}";
      ReadMembers(s + rest) == Success(PairsOf(keys, values)[i..], |s|)
    decreases |keys| - i
  {
    hide Member, ReadMember, ReadMembers, ReadRest, ReadToken, Codes;
    var m, pairs := Member(keys[i], values[i]), PairsOf(keys, values);
    if i + 1 == |keys| {
      assert m + "" + "}" + rest == m + (['}'] + rest);
      ReadBackMember(keys[i], values[i], ['}'] + rest);
      RestIsEnd(rest);
      MemberThenRest(m, pairs[i], ['}'] + rest, [], 1);
      assert pairs[i..] == [pairs[i]] + [];
    } else {
      var n := Member(keys[i + 1], values[i + 1]);
      var more := n + Members(keys, values, i + 2) + "}";
      assert m + Members(keys, values, i + 1) + "}" == m + ([','] + more);
      assert m + ([','] + more) + rest == m + ([','] + (more + rest));
      MemberStarts(keys[i + 1], values[i + 1], Members(keys, values, i + 2) + "}" + rest);
      assert more + rest == n + (Members(keys, values, i + 2) + "}" + rest);
      ReadBackMember(keys[i], values[i], [','] + (more + rest));
      ReadBackMembers(keys, values, i + 1, rest);
      RestIsMore(more + rest, pairs[i + 1..], |more|);
      MemberThenRest(m, pairs[i], [','] + (more + rest), pairs[i + 1..], 1 + |more|);
      assert pairs[i..] == [pairs[i]] + pairs[i + 1..];
    }
  }

  lemma MemberStarts(key: string, value: string, rest: string)
    requires IsAscii(key) && IsAscii(value)
    ensures Member(key, value) + rest != "" && (Member(key, value) + rest)[0] == '"'
  {
  }

  /** A JSON reader applied to the JSON form gives back exactly the pairs of the map, in order. */
  lemma ReadBack(keys: seq<string>, values: seq<string>)
    requires |keys| == |values| && AllAscii(keys) && AllAscii(values)
    ensures ReadObject(ToJson(keys, values)) == Success(PairsOf(keys, values), |ToJson(keys, values)|)
  {
    hide Member, ReadToken, ReadMembers, Codes;
    if keys == [] {
      assert ToJson(keys, values) == ['{'] + "}";
      TokenHere('{', "}");
      assert "}" == ['}'] + "";
      TokenHere('}', "");
    } else {
      var body := Member(keys[0], values[0]) + Members(keys, values, 1) + "}";
      assert ToJson(keys, values) == ['{'] + body;
      MemberStarts(keys[0], values[0], Members(keys, values, 1) + "}");
      assert body == Member(keys[0], values[0]) + (Members(keys, values, 1) + "}");
      assert body == [body[0]] + body[1..];
      TokenHere('{', body);
      NoToken(body);
      ReadBackMembers(keys, values, 0, "");
      assert body + "" == body && PairsOf(keys, values)[0..] == PairsOf(keys, values);
    }
  }

  lemma NoToken(s: string)
    requires s != "" && s[0] == '"'
    ensures ReadToken(s, '}') == Failure
  {
  }

  // ---- the map ----

  predicate DistinctKeys(keys: seq<string>) {
    forall i, j :: 0 <= i < j < |keys| ==> keys[i] != keys[j]
  }

  lemma MembersStep(text: string, keys: seq<string>, values: seq<string>, i: nat)
    requires |keys| == |values| && AllAscii(keys) && AllAscii(values) && i < |keys|
    ensures text + ((if i > 0 then "," else "") + (Json(keys[i]) + ":" + Json(values[i]))) + Members(keys, values, i + 1)
            == text + Members(keys, values, i)
  {
    hide Json;
    var comma, m, more := if i > 0 then "," else "", Member(keys[i], values[i]), Members(keys, values, i + 1);
    assert text + (comma + m) + more == text + (comma + m + more);
  }

  lemma NoMembers(keys: seq<string>, values: seq<string>)
    requires |keys| == |values| && AllAscii(keys) && AllAscii(values)
    ensures Members(keys, values, |keys|) == ""
  {
  }

  /** Two arrays of one length that grow and shrink together; an array without elements stands for
      NULL. */
  class StringMap {
    var keys: array<string>
    var values: array<string>
    var count: nat
    var mapFilterCallback: Option<Filter>

    ghost predicate Sound()
      reads this
    {
      keys != values && count <= keys.Length && count <= values.Length
    }

    ghost function Keys(): (s: seq<string>)
      requires Sound()
      reads this, keys
      ensures |s| == count
    {
      keys[..count]
    }

    ghost function Values(): (s: seq<string>)
      requires Sound()
      reads this, values
      ensures |s| == count
    {
      values[..count]
    }

    ghost predicate Valid()
      reads this, keys
    {
      Sound() && DistinctKeys(Keys())
    }

    /** Map_Create. */
    constructor (mapFilterFunc: Option<Filter>)
      ensures Valid() && Keys() == [] && Values() == [] && mapFilterCallback == mapFilterFunc
      ensures fresh(keys) && fresh(values)
    {
      keys, values := new string[0], new string[0];
      count, mapFilterCallback := 0, mapFilterFunc;
    }

    /** findKey; the count stands for NULL. */
    method FindKey(key: string) returns (i: nat)
      requires Sound()
      ensures i <= count && (i < count ==> keys[i] == key)
      ensures i == count <==> key !in Keys()
      ensures forall j :: 0 <= j < i ==> keys[j] != key
    {
      i := 0;
      while i < count && keys[i] != key
        invariant 0 <= i <= count && forall j :: 0 <= j < i ==> keys[j] != key
      {
        i := i + 1;
      }
      assert i < count ==> Keys()[i] == key;
    }

    predicate Rejects(key: string, value: string)
      reads this
    {
      mapFilterCallback.Some? && !mapFilterCallback.value(key, value)
    }

    /** Map_IncreaseStorageKeysValues; the outcomes are those of the two reallocations that grow, and
        of the one that undoes the first. */
    method IncreaseStorage(grownKeys: bool, grownValues: bool, undone: bool) returns (ok: bool)
      requires Sound()
      modifies this`keys, this`values, this`count
      ensures Sound() && (keys == old(keys) || fresh(keys)) && (values == old(values) || fresh(values))
      ensures ok == (grownKeys && grownValues)
      ensures ok ==> fresh(keys) && fresh(values) && count == old(count) + 1 == keys.Length == values.Length
      ensures ok ==> keys[..count - 1] == old(Keys()) && values[..count - 1] == old(Values())
      ensures !ok ==> Keys() == old(Keys()) && Values() == old(Values())
    {
      if !grownKeys {
        return false;
      }
      keys := Reallocated(keys, count, count + 1);
      if !grownValues {
        if undone {
          keys := Reallocated(keys, count, count);
        }
        return false;
      }
      values := Reallocated(values, count, count + 1);
      count := count + 1;
      ok := true;
    }

    /** Map_DecreaseStorageKeysValues: the last pair to go takes the filter with it.  The outcomes are
        those of the reallocations; without them the arrays stay as large as they were. */
    method DecreaseStorage(shrunkKeys: bool, shrunkValues: bool)
      requires Sound() && count > 0
      modifies this
      ensures Sound() && (keys == old(keys) || fresh(keys)) && (values == old(values) || fresh(values))
      ensures Keys() == old(Keys()[..count - 1]) && Values() == old(Values()[..count - 1])
      ensures mapFilterCallback == if old(count) == 1 then None else old(mapFilterCallback)
    {
      if count == 1 {
        keys, values := new string[0], new string[0];
        count, mapFilterCallback := 0, None;
      } else {
        if shrunkKeys {
          keys := Reallocated(keys, count - 1, count - 1);
        }
        if shrunkValues {
          values := Reallocated(values, count - 1, count - 1);
        }
        count := count - 1;
      }
    }

    /** insertNewKeyValue; the outcomes are those of the reallocations and of the two copies. */
    method InsertNewKeyValue(key: string, value: string, grown: bool, copied: bool) returns (ok: bool)
      requires Sound()
      modifies this
      ensures Sound() && (keys == old(keys) || fresh(keys)) && (values == old(values) || fresh(values))
      ensures ok == (grown && copied)
      ensures ok ==> Keys() == old(Keys()) + [key] && Values() == old(Values()) + [value]
      ensures !ok ==> Keys() == old(Keys()) && Values() == old(Values())
      ensures mapFilterCallback == if grown && !copied && old(count) == 0 then None else old(mapFilterCallback)
    {
      var first, undone: bool := *, *;
      var increased := IncreaseStorage(grown || first, grown, undone);
      if !increased {
        return false;
      }
      keys[count - 1] := key;
      if !copied {
        var shrunkKeys, shrunkValues: bool := *, *;
        DecreaseStorage(shrunkKeys, shrunkValues);
        return false;
      }
      values[count - 1] := value;
      ok := true;
    }

    /** Map_Add. */
    method Add(key: string, value: string, grown: bool, copied: bool) returns (result: MapResult)
      requires Valid()
      modifies this
      ensures Valid() && (keys == old(keys) || fresh(keys)) && (values == old(values) || fresh(values))
      ensures result == if key in old(Keys()) then MAP_KEYEXISTS else if old(Rejects(key, value)) then MAP_FILTER_REJECT
                        else if grown && copied then MAP_OK else MAP_ERROR
      ensures Keys() == (if result == MAP_OK then old(Keys()) + [key] else old(Keys()))
      ensures Values() == (if result == MAP_OK then old(Values()) + [value] else old(Values()))
      ensures mapFilterCallback == if result == MAP_ERROR && grown && old(count) == 0 then None else old(mapFilterCallback)
    {
      var whereIsIt := FindKey(key);
      if whereIsIt < count {
        return MAP_KEYEXISTS;
      }
      if Rejects(key, value) {
        return MAP_FILTER_REJECT;
      }
      var ok := InsertNewKeyValue(key, value, grown, copied);
      result := if ok then MAP_OK else MAP_ERROR;
    }

    /** Map_AddOrUpdate; the filter is asked first. */
    method AddOrUpdate(key: string, value: string, grown: bool, copied: bool) returns (result: MapResult)
      requires Valid()
      modifies this, values
      ensures Valid() && (keys == old(keys) || fresh(keys)) && (values == old(values) || fresh(values))
      ensures result == if old(Rejects(key, value)) then MAP_FILTER_REJECT else if (key in old(Keys()) || grown) && copied then MAP_OK else MAP_ERROR
      ensures result != MAP_OK ==> Keys() == old(Keys()) && Values() == old(Values())
      ensures result == MAP_OK && key !in old(Keys()) ==> Keys() == old(Keys()) + [key] && Values() == old(Values()) + [value]
      ensures result == MAP_OK && key in old(Keys()) ==>
        Keys() == old(Keys()) && forall i :: 0 <= i < count ==> Values()[i] == if Keys()[i] == key then value else old(Values())[i]
      ensures mapFilterCallback == if result == MAP_ERROR && grown && old(count) == 0 then None else old(mapFilterCallback)
    {
      if Rejects(key, value) {
        return MAP_FILTER_REJECT;
      }
      var whereIsIt := FindKey(key);
      if whereIsIt == count {
        var ok := InsertNewKeyValue(key, value, grown, copied);
        return if ok then MAP_OK else MAP_ERROR;
      }
      if !copied {
        return MAP_ERROR;
      }
      values[whereIsIt] := value;
      assert Keys()[whereIsIt] == key;
      result := MAP_OK;
    }

    /** Map_Delete: the pairs behind the one that goes move up. */
    method Delete(key: string, shrunkKeys: bool, shrunkValues: bool) returns (result: MapResult)
      requires Valid()
      modifies this, keys, values
      ensures Valid() && (keys == old(keys) || fresh(keys)) && (values == old(values) || fresh(values))
      ensures result == if key in old(Keys()) then MAP_OK else MAP_KEYNOTFOUND
      ensures result == MAP_KEYNOTFOUND ==> Keys() == old(Keys()) && Values() == old(Values())
      ensures result == MAP_OK ==>
        exists i :: 0 <= i < |old(Keys())| && old(Keys())[i] == key && Keys() == Without(old(Keys()), i) && Values() == Without(old(Values()), i)
      ensures mapFilterCallback == if result == MAP_OK && old(count) == 1 then None else old(mapFilterCallback)
    {
      var whereIsIt := FindKey(key);
      if whereIsIt == count {
        assert key !in old(Keys());
        return MAP_KEYNOTFOUND;
      }
      ghost var keysWere, valuesWere := Keys(), Values();
      assert keysWere[whereIsIt] == key;
      MoveUp(keys, whereIsIt, count);
      MoveUp(values, whereIsIt, count);
      assert keys[..count - 1] == Without(keysWere, whereIsIt);
      assert values[..count - 1] == Without(valuesWere, whereIsIt);
      assert Keys()[..count - 1] == keys[..count - 1] && Values()[..count - 1] == values[..count - 1];
      DecreaseStorage(shrunkKeys, shrunkValues);
      result := MAP_OK;
    }

    /** Map_GetValueFromKey. */
    method GetValueFromKey(key: string) returns (value: Option<string>)
      requires Valid()
      ensures value.Some? == (key in Keys())
      ensures value.Some? ==> forall i :: 0 <= i < count && Keys()[i] == key ==> Values()[i] == value.value
    {
      var whereIsIt := FindKey(key);
      value := if whereIsIt < count then Some(values[whereIsIt]) else None;
      assert forall i :: 0 <= i < count ==> Keys()[i] == keys[i];
    }

    /** Map_ToJSON with its allocations succeeding: fails exactly on text outside the codes 1 to
        127, and otherwise a JSON reader gets back the pairs of the map. */
    method ToJSON() returns (result: Option<string>)
      requires Valid()
      ensures result.Some? == (AllAscii(Keys()) && AllAscii(Values()))
      ensures result.Some? ==>
        result.value == ToJson(Keys(), Values()) && ReadObject(result.value) == Success(PairsOf(Keys(), Values()), |result.value|)
    {
      hide Member, ReadObject, IsAscii, Members, Json;
      ghost var ks, vs := Keys(), Values();
      var text := "{";
      var i := 0;
      while i < count
        invariant 0 <= i <= count && AllAscii(ks[..i]) && AllAscii(vs[..i])
        invariant AllAscii(ks) && AllAscii(vs) ==> text + Members(ks, vs, i) == "{" + Members(ks, vs, 0)
      {
        assert ks[i] == keys[i] && vs[i] == values[i];
        var key := NewJson(keys[i]);
        if key.None? {
          return None;
        }
        var value := NewJson(values[i]);
        if value.None? {
          return None;
        }
        if AllAscii(ks) && AllAscii(vs) {
          MembersStep(text, ks, vs, i);
        }
        text := AddMember(text, i, key.value, value.value);
        i := i + 1;
      }
      assert ks[..i] == ks && vs[..i] == vs;
      NoMembers(ks, vs);
      ReadBack(ks, vs);
      result := Some(text + "}");
    }

    method AddMember(text: string, i: nat, key: string, value: string) returns (r: string)
      ensures r == text + ((if i > 0 then "," else "") + (key + ":" + value))
    {
      r := text;
      if i > 0 {
        r := r + ",";
      }
      r := r + key;
      r := r + ":";
      r := r + value;
    }
  }

  /** realloc to another number of elements; n of them are kept. */
  method Reallocated(a: array<string>, n: nat, size: nat) returns (b: array<string>)
    requires n <= a.Length && n <= size
    ensures fresh(b) && b.Length == size && b[..n] == a[..n]
  {
    var kept := a[..n];
    b := new string[size](i => if 0 <= i < |kept| then kept[i] else "");
  }

  /** memmove of the elements between an index and the count by one place. */
  method MoveUp(a: array<string>, index: nat, count: nat)
    requires index < count <= a.Length
    modifies a
    ensures a[..count - 1] == old(Without(a[..count], index))
  {
    forall i | index <= i < count - 1 {
      a[i] := a[i + 1];
    }
  }
}
