/** The string tokenizer (string_tokenizer.c). */
module StringTokenizer {
  import opened CrtAbstractions

  datatype Token = None | Some(text: string, rest: string)

  /** Leading characters that are delimiters. */
  function Skipped(s: string, delimiters: string): (n: nat)
    ensures n <= |s| && (n < |s| ==> s[n] !in delimiters)
    ensures forall i :: 0 <= i < n ==> s[i] in delimiters
  {
    if s != "" && s[0] in delimiters then 1 + Skipped(s[1..], delimiters) else 0
  }

  /** Where the first delimiter of the list that occurs at all stands, or the end of the text. */
  function EndOfToken(s: string, delimiters: string): (n: nat)
    ensures n <= |s|
    decreases |delimiters|
  {
    if delimiters == "" then |s|
    else if |UpTo(s, delimiters[0])| < |s| then |UpTo(s, delimiters[0])|
    else EndOfToken(s, delimiters[1..])
  }

  function NextToken(s: string, delimiters: string): (t: Token)
    ensures t.Some? ==> |t.rest| < |s|
  {
    var start := s[Skipped(s, delimiters)..];
    if start == "" || delimiters == "" then None
    else
      var end := EndOfToken(start, delimiters);
      Some(start[..end], if end < |start| then start[end + 1..] else "")
  }

  lemma OneEnd(s: string, c: char)
    ensures EndOfToken(s, [c]) == |UpTo(s, c)|
  {
    assert [c][1..] == "";
    assert EndOfToken(s, "") == |s|;
  }

  lemma OneToken(s: string, c: char)
    ensures var start := s[Skipped(s, [c])..];
      NextToken(s, [c]) == if start == "" then None
                           else Some(UpTo(start, c), if |UpTo(start, c)| < |start| then start[|UpTo(start, c)| + 1..] else "")
  {
    var start := s[Skipped(s, [c])..];
    OneEnd(start, c);
    hide Skipped, EndOfToken, UpTo;
    assert start[..|UpTo(start, c)|] == UpTo(start, c);
  }

  lemma UpToSplits(start: string, c: char)
    requires start != "" && start[0] != c
    ensures var t := UpTo(start, c);
      t != "" && c !in t && if |t| < |start| then start == t + [c] + start[|t| + 1..] else start == t
  {
    hide UpTo;
    var t := UpTo(start, c);
    assert t == start[..|t|];
  }

  lemma SkippedRun(s: string, c: char)
    ensures var n := Skipped(s, [c]);
      (forall i :: 0 <= i < n ==> s[i] == c) && (n < |s| ==> s[n] != c)
  {
    hide Skipped;
    var n := Skipped(s, [c]);
    assert n < |s| ==> s[n] !in [c];
    assert forall i :: 0 <= i < n ==> s[i] in [c];
    assert c in [c];
  }

  /** With one delimiter the token is what its description says: what stands between a run of
      delimiters and the next delimiter or the end. */
  lemma OneDelimiter(s: string, c: char)
    ensures var t, n := NextToken(s, [c]), Skipped(s, [c]);
      && (forall i :: 0 <= i < n ==> s[i] == c)
      && (t.None? <==> n == |s|)
      && (t.Some? ==> t.text != "" && c !in t.text && (s[n..] == t.text + [c] + t.rest || (t.rest == "" && s[n..] == t.text)))
  {
    SkippedRun(s, c);
    OneToken(s, c);
    var start := s[Skipped(s, [c])..];
    hide Skipped, NextToken, UpTo;
    if start != "" {
      UpToSplits(start, c);
    }
  }

  /** The first delimiter of the list that occurs in the text, or the length of the list. */
  function FirstListed(s: string, delimiters: string): (j: nat)
    ensures j <= |delimiters| && (j < |delimiters| ==> delimiters[j] in s)
    ensures forall i :: 0 <= i < j ==> delimiters[i] !in s
  {
    if delimiters == "" || delimiters[0] in s then 0 else 1 + FirstListed(s, delimiters[1..])
  }

  /** No delimiter further down the list stands before the first listed one that occurs. */
  predicate FirstIsNearest(s: string, delimiters: string) {
    var j := FirstListed(s, delimiters);
    forall i :: j < i < |delimiters| ==> |UpTo(s, delimiters[j])| <= |UpTo(s, delimiters[i])|
  }

  lemma OccursBefore(s: string, k: nat, c: char)
    requires k <= |s|
    ensures c !in s[..k] <==> k <= |UpTo(s, c)|
    ensures c in s <==> |UpTo(s, c)| < |s|
  {
    hide UpTo;
    var n := |UpTo(s, c)|;
    assert UpTo(s, c) == s[..n];
    if k <= n {
      assert forall i :: 0 <= i < k ==> s[..k][i] == s[..n][i];
    } else {
      assert s[..k][n] == c;
    }
    if n == |s| {
      assert s[..n] == s;
    }
  }

  /** The code's search ends at the first listed delimiter that occurs. */
  lemma {:induction false} EndAtFirstListed(s: string, delimiters: string)
    ensures var j := FirstListed(s, delimiters);
      EndOfToken(s, delimiters) == if j < |delimiters| then |UpTo(s, delimiters[j])| else |s|
  {
    hide UpTo;
    if delimiters != "" {
      OccursBefore(s, 0, delimiters[0]);
      EndAtFirstListed(s, delimiters[1..]);
    }
  }

  predicate Free(t: string, delimiters: string) {
    forall i :: 0 <= i < |delimiters| ==> delimiters[i] !in t
  }

  lemma TokenFree(s: string, delimiters: string)
    ensures Free(s[..EndOfToken(s, delimiters)], delimiters) <==> FirstIsNearest(s, delimiters)
  {
    hide UpTo, EndOfToken, FirstListed;
    EndAtFirstListed(s, delimiters);
    var j, end := FirstListed(s, delimiters), EndOfToken(s, delimiters);
    forall i | 0 <= i < |delimiters|
      ensures delimiters[i] !in s[..end] <==> end <= |UpTo(s, delimiters[i])|
      ensures i < j ==> |UpTo(s, delimiters[i])| == |s|
    {
      OccursBefore(s, end, delimiters[i]);
    }
  }

  /** The parts of a text around the end of its token. */
  lemma TokenParts(start: string, delimiters: string)
    requires start != "" && start[0] !in delimiters
    ensures var end, j := EndOfToken(start, delimiters), FirstListed(start, delimiters);
      && start[..end] != ""
      && (end < |start| <==> j < |delimiters|)
      && (j < |delimiters| ==>
            start == start[..end] + [delimiters[j]] + start[end + 1..] && delimiters[j] !in start[..end])
  {
    hide UpTo, EndOfToken, FirstListed;
    EndAtFirstListed(start, delimiters);
    var j := FirstListed(start, delimiters);
    if j < |delimiters| {
      OccursBefore(start, 0, delimiters[j]);
      UpToSplits(start, delimiters[j]);
    }
  }

  /** With any list of delimiters: a run of delimiters is skipped, and the token ends at the first
      listed one that occurs behind it, or at the end.  So the token is free of delimiters if and
      only if that one stands no later than every other one of the list, or none occurs. */
  lemma ManyDelimiters(s: string, delimiters: string)
    requires delimiters != ""
    ensures var t, n := NextToken(s, delimiters), Skipped(s, delimiters);
      var j := FirstListed(s[n..], delimiters);
      && (t.None? <==> n == |s|)
      && (t.Some? ==>
            && t.text != "" && (Free(t.text, delimiters) <==> FirstIsNearest(s[n..], delimiters))
            && if j < |delimiters| then s[n..] == t.text + [delimiters[j]] + t.rest && delimiters[j] !in t.text
               else s[n..] == t.text && t.rest == "")
  {
    hide UpTo, EndOfToken, FirstListed, Skipped, FirstIsNearest, Free;
    var n := Skipped(s, delimiters);
    var start := s[n..];
    if n < |s| {
      TokenParts(start, delimiters);
      TokenFree(start, delimiters);
      assert start[..|start|] == start;
    }
  }

  /** An input of the failing family: the token runs past the nearest delimiter. */
  lemma ListOrderDecides(a: string, b: string, c: string, near: char, first: char)
    requires near != first && near !in a && first !in a && first !in b && a != ""
    ensures NextToken(a + [near] + b + [first] + c, [first, near]) == Some(a + [near] + b, c)
  {
    var s := a + [near] + b + [first] + c;
    assert s[0] == a[0];
    assert Skipped(s, [first, near]) == 0;
    var n := |a| + 1 + |b|;
    assert s[..n] == a + [near] + b;
    UpToIs(s, n, first);
    assert s[0..] == s && s[n + 1..] == c;
  }

  class Tokenizer {
    const inputString: string
    var currentPos: nat

    ghost predicate Valid()
      reads this
    {
      currentPos <= |inputString|
    }

    constructor (input: string)
      ensures Valid() && inputString == input && currentPos == 0
    {
      inputString, currentPos := input, 0;
    }

    /** STRING_TOKENIZER_get_next_token. */
    method GetNextToken(delimiters: string) returns (ok: bool, output: string)
      requires Valid()
      modifies this
      ensures Valid()
      ensures var t := NextToken(old(inputString[currentPos..]), delimiters);
        ok == t.Some? && (ok ==> output == t.text && inputString[currentPos..] == t.rest)
    {
      hide Skipped, EndOfToken;
      var text := inputString[currentPos..];
      output := "";
      if text == "" || delimiters == "" {
        return false, output;
      }
      var i := SkipDelimiters(text, delimiters);
      currentPos := currentPos + i;
      var start := text[i..];
      if start == "" {
        return false, output;
      }
      assert inputString[currentPos..] == start;
      var found, amount := FindEnd(start, delimiters);
      output := start[..amount];
      currentPos := currentPos + amount + if found then 1 else 0;
      ok := true;
    }
  }

  /** The loop over the leading delimiters. */
  method SkipDelimiters(text: string, delimiters: string) returns (i: nat)
    ensures i == Skipped(text, delimiters)
  {
    i := 0;
    assert text[0..] == text;
    while i < |text| && text[i] in delimiters
      invariant 0 <= i <= |text| && Skipped(text, delimiters) == i + Skipped(text[i..], delimiters)
    {
      assert text[i..][1..] == text[i + 1..];
      i := i + 1;
    }
  }

  /** The loop over the list of delimiters. */
  method FindEnd(start: string, delimiters: string) returns (found: bool, amount: nat)
    ensures amount == EndOfToken(start, delimiters) && found == (amount < |start|)
  {
    hide UpTo;
    var j := 0;
    assert delimiters[0..] == delimiters;
    while j < |delimiters|
      invariant 0 <= j <= |delimiters| && EndOfToken(start, delimiters) == EndOfToken(start, delimiters[j..])
    {
      assert delimiters[j..][1..] == delimiters[j + 1..];
      amount := |UpTo(start, delimiters[j])|;
      if amount < |start| {
        return true, amount;
      }
      j := j + 1;
    }
    found, amount := false, |start|;
  }
}
