/** Number parsing and printing (crt_abstractions.c): strtoull_s and size_tToString.
    A string argument is its characters up to, and without, the terminating NUL. */
module CrtAbstractions {

  const ULLONG_MAX: nat := 0xFFFF_FFFF_FFFF_FFFF

  /** The text of a C string: no NUL, one byte a character. */
  predicate IsText(s: string) {
    forall i :: 0 <= i < |s| ==> 0 < s[i] as int < 256
  }

  /** The characters before the first c; the text of a C string when c is NUL. */
  function UpTo(s: string, c: char): (r: string)
    ensures r <= s && c !in r
    ensures |r| < |s| ==> s[|r|] == c
  {
    if s == "" || s[0] == c then "" else [s[0]] + UpTo(s[1..], c)
  }

  lemma {:induction false} UpToIs(s: string, n: nat, c: char)
    requires n <= |s| && c !in s[..n] && (n < |s| ==> s[n] == c)
    ensures UpTo(s, c) == s[..n]
  {
    if n > 0 {
      assert s[0] == s[..n][0];
      assert s[1..][..n - 1] == s[..n][1..];
      UpToIs(s[1..], n - 1, c);
    }
  }

  /** Text written to a buffer at a position, up to the position returned. */
  method CopyText(buffer: array<char>, pos: nat, text: string) returns (next: nat)
    requires pos + |text| <= buffer.Length
    modifies buffer
    ensures next == pos + |text| && buffer[..next] == old(buffer[..pos]) + text
  {
    for i := 0 to |text|
      invariant buffer[..pos + i] == old(buffer[..pos]) + text[..i]
    {
      buffer[pos + i] := text[i];
    }
    next := pos + |text|;
  }

  // ---- positional notation ----

  /** DIGIT_VAL; -1 for a character that is no digit in any base. */
  function DigitVal(c: char): int {
    if '0' <= c <= '9' then c as int - 48
    else if 'a' <= c <= 'z' then c as int - 97 + 10
    else if 'A' <= c <= 'Z' then c as int - 65 + 10
    else -1
  }

  /** IN_BASE_RANGE. */
  predicate IsDigit(c: char, base: int) {
    0 <= DigitVal(c) < base
  }

  /** The digits of the largest base, in both cases. */
  function LowerDigit(d: nat): char
    requires d < 36
  {
    if d < 12 then "0123456789ab"[d] else if d < 24 then "cdefghijklmn"[d - 12] else "opqrstuvwxyz"[d - 24]
  }

  function UpperDigit(d: nat): char
    requires d < 36
  {
    if d < 12 then "0123456789AB"[d] else if d < 24 then "CDEFGHIJKLMN"[d - 12] else "OPQRSTUVWXYZ"[d - 24]
  }

  lemma LowerPlace(d: nat)
    requires d < 36
    ensures LowerDigit(d) as int == if d < 10 then 48 + d else 87 + d
  {
  }

  lemma UpperPlace(d: nat)
    requires d < 36
    ensures UpperDigit(d) as int == if d < 10 then 48 + d else 55 + d
  {
  }

  /** A digit stands for its place, and no other character does. */
  lemma DigitPlaces(c: char, d: nat)
    requires d < 36
    ensures DigitVal(c) == d <==> c == LowerDigit(d) || c == UpperDigit(d)
  {
    hide LowerDigit, UpperDigit;
    LowerPlace(d);
    UpperPlace(d);
  }

  predicate AllDigits(s: string, base: int) {
    forall i :: 0 <= i < |s| ==> IsDigit(s[i], base)
  }

  function Number(s: string, base: nat): nat
    requires AllDigits(s, base)
  {
    if s == "" then 0 else Number(s[..|s| - 1], base) * base + DigitVal(s[|s| - 1])
  }

  function Digit(d: nat): char
    requires d < 10
  {
    (48 + d) as char
  }

  /** The decimal numeral of n, without leading zeros. */
  function Decimal(n: nat): (s: string)
    ensures |s| >= 1
  {
    (if n < 10 then "" else Decimal(n / 10)) + [Digit(n % 10)]
  }

  /** A numeral denotes the number it was made from. */
  lemma {:induction false} DecimalNumber(n: nat)
    ensures AllDigits(Decimal(n), 10) && Number(Decimal(n), 10) == n
  {
    var front := Decimal(n)[..|Decimal(n)| - 1];
    if n >= 10 {
      DecimalNumber(n / 10);
      assert front == Decimal(n / 10);
    } else {
      assert front == "";
    }
  }

  lemma DecimalAt(n: nat, k: nat)
    requires k < |Decimal(n)|
    ensures '0' <= Decimal(n)[k] <= '9'
  {
    DecimalNumber(n);
    assert IsDigit(Decimal(n)[k], 10);
  }

  function PowerOf10(k: nat): nat {
    if k == 0 then 1 else 10 * PowerOf10(k - 1)
  }

  lemma {:induction false} DigitCount(n: nat, k: nat)
    requires 0 < k
    ensures |Decimal(n)| <= k <==> n < PowerOf10(k)
  {
    if k == 1 {
      assert n >= 10 ==> |Decimal(n / 10)| >= 1;
    } else if n >= 10 {
      DigitCount(n / 10, k - 1);
    } else {
      PowerAtLeast10(k);
    }
  }

  lemma {:induction false} PowerAtLeast10(k: nat)
    requires k > 0
    ensures PowerOf10(k) >= 10
  {
    if k > 1 {
      PowerAtLeast10(k - 1);
    }
  }

  // ---- size_tToString ----

  function Reversed(s: string): (r: string)
    ensures |r| == |s|
  {
    if s == "" then "" else Reversed(s[1..]) + [s[0]]
  }

  lemma {:induction false} ReversedAt(s: string, k: nat)
    requires k < |s|
    ensures Reversed(s)[k] == s[|s| - 1 - k]
  {
    if k < |s| - 1 {
      ReversedAt(s[1..], k);
    }
  }

  lemma {:induction false} ReversedPush(s: string, c: char)
    ensures Reversed(s + [c]) == [c] + Reversed(s)
  {
    if s == "" {
      assert [c][1..] == "";
    } else {
      ReversedPush(s[1..], c);
      assert (s + [c])[1..] == s[1..] + [c];
    }
  }

  /** The digits of what is left of a number, none when nothing is left. */
  function Rest(value: nat): string {
    if value == 0 then "" else Decimal(value)
  }

  lemma DecimalStep(value: nat)
    ensures Decimal(value) == Rest(value / 10) + [Digit(value % 10)]
    ensures value / 10 > 0 ==> Rest(value / 10) == Decimal(value / 10)
  {
    hide Digit;
  }

  lemma PushDigit(size: nat, value: nat, digits: string)
    requires Decimal(size) == Decimal(value) + Reversed(digits)
    ensures Decimal(size) == Rest(value / 10) + Reversed(digits + [Digit(value % 10)])
    ensures value / 10 > 0 ==> Decimal(size) == Decimal(value / 10) + Reversed(digits + [Digit(value % 10)])
  {
    hide *;
    DecimalStep(value);
    var front, last := Rest(value / 10), Digit(value % 10);
    ReversedPush(digits, last);
    assert front + ([last] + Reversed(digits)) == front + [last] + Reversed(digits);
  }

  lemma RestLength(value: nat)
    ensures value > 0 ==> |Rest(value)| > 0
    ensures value == 0 ==> Rest(value) == ""
  {
  }

  lemma ReversedNone()
    ensures Reversed("") == ""
  {
  }

  /** The swapping loop of size_tToString. */
  method ReverseInPlace(a: array<char>, pos: nat)
    requires 0 < pos <= a.Length
    modifies a
    ensures a[..pos] == Reversed(old(a[..pos])) && forall k :: pos <= k < a.Length ==> a[k] == old(a[k])
  {
    ghost var was := a[..pos];
    var w := 0;
    while w <= (pos - 1) / 2
      invariant 0 <= w <= (pos - 1) / 2 + 1
      invariant forall k :: 0 <= k < w ==> a[k] == was[pos - 1 - k] && a[pos - 1 - k] == was[k]
      invariant forall k :: w <= k < pos - w ==> a[k] == was[k]
      invariant forall k :: pos <= k < a.Length ==> a[k] == old(a[k])
    {
      var temp := a[w];
      a[w] := a[pos - 1 - w];
      a[pos - 1 - w] := temp;
      w := w + 1;
    }
    forall k | 0 <= k < pos
      ensures a[k] == Reversed(was)[k]
    {
      ReversedAt(was, k);
    }
  }

  /** size_tToString: succeeds exactly when the numeral and its NUL fit. */
  method SizeToString(destination: array<char>, size: nat) returns (ok: bool)
    modifies destination
    ensures ok == (|Decimal(size)| < destination.Length)
    ensures ok ==> destination[..|Decimal(size)| + 1] == Decimal(size) + ['\0']
  {
    if destination.Length < 2 {
      return false;
    }
    hide Decimal, Reversed, Rest, Digit;
    var value, pos, more := size, 0, true;
    ReversedNone();
    while more
      invariant 0 <= pos < destination.Length && (more ==> pos < destination.Length - 1)
      invariant more ==> Decimal(size) == Decimal(value) + Reversed(destination[..pos])
      invariant !more ==> pos > 0 && Decimal(size) == Rest(value) + Reversed(destination[..pos])
      invariant !more ==> value == 0 || pos == destination.Length - 1
      decreases more, destination.Length - pos
    {
      PushDigit(size, value, destination[..pos]);
      destination[pos] := Digit(value % 10);
      assert destination[..pos + 1] == destination[..pos] + [Digit(value % 10)];
      pos := pos + 1;
      value := value / 10;
      more := value > 0 && pos < destination.Length - 1;
    }
    RestLength(value);
    if value == 0 {
      ghost var digits := destination[..pos];
      assert "" + Reversed(digits) == Reversed(digits);
      destination[pos] := '\0';
      assert destination[..pos] == digits;
      ReverseInPlace(destination, pos);
      assert destination[..pos + 1] == destination[..pos] + [destination[pos]];
      return true;
    }
    return false;
  }

  // ---- strtoull_s ----

  /** Characters before the first one that is no digit in the base. */
  function DigitRun(s: string, base: int): (n: nat)
    ensures n <= |s| && AllDigits(s[..n], base)
    ensures n < |s| ==> !IsDigit(s[n], base)
  {
    if s == "" || !IsDigit(s[0], base) then 0
    else
      var n := 1 + DigitRun(s[1..], base);
      assert forall i :: 1 <= i < n ==> s[..n][i] == s[1..][..n - 1][i - 1];
      n
  }

  predicate IsSpace(c: char) {
    c == ' ' || c == '\U{000C}' || c == '\n' || c == '\r' || c == '\t' || c == '\U{000B}'
  }

  /** The six characters that isspace knows in the C locale. */
  lemma Spaces(c: char)
    ensures IsSpace(c) <==> 9 <= c as int <= 13 || c as int == 32
  {
  }

  function SpaceRun(s: string): (n: nat)
    ensures n <= |s|
  {
    if s == "" || !IsSpace(s[0]) then 0 else 1 + SpaceRun(s[1..])
  }

  /** Where the digits start, the base in force there, and whether a minus sign came before. */
  datatype Subject = Subject(start: nat, base: nat, negative: bool)

  /** A character of the string or its NUL. */
  function At(s: string, i: nat): char {
    if i < |s| then s[i] else '\0'
  }

  /** "0x" selects base 16 where that is allowed and a leading "0" selects base 8. */
  function BaseAt(s: string, i: nat, base: nat): (nat, nat) {
    if At(s, i) == '0' && (At(s, i + 1) == 'x' || At(s, i + 1) == 'X') then
      if base == 0 || base == 16 then (i + 2, 16) else (i, base)
    else if At(s, i) == '0' && (base == 0 || base == 8) then (i + 1, 8)
    else (i, if base == 0 then 10 else base)
  }

  function SubjectOf(s: string, base: nat): (r: Subject)
    requires base == 0 || 2 <= base <= 36
    ensures r.start <= |s| && 2 <= r.base <= 36
  {
    var i := SpaceRun(s);
    var signed := At(s, i) == '+' || At(s, i) == '-';
    var (start, b) := BaseAt(s, if signed then i + 1 else i, base);
    Subject(start, b, At(s, i) == '-')
  }

  /** What strtoull_s returns: the value, how many characters it consumed, and errno == ERANGE. */
  datatype Parsed = Parsed(value: nat, consumed: nat, outOfRange: bool)

  function Parse(s: string, base: int): Parsed {
    if !(base == 0 || 2 <= base <= 36) then Parsed(0, 0, false)
    else
      var subject := SubjectOf(s, base);
      var n := DigitRun(s[subject.start..], subject.base);
      var v := Number(s[subject.start..][..n], subject.base);
      if n == 0 then Parsed(0, 0, false)
      else Parsed(if subject.negative then (ULLONG_MAX + 1 - Saturated(v)) % (ULLONG_MAX + 1) else Saturated(v),
                  subject.start + n, v > ULLONG_MAX)
  }

  /** The overflow test by division is exact. */
  lemma DivisionTest(result: nat, d: nat, base: nat)
    requires d < base <= 36
    ensures (ULLONG_MAX - d) / base < result <==> result * base + d > ULLONG_MAX
  {
    var q := (ULLONG_MAX - d) / base;
    assert ULLONG_MAX - d == q * base + (ULLONG_MAX - d) % base;
    if q < result {
      assert (q + 1) * base <= result * base;
    } else {
      assert result * base <= q * base;
    }
  }

  function Saturated(v: nat): nat {
    if v > ULLONG_MAX then ULLONG_MAX else v
  }

  /** One digit more, on exact and on saturated values alike. */
  lemma SaturatedStep(v: nat, d: nat, base: nat)
    requires 2 <= base <= 36 && d < base
    ensures (ULLONG_MAX - d) / base < Saturated(v) <==> v * base + d > ULLONG_MAX
    ensures v > ULLONG_MAX ==> v * base + d > ULLONG_MAX
  {
    DivisionTest(Saturated(v), d, base);
    if v > ULLONG_MAX {
      assert v * base >= ULLONG_MAX * base > ULLONG_MAX;
    }
  }

  lemma NumberStep(s: string, k: nat, base: nat)
    requires k < |s| && AllDigits(s[..k + 1], base)
    ensures AllDigits(s[..k], base) && Number(s[..k + 1], base) == Number(s[..k], base) * base + DigitVal(s[k])
  {
    assert s[..k + 1][..k] == s[..k];
    forall i | 0 <= i < k
      ensures IsDigit(s[..k][i], base)
    {
      assert s[..k][i] == s[..k + 1][i];
    }
  }

  lemma RunPrefix(s: string, k: nat, base: int)
    requires k <= DigitRun(s, base)
    ensures AllDigits(s[..k], base)
    ensures k < |s| ==> IsDigit(s[k], base) == (k < DigitRun(s, base))
  {
    var n := DigitRun(s, base);
    forall i | 0 <= i < n
      ensures IsDigit(s[i], base)
    {
      assert s[i] == s[..n][i];
    }
  }

  /** The digit loop: the exact value, or ULLONG_MAX and ERANGE when it does not fit. */
  method ConvertDigits(s: string, base: nat) returns (result: nat, runner: nat, range: bool)
    requires 2 <= base <= 36
    ensures runner == DigitRun(s, base) <= |s|
    ensures var v := Number(s[..runner], base);
      range == (v > ULLONG_MAX) && result == Saturated(v)
  {
    hide Saturated, DigitRun, DigitVal, Number;
    result, runner, range := 0, 0, false;
    NumberOfNone(base);
    while runner < |s| && IsDigit(s[runner], base)
      invariant 0 <= runner <= DigitRun(s, base)
      invariant AllDigits(s[..runner], base)
      invariant range == (Number(s[..runner], base) > ULLONG_MAX)
      invariant result == Saturated(Number(s[..runner], base))
    {
      RunPrefix(s, runner, base);
      RunPrefix(s, runner + 1, base);
      NumberStep(s, runner, base);
      var digitVal := DigitVal(s[runner]);
      SaturatedStep(Number(s[..runner], base), digitVal, base);
      SaturatedValue(Number(s[..runner], base));
      SaturatedValue(Number(s[..runner + 1], base));
      if (ULLONG_MAX - digitVal) / base < result {
        result := ULLONG_MAX;
        range := true;
      } else {
        result := result * base + digitVal;
      }
      runner := runner + 1;
    }
    RunPrefix(s, runner, base);
  }

  lemma NumberOfNone(base: nat)
    ensures Number("", base) == 0 && Saturated(0) == 0
  {
  }

  lemma SaturatedValue(v: nat)
    ensures Saturated(v) == if v > ULLONG_MAX then ULLONG_MAX else v
  {
  }

  /** The part of strtoull_s before the digits. */
  method FindSubject(nptr: string, radix: nat) returns (runner: nat, base: nat, isNegative: bool)
    requires radix == 0 || 2 <= radix <= 36
    ensures Subject(runner, base, isNegative) == SubjectOf(nptr, radix)
  {
    hide IsSpace;
    runner, base, isNegative := 0, radix, false;
    assert nptr[0..] == nptr;
    while runner < |nptr| && IsSpace(nptr[runner])
      invariant 0 <= runner <= |nptr| && SpaceRun(nptr) == runner + SpaceRun(nptr[runner..])
    {
      assert nptr[runner..][1..] == nptr[runner + 1..];
      runner := runner + 1;
    }
    if At(nptr, runner) == '+' {
      runner := runner + 1;
    } else if At(nptr, runner) == '-' {
      isNegative := true;
      runner := runner + 1;
    }
    if At(nptr, runner) == '0' {
      if At(nptr, runner + 1) == 'x' || At(nptr, runner + 1) == 'X' {
        if base == 0 || base == 16 {
          base := 16;
          runner := runner + 2;
        }
      } else if base == 0 || base == 8 {
        base := 8;
        runner := runner + 1;
      }
    }
    if base == 0 {
      base := 10;
    }
  }

  /** strtoull_s. */
  method StrToULL(nptr: string, radix: int) returns (value: nat, end: nat, range: bool)
    ensures Parsed(value, end, range) == Parse(nptr, radix)
  {
    hide SubjectOf, Saturated, DigitVal;
    var runner, result, isNegative := 0, 0, false;
    range := false;
    if (radix >= 2 || radix == 0) && radix <= 36 {
      var base: nat;
      runner, base, isNegative := FindSubject(nptr, radix);
      if runner < |nptr| && IsDigit(nptr[runner], base) {
        var count: nat;
        result, count, range := ConvertDigits(nptr[runner..], base);
        SaturatedValue(Number(nptr[runner..][..count], base));
        runner := runner + count;
      } else {
        runner := 0;
      }
    }
    end := runner;
    value := if isNegative then (ULLONG_MAX - result + 1) % (ULLONG_MAX + 1) else result;
  }

  /** An overflowing number is reported as ULLONG_MAX exactly when it carries no minus sign:
      with one, the saturated value is negated and the result is 1. */
  lemma OverflowResult(s: string, base: int)
    requires Parse(s, base).outOfRange
    ensures (Parse(s, base).value == ULLONG_MAX) == !SubjectOf(s, base).negative
    ensures SubjectOf(s, base).negative ==> Parse(s, base).value == 1
  {
  }

  lemma DecimalSubject(d: string)
    requires d != "" && IsDigit(d[0], 10)
    ensures SubjectOf(d, 10) == Subject(0, 10, false) && SubjectOf("-" + d, 10) == Subject(1, 10, true)
  {
    assert ("-" + d)[1] == d[0];
  }

  /** Every number too large for 64 bits, written with a minus sign, parses as 1. */
  lemma ParseNegativeOverflow(n: nat)
    requires n > ULLONG_MAX
    ensures Parse("-" + Decimal(n), 10) == Parsed(1, 1 + |Decimal(n)|, true)
  {
    hide SubjectOf, Decimal, DigitRun, DigitVal, Number;
    var d := Decimal(n);
    DecimalNumber(n);
    DecimalSubject(d);
    RunOf(d, "", 10);
    assert ("-" + d)[1..] == d && d + "" == d && d[..|d|] == d;
  }

  lemma {:induction false} RunOf(d: string, rest: string, base: int)
    requires AllDigits(d, base) && (rest == "" || !IsDigit(rest[0], base))
    ensures DigitRun(d + rest, base) == |d|
  {
    hide DigitVal;
    if d == "" {
      assert d + rest == rest;
    } else {
      assert (d + rest)[0] == d[0];
      assert (d + rest)[1..] == d[1..] + rest;
      RunOf(d[1..], rest, base);
    }
  }

  // ---- against the standard ----

  predicate IsX(c: char) {
    c == 'x' || c == 'X'
  }

  /** The prefix of a hexadecimal constant; it belongs to one only with a digit behind it. */
  predicate HexPrefix(t: string) {
    At(t, 0) == '0' && IsX(At(t, 1)) && IsDigit(At(t, 2), 16)
  }

  /** Length of the prefix, and the base of the digits behind it, by section 7.22.1.4 of
      ISO/IEC 9899:2011; a leading zero is itself an octal digit. */
  function StandardPrefix(t: string, base: nat): (nat, nat) {
    if (base == 0 || base == 16) && HexPrefix(t) then (2, 16)
    else if base == 0 then (0, if At(t, 0) == '0' then 8 else 10)
    else (0, base)
  }

  /** Where the digits or their prefix start, behind white space and one sign. */
  function SignEnd(s: string): (i: nat)
    ensures i <= |s|
  {
    SpaceRun(s) + if At(s, SpaceRun(s)) == '+' || At(s, SpaceRun(s)) == '-' then 1 else 0
  }

  predicate Negative(s: string) {
    At(s, SpaceRun(s)) == '-'
  }

  predicate IsBase(base: int) {
    base == 0 || 2 <= base <= 36
  }

  /** strtoull of section 7.22.1.4 of ISO/IEC 9899:2011. */
  function Standard(s: string, base: int): Parsed {
    if !IsBase(base) then Parsed(0, 0, false)
    else
      var t := s[SignEnd(s)..];
      var (p, b) := StandardPrefix(t, base);
      var n := DigitRun(t[p..], b);
      var v := Number(t[p..][..n], b);
      if n == 0 then Parsed(0, 0, false)
      else if v > ULLONG_MAX then Parsed(ULLONG_MAX, SignEnd(s) + p + n, true)
      else Parsed(if Negative(s) then (ULLONG_MAX + 1 - v) % (ULLONG_MAX + 1) else v, SignEnd(s) + p + n, false)
  }

  /** A zero that starts no longer numeral but is taken for a prefix: "0" in bases 0 and 8, and
      "0x" without a digit behind it in bases 0 and 16. */
  predicate ZeroTaken(t: string, base: int) {
    && At(t, 0) == '0'
    && if IsX(At(t, 1)) then (base == 0 || base == 16) && !IsDigit(At(t, 2), 16)
       else (base == 0 || base == 8) && !IsDigit(At(t, 1), 8)
  }

  lemma SubjectBehind(s: string, base: nat)
    requires IsBase(base)
    ensures var t := s[SignEnd(s)..];
      SubjectOf(s, base) == Subject(SignEnd(s) + BaseAt(t, 0, base).0, BaseAt(t, 0, base).1, Negative(s))
  {
    hide SpaceRun;
    var i := SignEnd(s);
    assert At(s[i..], 0) == At(s, i) && At(s[i..], 1) == At(s, i + 1);
  }

  lemma {:induction false} LeadingZero(u: string, base: nat)
    requires 2 <= base <= 36 && AllDigits(u, base)
    ensures AllDigits("0" + u, base) && Number("0" + u, base) == Number(u, base)
  {
    var z := "0" + u;
    assert DigitVal('0') == 0;
    forall i | 0 <= i < |z|
      ensures IsDigit(z[i], base)
    {
      assert i > 0 ==> z[i] == u[i - 1];
    }
    if u == "" {
      assert z == "0" && z[..0] == "";
    } else {
      var front := u[..|u| - 1];
      LeadingZero(front, base);
      assert z[..|z| - 1] == "0" + front;
    }
  }

  /** Taking the leading zero of an octal numeral for a prefix changes nothing when digits follow. */
  lemma OctalZero(t: string)
    requires t != "" && t[0] == '0'
    ensures DigitRun(t, 8) == 1 + DigitRun(t[1..], 8)
    ensures Number(t[..DigitRun(t, 8)], 8) == Number(t[1..][..DigitRun(t[1..], 8)], 8)
  {
    hide Number;
    var u := t[1..][..DigitRun(t[1..], 8)];
    assert t[..DigitRun(t, 8)] == "0" + u;
    LeadingZero(u, 8);
  }

  /** The code's prefix and the standard's lead to the same digits, unless a zero is taken. */
  lemma PrefixesAgree(t: string, base: nat)
    requires IsBase(base)
    ensures var ((q, c), (p, b)) := (BaseAt(t, 0, base), StandardPrefix(t, base));
      && q <= |t| && p <= |t|
      && if ZeroTaken(t, base) then DigitRun(t[q..], c) == 0 < DigitRun(t[p..], b)
         else (q, c) == (p, b) || (q == 1 && p == 0 && c == b == 8 && t[0] == '0' && DigitRun(t[1..], 8) > 0)
  {
    hide Number;
    assert IsDigit('0', 8) && IsDigit('0', 16) && !IsDigit('\0', 16) && !IsDigit('\0', 8);
    assert t[0..] == t;
    if |t| > 1 {
      assert t[1..][0] == t[1];
      if |t| > 2 {
        assert t[2..][0] == t[2];
      }
    }
  }

  /** strtoull_s on the digits behind a prefix. */
  function Converted(s: string, base: nat, start: nat, negative: bool): Parsed
    requires start <= |s|
  {
    var n := DigitRun(s[start..], base);
    var v := Number(s[start..][..n], base);
    if n == 0 then Parsed(0, 0, false)
    else Parsed(if negative then (ULLONG_MAX + 1 - Saturated(v)) % (ULLONG_MAX + 1) else Saturated(v), start + n, v > ULLONG_MAX)
  }

  lemma ParseIs(s: string, base: nat)
    requires IsBase(base)
    ensures var subject := SubjectOf(s, base);
      Parse(s, base) == Converted(s, subject.base, subject.start, subject.negative)
  {
    hide DigitRun, Number, SubjectOf, Saturated;
  }

  lemma ConvertedOctal(s: string, i: nat, negative: bool)
    requires i < |s| && s[i] == '0' && DigitRun(s[i + 1..], 8) > 0
    ensures Converted(s, 8, i + 1, negative) == Converted(s, 8, i, negative)
  {
    hide DigitRun, Number, Saturated;
    assert s[i..][1..] == s[i + 1..];
    OctalZero(s[i..]);
  }

  lemma SameDigits(s: string, base: nat)
    requires IsBase(base) && !ZeroTaken(s[SignEnd(s)..], base)
    ensures var (p, b) := StandardPrefix(s[SignEnd(s)..], base);
      SignEnd(s) + p <= |s| && Parse(s, base) == Converted(s, b, SignEnd(s) + p, Negative(s))
  {
    hide *;
    var i := SignEnd(s);
    var t := s[i..];
    ParseIs(s, base);
    SubjectBehind(s, base);
    PrefixesAgree(t, base);
    var ((q, c), (p, b)) := (BaseAt(t, 0, base), StandardPrefix(t, base));
    if (q, c) != (p, b) {
      assert t[1..] == s[i + 1..];
      ConvertedOctal(s, i, Negative(s));
    }
  }

  lemma StandardIs(s: string, base: nat)
    requires IsBase(base)
    ensures var (p, b) := StandardPrefix(s[SignEnd(s)..], base);
      && SignEnd(s) + p <= |s|
      && var r := Converted(s, b, SignEnd(s) + p, Negative(s));
         && Standard(s, base).consumed == r.consumed
         && Standard(s, base).outOfRange == r.outOfRange
         && (Standard(s, base) == r <==> !(Negative(s) && r.outOfRange))
  {
    hide DigitRun, Number, SignEnd, Negative;
    var i := SignEnd(s);
    var t := s[i..];
    PrefixesAgree(t, base);
    var (p, b) := StandardPrefix(t, base);
    assert t[p..] == s[i + p..];
  }

  /** strtoull_s reads every text as the standard says if and only if no lone zero is taken for a
      prefix and the number is not both negative and out of range. */
  lemma AgreesWithStandard(s: string, base: int)
    ensures Parse(s, base) == Standard(s, base)
            <==> !(IsBase(base) && ZeroTaken(s[SignEnd(s)..], base)) && !(Negative(s) && Standard(s, base).outOfRange)
  {
    hide DigitRun, Number, SignEnd, Negative, ZeroTaken, SubjectOf, StandardPrefix, BaseAt;
    if IsBase(base) {
      var t := s[SignEnd(s)..];
      StandardIs(s, base);
      if ZeroTaken(t, base) {
        SubjectBehind(s, base);
        PrefixesAgree(t, base);
        assert t[BaseAt(t, 0, base).0..] == s[SignEnd(s) + BaseAt(t, 0, base).0..];
        assert t[StandardPrefix(t, base).0..] == s[SignEnd(s) + StandardPrefix(t, base).0..];
      } else {
        SameDigits(s, base);
      }
    }
  }

  lemma DigitsPlain(d: string, rest: string, base: nat)
    requires 2 <= base <= 36 && d != "" && AllDigits(d, base)
    ensures SignEnd(d + rest) == 0 && !Negative(d + rest) && At(d + rest, 0) == d[0]
  {
    hide DigitRun;
    assert (d + rest)[0] == d[0] && IsDigit(d[0], base);
  }

  /** A run of digits of any base, behind which no digit stands. */
  lemma StandardDigits(d: string, rest: string, base: nat)
    requires 2 <= base <= 36 && d != "" && AllDigits(d, base) && (rest == "" || !IsDigit(rest[0], base))
    requires !(base == 16 && HexPrefix(d + rest))
    ensures Standard(d + rest, base) == Parsed(Saturated(Number(d, base)), |d|, Number(d, base) > ULLONG_MAX)
  {
    hide DigitRun, DigitVal, Number, SignEnd, Negative, HexPrefix;
    var s := d + rest;
    DigitsPlain(d, rest, base);
    RunOf(d, rest, base);
    assert s[0..] == s && s[..|d|] == d;
  }

  /** In bases 2 to 36 a run of digits is read whole, with its exact or saturated value, whatever
      non-digit follows it, if and only if it is not a lone "0" that is taken for a prefix. */
  lemma ParseDigits(d: string, rest: string, base: nat)
    requires 2 <= base <= 36 && d != "" && AllDigits(d, base) && (rest == "" || !IsDigit(rest[0], base))
    ensures Parse(d + rest, base) == Parsed(Saturated(Number(d, base)), |d|, Number(d, base) > ULLONG_MAX)
            <==> !(d == "0" && if base == 8 then !IsX(At(rest, 0)) else base == 16 && IsX(At(rest, 0)))
  {
    var s := d + rest;
    DigitsPlain(d, rest, base);
    DigitsBehind(d, rest, base);
    AgreesWithStandard(s, base);
    hide DigitRun, Number, SignEnd, Negative, DigitVal, SubjectOf, BaseAt, Parse;
    assert s[0..] == s;
    if base == 16 && HexPrefix(s) {
      SameDigits(s, base);
    } else {
      StandardDigits(d, rest, base);
    }
  }

  lemma DigitsBehind(d: string, rest: string, base: nat)
    requires 2 <= base <= 36 && d != "" && AllDigits(d, base) && (rest == "" || !IsDigit(rest[0], base))
    ensures At(d + rest, 1) == if |d| == 1 then At(rest, 0) else d[1]
    ensures |d| > 1 ==> IsDigit(d[1], base)
    ensures !IsDigit(At(rest, 0), base)
  {
  }

  /** strtoull_s in base 10 undoes size_tToString on every number that fits, whatever non-digit
      follows the numeral. */
  lemma ParseDecimal(n: nat, rest: string)
    requires rest == "" || !IsDigit(rest[0], 10)
    ensures Parse(Decimal(n) + rest, 10) == Parsed(Saturated(n), |Decimal(n)|, n > ULLONG_MAX)
  {
    DecimalNumber(n);
    hide Parse, Decimal, Number;
    ParseDigits(Decimal(n), rest, 10);
  }

  lemma {:induction false} DecimalHead(n: nat)
    requires n > 0
    ensures Decimal(n)[0] != '0'
  {
    if n >= 10 {
      DecimalHead(n / 10);
      assert Decimal(n) == Decimal(n / 10) + [Digit(n % 10)];
      assert |Decimal(n / 10)| >= 1;
    }
  }

  lemma ParsedSame(s: string, base: nat, other: nat)
    requires IsBase(base) && IsBase(other) && SubjectOf(s, base) == SubjectOf(s, other)
    ensures Parse(s, base) == Parse(s, other)
  {
    hide SubjectOf, DigitRun, Number, Saturated;
  }

  /** Without a leading zero base 0 means base 10. */
  lemma PlainSubject(d: string, rest: string)
    requires d != "" && AllDigits(d, 10) && d[0] != '0'
    ensures SubjectOf(d + rest, 0) == SubjectOf(d + rest, 10)
  {
    DigitsPlain(d, rest, 10);
    hide SpaceRun, SubjectOf, SignEnd, Negative, DigitVal;
    SubjectBehind(d + rest, 10);
    SubjectBehind(d + rest, 0);
    assert (d + rest)[0..] == d + rest;
  }

  /** In base 0, where the text chooses the base, it undoes it exactly for the numbers above 0. */
  lemma ParseUnprefixed(n: nat, rest: string)
    requires rest == "" || !IsDigit(rest[0], 10)
    ensures Parse(Decimal(n) + rest, 0) == Parsed(Saturated(n), |Decimal(n)|, n > ULLONG_MAX) <==> n > 0
  {
    hide Decimal, Parse, SubjectOf, Number, DigitVal;
    if n > 0 {
      DecimalNumber(n);
      DecimalHead(n);
      PlainSubject(Decimal(n), rest);
      ParsedSame(Decimal(n) + rest, 0, 10);
      ParseDecimal(n, rest);
    } else {
      ZeroNumeral();
      ZeroUnprefixed(rest);
    }
  }

  lemma ZeroUnprefixed(rest: string)
    requires rest == "" || !IsDigit(rest[0], 10)
    ensures Parse("0" + rest, 0).consumed != 1
  {
    var s := "0" + rest;
    assert s[1..] == rest;
    assert SubjectOf(s, 0) == if IsX(At(rest, 0)) then Subject(2, 16, false) else Subject(1, 8, false);
  }

  lemma ZeroNumeral()
    ensures Decimal(0) == "0"
  {
  }

  /** A lone zero in bases 0 and 8. */
  lemma LoneZero(rest: string, base: nat)
    requires base == 0 || base == 8
    requires rest == "" || (!IsDigit(rest[0], 8) && !IsX(rest[0]))
    ensures Parse("0" + rest, base) == Parsed(0, 0, false)
  {
    var s := "0" + rest;
    assert s[1..] == rest;
    assert SubjectOf(s, base) == Subject(1, 8, false);
  }
}
