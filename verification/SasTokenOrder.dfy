/** Tokens whose three fields stand in any order (sastoken.c): which of them the scanner accepts. */
module SasTokenOrder {
  import opened CrtAbstractions
  import opened SasToken

  datatype Kind = Se | Sr | Sig

  datatype Part = Part(kind: Kind, value: string)

  function Mark(k: Kind): string {
    match k
    case Se => "se="
    case Sr => "sr="
    case Sig => "sig="
  }

  /** Three fields behind a front, with a separator between each two. */
  function Token(front: string, a: Part, x: char, b: Part, y: char, c: Part): string {
    front + Mark(a.kind) + a.value + [x] + Mark(b.kind) + b.value + [y] + Mark(c.kind) + c.value
  }

  predicate IsSeparator(c: char) {
    c == ' ' || c == '&'
  }

  /** One field of each kind, and no marker anywhere else. */
  predicate Regular(front: string, a: Part, x: char, b: Part, y: char, c: Part) {
    && a.kind != b.kind && b.kind != c.kind && a.kind != c.kind && IsSeparator(x) && IsSeparator(y)
    && NoMarker(front) && NoMarker(a.value) && NoMarker(b.value) && NoMarker(c.value)
  }

  /** What the scanner takes of a field: all of it before a space, one character less before an ampersand. */
  function Taken(value: string, separator: char): string {
    if separator == '&' then (if value == "" then "" else value[..|value| - 1]) else value
  }

  /** What it takes for the expiry. */
  function ExpiryText(a: Part, x: char, b: Part, y: char, c: Part): string {
    if a.kind.Se? then Taken(a.value, x) else if b.kind.Se? then Taken(b.value, y) else c.value
  }

  predicate InTime(text: string, now: int) {
    var expiry := Expiry(UpTo(text, '&'));
    expiry > 0 && now <= expiry
  }

  // ---- the scan ----

  const NONE := Fields(-1, -1, -1, -1, -1, -1)

  function Opened(f: Fields, k: Kind, start: int): Fields {
    match k
    case Se => f.(seStart := start)
    case Sr => f.(srStart := start)
    case Sig => f.(sigStart := start)
  }

  function Stopped(f: Fields, k: Kind, stop: int): Fields {
    match k
    case Se => f.(seStop := stop)
    case Sr => f.(srStop := stop)
    case Sig => f.(sigStop := stop)
  }

  lemma MarkSteps(t: string, i: nat, k: Kind)
    requires Holds(t, i, Mark(k))
    ensures Scan(t, i + |Mark(k)|) == Step(t, i, Scan(t, i))
    ensures Marker(t, i, Mark(k)) && forall j: Kind :: j != k ==> !Marker(t, i, Mark(j))
  {
    hide Step, Marker;
    var m := Mark(k);
    HoldsIsMarker(t, i, m, 0);
    assert m[0..] == m;
    forall j: Kind | j != k
      ensures !Marker(t, i, Mark(j))
    {
      OneMarker(t, i, m, Mark(j));
    }
    HoldsIsMarker(t, i, m, 1);
    assert "se="[1..] == "e=" && "sr="[1..] == "r=" && "sig="[1..] == "ig=";
    RestQuiet(t, i, k);
    assert Scan(t, i + 1) == Step(t, i, Scan(t, i));
  }

  lemma RestQuiet(t: string, i: nat, k: Kind)
    requires Holds(t, i, Mark(k)) && Marker(t, i + 1, Mark(k)[1..])
    ensures Scan(t, i + |Mark(k)|) == Scan(t, i + 1)
  {
    hide Scan;
    var rest := Mark(k)[1..];
    assert Holds(t, i + 1, rest);
    QuietText(t, i + 1, rest, |rest|);
  }

  /** The first marker opens its field. */
  lemma StepFirst(t: string, i: nat, k: Kind)
    requires Marker(t, i, Mark(k)) && forall j: Kind :: j != k ==> !Marker(t, i, Mark(j))
    ensures Step(t, i, NONE) == Opened(NONE, k, i + |Mark(k)|)
  {
    hide Marker;
    assert Mark(Se) == "se=" && Mark(Sr) == "sr=" && Mark(Sig) == "sig=";
  }

  /** A separated marker opens its field, and closes the one that is open. */
  lemma StepNext(t: string, i: nat, f: Fields, open: Kind, k: Kind)
    requires i > 0 && Separated(t, i) && open != k
    requires Marker(t, i, Mark(k)) && forall j: Kind :: j != k ==> !Marker(t, i, Mark(j))
    requires OnlyOpen(f, open)
    ensures Step(t, i, f) == Stopped(Opened(f, k, i + |Mark(k)|), open, StopBefore(t, i))
  {
    hide Marker, Separated, StopBefore;
    assert Mark(Se) == "se=" && Mark(Sr) == "sr=" && Mark(Sig) == "sig=";
  }

  predicate OnlyOpen(f: Fields, k: Kind) {
    && (f.seStart > 0 && f.seStop < 0 <==> k == Se)
    && (f.srStart > 0 && f.srStop < 0 <==> k == Sr)
    && (f.sigStart > 0 && f.sigStop < 0 <==> k == Sig)
  }

  /** A marker, the value behind it and the separator behind that. */
  lemma FieldScanned(t: string, i: nat, k: Kind, value: string, end: nat)
    requires end == i + |Mark(k)| + |value| && end <= |t|
    requires Holds(t, i, Mark(k)) && Holds(t, i + |Mark(k)|, value) && NoMarker(value)
    requires end < |t| ==> IsSeparator(t[end])
    ensures Scan(t, end) == Step(t, i, Scan(t, i))
    ensures end < |t| ==> Scan(t, end + 1) == Scan(t, end)
    ensures Marker(t, i, Mark(k)) && forall j: Kind :: j != k ==> !Marker(t, i, Mark(j))
  {
    hide Scan, Step, Holds, NoMarker, Marker, Mark;
    MarkSteps(t, i, k);
    QuietSegment(t, i + |Mark(k)|, value, |value|);
    if end < |t| {
      QuietStep(t, end);
    }
  }

  /** Where the parts of a token are. */
  ghost predicate Laid(t: string, front: string, a: Part, x: char, b: Part, y: char, c: Part, ea: nat, eb: nat) {
    && ea == |front| + |Mark(a.kind)| + |a.value| && eb == ea + 1 + |Mark(b.kind)| + |b.value|
    && |t| == eb + 1 + |Mark(c.kind)| + |c.value|
    && Holds(t, 0, front) && Holds(t, |front|, Mark(a.kind)) && Holds(t, |front| + |Mark(a.kind)|, a.value) && t[ea] == x
    && Holds(t, ea + 1, Mark(b.kind)) && Holds(t, ea + 1 + |Mark(b.kind)|, b.value) && t[eb] == y
    && Holds(t, eb + 1, Mark(c.kind)) && Holds(t, eb + 1 + |Mark(c.kind)|, c.value)
  }

  /** A field in the middle of a text, with the separator behind it. */
  lemma FieldHolds(t: string, before: string, k: Kind, value: string, separator: char)
    requires before + Mark(k) + value + [separator] <= t
    ensures before <= t && Holds(t, |before|, Mark(k)) && Holds(t, |before| + |Mark(k)|, value)
    ensures |t| > |before| + |Mark(k)| + |value| && t[|before| + |Mark(k)| + |value|] == separator
  {
    hide Holds, Mark;
    PrefixHolds(t, before + Mark(k) + value, [separator]);
    PrefixHolds(t, before + Mark(k), value);
    PrefixHolds(t, before, Mark(k));
    HoldsAt(t, |before + Mark(k) + value|, [separator], 0);
  }

  /** The last field, and what stands before it. */
  lemma LastHolds(t: string, before: string, k: Kind, value: string)
    requires t == before + Mark(k) + value
    ensures before <= t && |t| == |before| + |Mark(k)| + |value|
    ensures Holds(t, |before|, Mark(k)) && Holds(t, |before| + |Mark(k)|, value)
  {
    hide Holds, Mark;
    PrefixHolds(t, before + Mark(k), value);
    PrefixHolds(t, before, Mark(k));
  }

  lemma FrontHolds(t: string, front: string)
    requires front <= t
    ensures Holds(t, 0, front)
  {
  }

  lemma TokenLaid(front: string, a: Part, x: char, b: Part, y: char, c: Part) returns (ea: nat, eb: nat)
    ensures Laid(Token(front, a, x, b, y, c), front, a, x, b, y, c, ea, eb)
  {
    hide Holds, Mark;
    var t := Token(front, a, x, b, y, c);
    var first := front + Mark(a.kind) + a.value + [x];
    var second := first + Mark(b.kind) + b.value + [y];
    LastHolds(t, second, c.kind, c.value);
    FieldHolds(t, first, b.kind, b.value, y);
    FieldHolds(t, front, a.kind, a.value, x);
    FrontHolds(t, front);
    ea, eb := |first| - 1, |second| - 1;
  }

  lemma FrontScanned(t: string, front: string, k: Kind)
    requires Holds(t, 0, front) && Holds(t, |front|, Mark(k)) && NoMarker(front)
    ensures Scan(t, |front|) == NONE
  {
    hide Scan, NoMarker, Marker, Step;
    StartOfScan(t);
    HoldsFits(t, |front|, Mark(k));
    HoldsAt(t, |front|, Mark(k), 0);
    QuietSegment(t, 0, front, |front|);
  }

  /** Where a field ends for the scanner when a separator stands at `end`. */
  function StopAt(end: nat, separator: char): int {
    if separator == ' ' then end else end - 1
  }

  /** Each field is opened behind its marker, and closed by the next one. */
  lemma ScanLaid(t: string, front: string, a: Part, x: char, b: Part, y: char, c: Part, ea: nat, eb: nat)
    requires Regular(front, a, x, b, y, c) && Laid(t, front, a, x, b, y, c, ea, eb)
    ensures Scan(t, |t|) ==
      Stopped(Opened(Stopped(Opened(Opened(NONE, a.kind, ea - |a.value|), b.kind, eb - |b.value|), a.kind, StopAt(ea, x)),
                     c.kind, |t| - |c.value|), b.kind, StopAt(eb, y))
  {
    hide Scan, Step, Holds, NoMarker, Marker;
    FrontScanned(t, front, a.kind);
    FieldScanned(t, |front|, a.kind, a.value, ea);
    StepFirst(t, |front|, a.kind);
    FieldScanned(t, ea + 1, b.kind, b.value, eb);
    StepNext(t, ea + 1, Opened(NONE, a.kind, ea - |a.value|), a.kind, b.kind);
    FieldScanned(t, eb + 1, c.kind, c.value, |t|);
    var f := Stopped(Opened(Opened(NONE, a.kind, ea - |a.value|), b.kind, eb - |b.value|), a.kind, StopAt(ea, x));
    StepNext(t, eb + 1, f, b.kind, c.kind);
  }

  lemma TakenFrom(t: string, at: nat, value: string, x: char)
    requires Holds(t, at, value) && IsSeparator(x)
    ensures var stop := StopAt(at + |value|, x);
      (at < stop <==> Taken(value, x) != "") && (at < stop ==> t[at..stop] == Taken(value, x))
  {
    var stop := StopAt(at + |value|, x);
    if at < stop {
      assert t[at..stop] == t[at..at + |value|][..stop - at];
    }
  }

  /** Acceptance by the places at which the three fields start and stop. */
  lemma AcceptsPlaces(t: string, a: Kind, sa: nat, ta: nat, b: Kind, sb: nat, tb: nat, c: Kind, sc: nat, now: int)
    requires a != b && b != c && a != c && sa <= ta + 1 && ta <= |t| && sb <= tb + 1 && tb <= |t| && sc <= |t|
    requires Scan(t, |t|) == Stopped(Opened(Stopped(Opened(Opened(NONE, a, sa), b, sb), a, ta), c, sc), b, tb)
    ensures Accepts(t, now)
       <==> sa < ta && sb < tb && sc < |t| && InTime(if a.Se? then t[sa..ta] else if b.Se? then t[sb..tb] else t[sc..|t|], now)
  {
    hide Scan, Expiry, UpTo;
  }

  /** A token with its fields in any order is accepted if and only if something is taken of each field, and what is
      taken of the expiry is a number that is not over. */
  lemma AcceptedInOrder(front: string, a: Part, x: char, b: Part, y: char, c: Part, now: int)
    requires Regular(front, a, x, b, y, c)
    ensures Accepts(Token(front, a, x, b, y, c), now)
       <==> Taken(a.value, x) != "" && Taken(b.value, y) != "" && c.value != "" && InTime(ExpiryText(a, x, b, y, c), now)
  {
    hide Scan, Holds, Token, InTime, Taken, NoMarker, Accepts, Opened, Stopped;
    var t := Token(front, a, x, b, y, c);
    var ea, eb := TokenLaid(front, a, x, b, y, c);
    ScanLaid(t, front, a, x, b, y, c, ea, eb);
    TakenFrom(t, ea - |a.value|, a.value, x);
    TakenFrom(t, eb - |b.value|, b.value, y);
    LastTaken(t, |t| - |c.value|, c.value);
    AcceptsPlaces(t, a.kind, ea - |a.value|, StopAt(ea, x), b.kind, eb - |b.value|, StopAt(eb, y), c.kind, |t| - |c.value|, now);
  }

  lemma LastTaken(t: string, at: nat, value: string)
    requires Holds(t, at, value) && |t| == at + |value|
    ensures t[at..|t|] == value
  {
  }

  // ---- the expiry ----

  lemma DecimalFront(n: nat)
    ensures Decimal(n)[..|Decimal(n)| - 1] == if n < 10 then "" else Decimal(n / 10)
  {
  }

  lemma NumberInTime(n: nat, now: int)
    ensures InTime(Decimal(n), now) <==> n > 0 && now <= n
  {
    hide Decimal, Number, AllDigits, UpTo;
    DecimalNumber(n);
    forall i | 0 <= i < |Decimal(n)|
      ensures Decimal(n)[i] != '&'
    {
      DecimalAt(n, i);
    }
    assert Decimal(n)[..|Decimal(n)|] == Decimal(n);
    UpToIs(Decimal(n), |Decimal(n)|, '&');
  }

  /** What is read of the expiry: before an ampersand its last digit is missing. */
  lemma ExpiryTaken(n: nat, separator: char, now: int)
    ensures Taken(Decimal(n), separator) != "" && InTime(Taken(Decimal(n), separator), now)
       <==> if separator == '&' then n >= 10 && now <= n / 10 else n > 0 && now <= n
  {
    hide Decimal, InTime;
    DecimalFront(n);
    NumberInTime(n, now);
    NumberInTime(n / 10, now);
  }

  /** The separator behind a field, NUL behind the last one. */
  function Behind(k: Kind, a: Part, x: char, b: Part, y: char): char {
    if a.kind == k then x else if b.kind == k then y else '\0'
  }

  function ValueOf(k: Kind, a: Part, b: Part, c: Part): string {
    if a.kind == k then a.value else if b.kind == k then b.value else c.value
  }

  /** The order matters: a token with the other fields in it is accepted until its expiry, unless an ampersand stands
      behind that; then it is accepted until a tenth of it. */
  lemma OrderMatters(front: string, a: Part, x: char, b: Part, y: char, c: Part, expiry: nat, now: int)
    requires Regular(front, a, x, b, y, c) && ValueOf(Se, a, b, c) == Decimal(expiry)
    requires |ValueOf(Sr, a, b, c)| > 1 && |ValueOf(Sig, a, b, c)| > 1
    ensures Accepts(Token(front, a, x, b, y, c), now)
       <==> if Behind(Se, a, x, b, y) == '&' then expiry >= 10 && now <= expiry / 10 else expiry > 0 && now <= expiry
  {
    hide Accepts, Token, Decimal, InTime, NoMarker;
    AcceptedInOrder(front, a, x, b, y, c, now);
    ExpiryTaken(expiry, Behind(Se, a, x, b, y), now);
  }
}
