/** The resilient sender (httpapiex.c): a request climbs the levels init, connect, execute, and
    steps back to retry; the level reached is kept in the handle between requests. */
module HttpApiEx {
  import opened Sequences

  /** A call to the HTTP layer below, with its outcome. */
  datatype Call = Init(ok: bool) | Deinit | Connect(ok: bool) | Close | SetOption(name: string, value: string) | Execute(ok: bool)

  datatype SavedOption = SavedOption(name: string, value: string)

  datatype Result = HTTPAPIEX_OK | HTTPAPIEX_ERROR | HTTPAPIEX_INVALID_ARG | HTTPAPIEX_RECOVERYFAILED

  // ---- the calls of one request ----

  function OptionCalls(options: seq<SavedOption>): (r: seq<Call>)
    ensures |r| == |options|
  {
    seq(|options|, i requires 0 <= i < |options| => SetOption(options[i].name, options[i].value))
  }

  /** A connection that succeeds is handed every saved option, in order. */
  function Connected(options: seq<SavedOption>): seq<Call> {
    [Connect(true)] + OptionCalls(options)
  }

  /** The options that calls hand over, in order. */
  function Handed(t: seq<Call>): seq<SavedOption> {
    if t == [] then []
    else (if t[0].SetOption? then [SavedOption(t[0].name, t[0].value)] else []) + Handed(t[1..])
  }

  lemma {:induction false} AllHanded(options: seq<SavedOption>)
    ensures Handed(OptionCalls(options)) == options
    ensures Connected(options)[0] == Connect(true) && Handed(Connected(options)) == options
  {
    assert Connected(options)[1..] == OptionCalls(options);
    if options != [] {
      AllHanded(options[1..]);
      assert OptionCalls(options)[1..] == OptionCalls(options[1..]);
    }
  }

  predicate FreshSuccess(t: seq<Call>, options: seq<SavedOption>) {
    t == [Init(true)] + Connected(options) + [Execute(true)]
  }

  /** Without a connection each level is tried once. */
  predicate FreshFailure(t: seq<Call>, options: seq<SavedOption>) {
    || t == [Init(false)]
    || t == [Init(true), Connect(false), Deinit]
    || t == [Init(true)] + Connected(options) + [Execute(false), Close, Deinit]
  }

  /** On an old connection the request fails, and so does a new connection under the old init. */
  predicate Retreat(t: seq<Call>, options: seq<SavedOption>) {
    || t == [Execute(false), Close, Connect(false), Deinit]
    || t == [Execute(false), Close] + Connected(options) + [Execute(false), Close, Deinit]
  }

  /** The calls of a successful request. */
  ghost predicate Succeeds(t: seq<Call>, connected: bool, options: seq<SavedOption>) {
    if !connected then FreshSuccess(t, options)
    else
      || t == [Execute(true)]
      || t == [Execute(false), Close] + Connected(options) + [Execute(true)]
      || exists p, q :: Retreat(p, options) && FreshSuccess(q, options) && t == p + q
  }

  /** The calls of a request that could not be recovered. */
  ghost predicate Fails(t: seq<Call>, connected: bool, options: seq<SavedOption>) {
    if !connected then FreshFailure(t, options)
    else exists p, q :: Retreat(p, options) && FreshFailure(q, options) && t == p + q
  }

  // ---- the resources they hold ----

  datatype Level = Down | Up | Open | Broken

  /** Init and Deinit, connection and close bracket each other. */
  function Advance(l: Level, c: Call): Level {
    match c
    case Init(ok) => if l != Down then Broken else if ok then Up else Down
    case Deinit => if l == Up then Down else Broken
    case Connect(ok) => if l != Up then Broken else if ok then Open else Up
    case Close => if l == Open then Up else Broken
    case SetOption(_, _) => if l == Open then Open else Broken
    case Execute(_) => if l == Open then Open else Broken
  }

  function After(l: Level, t: seq<Call>): Level
    decreases |t|
  {
    if t == [] then l else After(Advance(l, t[0]), t[1..])
  }

  lemma {:induction false} AfterConcat(l: Level, a: seq<Call>, b: seq<Call>)
    ensures After(l, a + b) == After(After(l, a), b)
    decreases |a|
  {
    if a == [] {
      assert a + b == b;
    } else {
      assert (a + b)[1..] == a[1..] + b;
      AfterConcat(Advance(l, a[0]), a[1..], b);
    }
  }

  lemma {:induction false} AfterOptions(options: seq<SavedOption>)
    ensures After(Open, OptionCalls(options)) == Open
  {
    if options != [] {
      AfterOptions(options[1..]);
      assert OptionCalls(options)[1..] == OptionCalls(options[1..]);
    }
  }

  lemma AfterOne(l: Level, c: Call)
    ensures After(l, [c]) == Advance(l, c)
  {
    assert After(Advance(l, c), [c][1..]) == Advance(l, c);
  }

  lemma AfterTwo(l: Level, c: Call, d: Call)
    ensures After(l, [c, d]) == Advance(Advance(l, c), d)
  {
    hide After;
    AfterConcat(l, [c], [d]);
    AfterOne(l, c);
    AfterOne(Advance(l, c), d);
    assert [c] + [d] == [c, d];
  }

  lemma AfterThree(l: Level, c: Call, d: Call, e: Call)
    ensures After(l, [c, d, e]) == Advance(Advance(Advance(l, c), d), e)
  {
    hide After;
    AfterConcat(l, [c, d], [e]);
    AfterTwo(l, c, d);
    AfterOne(Advance(Advance(l, c), d), e);
    assert [c, d] + [e] == [c, d, e];
  }

  lemma AfterConnected(options: seq<SavedOption>)
    ensures After(Up, Connected(options)) == Open
  {
    hide After;
    AfterConcat(Up, [Connect(true)], OptionCalls(options));
    AfterOne(Up, Connect(true));
    AfterOptions(options);
  }

  lemma FreshLevels(t: seq<Call>, options: seq<SavedOption>)
    ensures FreshSuccess(t, options) ==> After(Down, t) == Open
    ensures FreshFailure(t, options) ==> After(Down, t) == Down
  {
    hide After, Connected;
    AfterOne(Down, Init(true));
    AfterOne(Down, Init(false));
    AfterThree(Down, Init(true), Connect(false), Deinit);
    AfterConnected(options);
    AfterConcat(Down, [Init(true)], Connected(options));
    AfterConcat(Down, [Init(true)] + Connected(options), [Execute(true)]);
    AfterConcat(Down, [Init(true)] + Connected(options), [Execute(false), Close, Deinit]);
    AfterOne(Open, Execute(true));
    AfterThree(Open, Execute(false), Close, Deinit);
  }

  lemma RetreatLevels(t: seq<Call>, options: seq<SavedOption>)
    requires Retreat(t, options)
    ensures After(Open, t) == Down
  {
    hide After, Connected;
    var first := [Execute(false), Close];
    AfterTwo(Open, Execute(false), Close);
    AfterConcat(Open, first, [Connect(false), Deinit]);
    AfterTwo(Up, Connect(false), Deinit);
    assert first + [Connect(false), Deinit] == [Execute(false), Close, Connect(false), Deinit];
    AfterConnected(options);
    AfterConcat(Open, first, Connected(options));
    AfterConcat(Open, first + Connected(options), [Execute(false), Close, Deinit]);
    AfterThree(Open, Execute(false), Close, Deinit);
  }

  /** Whatever a request goes through, its calls bracket correctly: success leaves a connection
      open, and failure leaves nothing behind. */
  lemma RequestLevels(t: seq<Call>, connected: bool, options: seq<SavedOption>)
    ensures Succeeds(t, connected, options) ==> After(if connected then Open else Down, t) == Open
    ensures Fails(t, connected, options) ==> After(if connected then Open else Down, t) == Down
  {
    hide After, Connected, FreshSuccess, FreshFailure, Retreat;
    FreshLevels(t, options);
    if connected {
      var first := [Execute(false), Close];
      AfterOne(Open, Execute(true));
      AfterTwo(Open, Execute(false), Close);
      AfterConnected(options);
      AfterConcat(Open, first, Connected(options));
      AfterConcat(Open, first + Connected(options), [Execute(true)]);
      if p, q :| Retreat(p, options) && FreshSuccess(q, options) && t == p + q {
        RetreatLevels(p, options);
        FreshLevels(q, options);
        AfterConcat(Open, p, q);
      }
      if p, q :| Retreat(p, options) && FreshFailure(q, options) && t == p + q {
        RetreatLevels(p, options);
        FreshLevels(q, options);
        AfterConcat(Open, p, q);
      }
    }
  }

  // ---- counting ----

  predicate IsInit(c: Call) { c.Init? }

  predicate IsConnect(c: Call) { c.Connect? }

  predicate IsExecute(c: Call) { c.Execute? }

  predicate Initialised(c: Call) { c == Init(true) }

  predicate Deinitialised(c: Call) { c == Deinit }

  predicate Opened(c: Call) { c == Connect(true) }

  predicate Closed(c: Call) { c == Close }

  function Count(t: seq<Call>, p: Call -> bool): nat
    decreases |t|
  {
    if t == [] then 0 else (if p(t[0]) then 1 else 0) + Count(t[1..], p)
  }

  lemma {:induction false} CountConcat(a: seq<Call>, b: seq<Call>, p: Call -> bool)
    ensures Count(a + b, p) == Count(a, p) + Count(b, p)
    decreases |a|
  {
    if a == [] {
      assert a + b == b;
    } else {
      assert (a + b)[1..] == a[1..] + b;
      CountConcat(a[1..], b, p);
    }
  }

  lemma {:induction false} CountOptions(options: seq<SavedOption>, p: Call -> bool)
    requires forall o :: o in options ==> !p(SetOption(o.name, o.value))
    ensures Count(OptionCalls(options), p) == 0
  {
    if options != [] {
      CountOptions(options[1..], p);
      assert OptionCalls(options)[1..] == OptionCalls(options[1..]);
    }
  }

  /** Calls that bracket correctly balance, up to what is still open at the end. */
  lemma {:induction false} Balance(l: Level, t: seq<Call>)
    requires After(l, t) != Broken
    ensures Count(t, Initialised) + (if l == Up || l == Open then 1 else 0)
            == Count(t, Deinitialised) + if After(l, t) == Up || After(l, t) == Open then 1 else 0
    ensures Count(t, Opened) + (if l == Open then 1 else 0)
            == Count(t, Closed) + if After(l, t) == Open then 1 else 0
    decreases |t|
  {
    if t != [] {
      BrokenStays(t[1..]);
      Balance(Advance(l, t[0]), t[1..]);
    }
  }

  lemma {:induction false} BrokenStays(t: seq<Call>)
    ensures After(Broken, t) == Broken
    decreases |t|
  {
    if t != [] {
      BrokenStays(t[1..]);
    }
  }

  /** A weight that is zero on options and at most one on other calls. */
  lemma CountConnected(options: seq<SavedOption>, p: Call -> bool)
    requires forall n, v :: !p(SetOption(n, v))
    ensures Count(Connected(options), p) == if p(Connect(true)) then 1 else 0
  {
    CountOptions(options, p);
    CountConcat([Connect(true)], OptionCalls(options), p);
    assert Count([Connect(true)][1..], p) == 0;
  }

  function One(b: bool): nat {
    if b then 1 else 0
  }

  lemma CountThree(c: Call, d: Call, e: Call, p: Call -> bool)
    ensures Count([c], p) == One(p(c)) && Count([c, d], p) == One(p(c)) + One(p(d))
    ensures Count([c, d, e], p) == One(p(c)) + One(p(d)) + One(p(e))
  {
    CountOne(c, p);
    CountOne(d, p);
    CountOne(e, p);
    hide Count;
    CountConcat([c], [d], p);
    CountConcat([c, d], [e], p);
    assert [c] + [d] == [c, d] && [c, d] + [e] == [c, d, e];
  }

  lemma CountOne(c: Call, p: Call -> bool)
    ensures Count([c], p) == One(p(c))
  {
    assert Count([c][1..], p) == 0;
  }

  /** Attempts of one kind, whatever their outcome. */
  ghost predicate Attempts(p: Call -> bool) {
    && p(Init(true)) == p(Init(false)) && p(Connect(true)) == p(Connect(false)) && p(Execute(true)) == p(Execute(false))
    && !p(Deinit) && !p(Close) && forall n, v :: !p(SetOption(n, v))
  }

  function Weight(p: Call -> bool, inits: nat, connects: nat, executes: nat): nat {
    inits * One(p(Init(true))) + connects * One(p(Connect(true))) + executes * One(p(Execute(true)))
  }

  lemma FreshAttempts(t: seq<Call>, options: seq<SavedOption>, p: Call -> bool)
    requires Attempts(p) && (FreshSuccess(t, options) || FreshFailure(t, options))
    ensures Count(t, p) <= Weight(p, 1, 1, 1)
  {
    hide Count, Connected;
    CountConnected(options, p);
    CountConcat([Init(true)], Connected(options), p);
    CountConcat([Init(true)] + Connected(options), [Execute(true)], p);
    CountConcat([Init(true)] + Connected(options), [Execute(false), Close, Deinit], p);
    CountThree(Init(true), Connect(false), Deinit, p);
    CountThree(Init(false), Connect(false), Deinit, p);
    CountThree(Execute(false), Close, Deinit, p);
    CountThree(Execute(true), Close, Deinit, p);
  }

  lemma RetreatAttempts(t: seq<Call>, options: seq<SavedOption>, p: Call -> bool)
    requires Attempts(p) && Retreat(t, options)
    ensures Count(t, p) <= Weight(p, 0, 1, 2)
  {
    hide Count, Connected;
    var first := [Execute(false), Close];
    CountConnected(options, p);
    CountThree(Execute(false), Close, Deinit, p);
    CountThree(Connect(false), Deinit, Deinit, p);
    assert first + [Connect(false), Deinit] == [Execute(false), Close, Connect(false), Deinit];
    CountConcat(first, [Connect(false), Deinit], p);
    CountConcat(first, Connected(options), p);
    CountConcat(first + Connected(options), [Execute(false), Close, Deinit], p);
  }

  /** One request makes one attempt to init, two to connect and three to execute at most. */
  lemma RequestAttempts(t: seq<Call>, connected: bool, options: seq<SavedOption>, p: Call -> bool)
    requires Attempts(p) && (Succeeds(t, connected, options) || Fails(t, connected, options))
    ensures Count(t, p) <= Weight(p, 1, 2, 3)
  {
    hide Count, Connected, FreshSuccess, FreshFailure, Retreat, Attempts;
    if !connected {
      FreshAttempts(t, options, p);
    } else if p0, q :| Retreat(p0, options) && (FreshSuccess(q, options) || FreshFailure(q, options)) && t == p0 + q {
      RetreatAttempts(p0, options, p);
      FreshAttempts(q, options, p);
      CountConcat(p0, q, p);
    } else {
      SecondAttempt(t, options, p);
    }
  }

  lemma SecondAttempt(t: seq<Call>, options: seq<SavedOption>, p: Call -> bool)
    requires Attempts(p) && (t == [Execute(true)] || t == [Execute(false), Close] + Connected(options) + [Execute(true)])
    ensures Count(t, p) <= Weight(p, 1, 2, 3)
  {
    hide Count, Connected;
    var first := [Execute(false), Close];
    CountConnected(options, p);
    CountThree(Execute(false), Close, Deinit, p);
    CountThree(Execute(true), Deinit, Deinit, p);
    CountConcat(first, Connected(options), p);
    CountConcat(first + Connected(options), [Execute(true)], p);
  }

  lemma AttemptBounds(t: seq<Call>, connected: bool, options: seq<SavedOption>)
    requires Succeeds(t, connected, options) || Fails(t, connected, options)
    ensures Count(t, IsInit) <= 1 && Count(t, IsConnect) <= 2 && Count(t, IsExecute) <= 3
  {
    hide Count, Succeeds, Fails;
    RequestAttempts(t, connected, options, IsInit);
    RequestAttempts(t, connected, options, IsConnect);
    RequestAttempts(t, connected, options, IsExecute);
  }

  // ---- the loop ----

  /** Where the loop can be in a request that started without a connection, or has given it up. */
  predicate FreshPlace(k: int, st0: bool, st1: bool, q: seq<Call>, options: seq<SavedOption>) {
    || (k == 0 && !st0 && q == [])
    || (k == 1 && st0 && !st1 && q == [Init(true)])
    || (k == 2 && st0 && st1 && q == [Init(true)] + Connected(options))
    || (k == 1 && st0 && st1 && q == [Init(true)] + Connected(options) + [Execute(false), Close])
    || (k == 0 && st0 && !st1 && (q == [Init(true), Connect(false), Deinit] || q == [Init(true)] + Connected(options) + [Execute(false), Close, Deinit]))
    || (k == -1 && FreshFailure(q, options))
  }

  /** Where it can be while the init of an earlier request is still in force. */
  predicate OldPlace(k: int, st0: bool, st1: bool, q: seq<Call>, options: seq<SavedOption>) {
    !st0 &&
    (|| (k == 2 && !st1 && q == [])
     || (k == 1 && !st1 && q == [Execute(false), Close])
     || (k == 2 && st1 && q == [Execute(false), Close] + Connected(options))
     || (k == 1 && st1 && q == [Execute(false), Close] + Connected(options) + [Execute(false), Close]))
  }

  /** Every turn of the loop lowers this. */
  function Measure(k: int, st0: bool, st1: bool): int {
    if k == 0 then (if st0 then 1 else 5)
    else if st0 then (if k == 2 then 3 else if st1 then 2 else 4)
    else if k == 2 then (if st1 then 7 else 9) else if st1 then 6 else 8
  }

  /** How far a request has come: what it did up to giving up the old init, and since then. */
  datatype Progress = Progress(connected: bool, onOld: bool, retreat: seq<Call>, attempt: seq<Call>)

  predicate Reached(k: int, st0: bool, st1: bool, p: Progress, options: seq<SavedOption>) {
    if p.onOld then p.connected && p.retreat == [] && OldPlace(k, st0, st1, p.attempt, options)
    else FreshPlace(k, st0, st1, p.attempt, options) && if p.connected then Retreat(p.retreat, options) else p.retreat == []
  }

  function Calls(p: Progress): seq<Call> {
    p.retreat + p.attempt
  }

  function Extend(p: Progress, made: seq<Call>, k: int): Progress {
    if p.onOld && k == 0 then Progress(p.connected, false, p.attempt + made, []) else p.(attempt := p.attempt + made)
  }

  lemma ExtendCalls(p: Progress, made: seq<Call>, k: int)
    requires p.onOld ==> p.retreat == []
    ensures Calls(Extend(p, made, k)) == Calls(p) + made && Extend(p, made, k).connected == p.connected
  {
    Regroup(p.retreat, p.attempt, made);
    assert p.attempt + made + [] == p.attempt + made;
  }

  /** The calls of a level that succeeds, and of one that is left. */
  function UpCalls(k: int, options: seq<SavedOption>): seq<Call> {
    if k == 0 then [Init(true)] else Connected(options)
  }

  function FailCall(k: int): Call {
    if k == 0 then Init(false) else if k == 1 then Connect(false) else Execute(false)
  }

  function UndoCalls(k: int): seq<Call> {
    if k == 1 then [Close] else if k == 0 then [Deinit] else []
  }

  function DownCalls(k: int, tried: bool): seq<Call> {
    (if tried then [] else [FailCall(k)]) + UndoCalls(k - 1)
  }

  lemma Climb(k: int, st0: bool, st1: bool, p: Progress, options: seq<SavedOption>)
    requires Reached(k, st0, st1, p, options) && 0 <= k <= 1 && !(if k == 0 then st0 else st1)
    ensures Reached(k + 1, k == 0 || st0, k == 1, Extend(p, UpCalls(k, options), k + 1), options)
    ensures Measure(k + 1, k == 0 || st0, k == 1) < Measure(k, st0, st1)
  {
    hide Connected, Retreat;
  }

  lemma Fall(k: int, st0: bool, st1: bool, p: Progress, options: seq<SavedOption>)
    requires Reached(k, st0, st1, p, options) && 0 <= k <= 2
    ensures var tried := if k == 0 then st0 else k == 1 && st1;
      Reached(k - 1, k != 0 && st0, k != 1 && st1, Extend(p, DownCalls(k, tried), k - 1), options)
    ensures k > 0 ==> Measure(k - 1, k != 0 && st0, k != 1 && st1) < Measure(k, st0, st1)
  {
    hide Connected;
    var tried := if k == 0 then st0 else k == 1 && st1;
    if p.onOld {
      FallOld(k, st0, st1, p.attempt, tried, options);
    } else {
      FallFresh(k, st0, st1, p.attempt, tried, options);
    }
  }

  lemma FallOld(k: int, st0: bool, st1: bool, q: seq<Call>, tried: bool, options: seq<SavedOption>)
    requires OldPlace(k, st0, st1, q, options) && 0 <= k <= 2 && tried == (if k == 0 then st0 else k == 1 && st1)
    ensures k == 2 ==> OldPlace(1, st0, st1, q + DownCalls(k, tried), options)
    ensures k < 2 ==> k == 1 && Retreat(q + DownCalls(k, tried), options)
  {
    hide Connected;
    var first := [Execute(false), Close];
    assert first + [Connect(false), Deinit] == [Execute(false), Close, Connect(false), Deinit];
    var c := first + Connected(options);
    assert c + first + [Deinit] == c + [Execute(false), Close, Deinit];
  }

  lemma FallFresh(k: int, st0: bool, st1: bool, q: seq<Call>, tried: bool, options: seq<SavedOption>)
    requires FreshPlace(k, st0, st1, q, options) && 0 <= k <= 2 && tried == (if k == 0 then st0 else k == 1 && st1)
    ensures FreshPlace(k - 1, k != 0 && st0, k != 1 && st1, q + DownCalls(k, tried), options)
  {
    hide Connected;
    var c := [Init(true)] + Connected(options);
    assert c + [Execute(false), Close] + [Deinit] == c + [Execute(false), Close, Deinit];
    assert [Init(true)] + [Connect(false), Deinit] == [Init(true), Connect(false), Deinit];
  }

  lemma Done(st0: bool, st1: bool, p: Progress, options: seq<SavedOption>)
    requires Reached(2, st0, st1, p, options)
    ensures Succeeds(Calls(p) + [Execute(true)], p.connected, options)
  {
    hide Connected, Retreat;
    assert p.retreat + p.attempt + [Execute(true)] == p.retreat + (p.attempt + [Execute(true)]);
    if p.retreat == [] {
      assert [] + p.attempt == p.attempt;
    }
    if !p.onOld && p.connected {
      assert FreshSuccess(p.attempt + [Execute(true)], options);
    }
  }

  lemma Lost(st0: bool, st1: bool, p: Progress, options: seq<SavedOption>)
    requires Reached(-1, st0, st1, p, options)
    ensures Fails(Calls(p), p.connected, options)
  {
    hide Connected, Retreat, FreshFailure;
    if p.retreat == [] {
      assert [] + p.attempt == p.attempt;
    }
  }

  class HttpApiExHandle {
    var k: int
    var httpHandle: bool   // whether there is a connection handle
    var savedOptions: seq<SavedOption>
    ghost var trace: seq<Call>

    ghost predicate Valid()
      reads this
    {
      && (k == -1 || k == 2)
      && (httpHandle <==> k == 2)
      && After(Down, trace) == (if k == 2 then Open else Down)
      && DistinctNames(savedOptions)
    }

    /** HTTPAPIEX_Create. */
    constructor ()
      ensures Valid() && trace == [] && k == -1 && savedOptions == []
    {
      k, httpHandle, savedOptions, trace := -1, false, [], [];
    }

    /** Step 1 of the connection level: a new connection, and every saved option on it. */
    method CreateConnection(ok: bool)
      modifies this`httpHandle, this`trace
      ensures httpHandle == ok
      ensures trace == old(trace) + if ok then Connected(savedOptions) else [Connect(false)]
    {
      httpHandle := ok;
      trace := trace + [Connect(ok)];
      if ok {
        ghost var before := trace;
        ghost var options := OptionCalls(savedOptions);
        for i := 0 to |savedOptions|
          invariant trace == before + options[..i]
        {
          assert options[..i + 1] == options[..i] + [options[i]];
          trace := trace + [Call.SetOption(savedOptions[i].name, savedOptions[i].value)];
        }
        assert options[..|savedOptions|] == options;
        assert trace == old(trace) + ([Connect(true)] + options);
      }
    }

    /** The attempt at a level. */
    method TryLevel(level: nat) returns (goOn: bool, ghost made: seq<Call>)
      requires level <= 2
      modifies this`httpHandle, this`trace
      ensures trace == old(trace) + made && httpHandle == if level == 1 then goOn else old(httpHandle)
      ensures goOn ==> made == if level == 2 then [Execute(true)] else UpCalls(level, savedOptions)
      ensures !goOn ==> made == [FailCall(level)]
    {
      goOn := *;
      match level {
        case 0 =>
          made := [Init(goOn)];
          trace := trace + made;
        case 1 =>
          CreateConnection(goOn);
          made := if goOn then Connected(savedOptions) else [Connect(false)];
        case _ =>
          made := [Execute(goOn)];
          trace := trace + made;
      }
    }

    /** What is undone on stepping back to a level. */
    method Undo(level: int) returns (ghost made: seq<Call>)
      modifies this`httpHandle, this`trace
      ensures trace == old(trace) + made && made == UndoCalls(level)
      ensures httpHandle == (level != 1 && old(httpHandle))
    {
      made := [];
      match level {
        case 0 => made := [Deinit];
        case 1 =>
          made := [Close];
          httpHandle := false;
        case _ =>
      }
      trace := trace + made;
    }

    /** One turn of the retry loop: `done` when the request has been executed. */
    method Turn(st: array<bool>, ghost p: Progress) returns (done: bool, ghost made: seq<Call>)
      requires st.Length == 3 && 0 <= k <= 2 && !st[2] && (httpHandle <==> k == 2)
      requires Reached(k, st[0], st[1], p, savedOptions)
      modifies this`k, this`httpHandle, this`trace, st
      ensures trace == old(trace) + made && -1 <= k <= 2 && (httpHandle <==> k == 2)
      ensures done ==> k == 2 && Succeeds(Calls(p) + made, p.connected, savedOptions)
      ensures !done ==> !st[2] && Reached(k, st[0], st[1], Extend(p, made, k), savedOptions)
      ensures !done && k >= 0 ==> Measure(k, st[0], st[1]) < old(Measure(k, st[0], st[1]))
    {
      hide Reached, Measure, Extend, Calls, UpCalls, FailCall, UndoCalls, Succeeds;
      ghost var before := trace;
      var goOn := false;
      made := [];
      assert before + [] == before;
      if !st[k] {
        goOn, made := TryLevel(k);
      }
      done := goOn && k == 2;
      if done {
        Done(st[0], st[1], p, savedOptions);
      } else if goOn {
        Climb(k, st[0], st[1], p, savedOptions);
        st[k] := true;
        k := k + 1;
        st[k] := false;
      } else {
        Fall(k, st[0], st[1], p, savedOptions);
        st[k] := false;
        k := k - 1;
        ghost var undone := Undo(k);
        Regroup(before, made, undone);
        made := made + undone;
      }
    }

    /** HTTPAPIEX_ExecuteRequest once its arguments are built (`prepared`); the calls below have
        any outcome. */
    method ExecuteRequest(prepared: bool) returns (result: Result, ghost calls: seq<Call>)
      requires Valid()
      modifies this
      ensures Valid() && savedOptions == old(savedOptions) && trace == old(trace) + calls
      ensures !prepared <==> result == HTTPAPIEX_ERROR
      ensures result == HTTPAPIEX_ERROR ==> calls == [] && k == old(k)
      ensures result == HTTPAPIEX_OK ==> k == 2 && Succeeds(calls, old(k) == 2, savedOptions)
      ensures prepared && result != HTTPAPIEX_OK ==>
        result == HTTPAPIEX_RECOVERYFAILED && k == -1 && Fails(calls, old(k) == 2, savedOptions)
    {
      hide After, Connected, DistinctNames, Succeeds, Fails;
      calls := [];
      if !prepared {
        return HTTPAPIEX_ERROR, calls;
      }
      ghost var connected := k == 2;
      ghost var p := Progress(connected, connected, [], []);
      var st := new bool[3](_ => false);
      StartPlaces(savedOptions);
      hide Reached, Measure, Extend, Calls;
      if k == -1 {
        k := 0;
      }
      while k >= 0
        invariant -1 <= k <= 2 && !st[2]
        invariant httpHandle <==> k == 2
        invariant trace == old(trace) + calls && calls == Calls(p) && savedOptions == old(savedOptions)
        invariant p.connected == connected && (p.onOld ==> p.retreat == [])
        invariant Reached(k, st[0], st[1], p, savedOptions)
        decreases k >= 0, Measure(k, st[0], st[1])
      {
        var done, made := Turn(st, p);
        Regroup(old(trace), calls, made);
        calls := calls + made;
        if done {
          Concluded(old(trace), calls, connected, savedOptions);
          return HTTPAPIEX_OK, calls;
        }
        ExtendCalls(p, made, k);
        p := Extend(p, made, k);
      }
      Lost(st[0], st[1], p, savedOptions);
      Concluded(old(trace), calls, connected, savedOptions);
      result := HTTPAPIEX_RECOVERYFAILED;
    }

    /** HTTPAPIEX_Destroy: everything that was initialised or connected has been undone. */
    method Destroy()
      requires Valid()
      modifies this`trace
      ensures After(Down, trace) == Down
      ensures Count(trace, Initialised) == Count(trace, Deinitialised) && Count(trace, Opened) == Count(trace, Closed)
    {
      hide After, Count;
      if k == 2 {
        AfterConcat(Down, trace, [Close, Deinit]);
        AfterTwo(Open, Close, Deinit);
        trace := trace + [Close];
        trace := trace + [Deinit];
        assert old(trace) + [Close] + [Deinit] == old(trace) + [Close, Deinit];
      }
      Balance(Down, trace);
    }

    /** createOrUpdateOption; `memory` is the outcome of its allocations. */
    method CreateOrUpdateOption(name: string, value: string, memory: bool) returns (ok: bool)
      requires DistinctNames(savedOptions)
      modifies this`savedOptions
      ensures DistinctNames(savedOptions)
      ensures ok == (memory || exists o :: o in old(savedOptions) && o.name == name)
      ensures savedOptions == if ok then Saved(old(savedOptions), name, value) else old(savedOptions)
    {
      hide DistinctNames, Saved;
      SavedDistinct(savedOptions, name, value);
      var whereIsIt := 0;
      while whereIsIt < |savedOptions| && savedOptions[whereIsIt].name != name
        invariant 0 <= whereIsIt <= |savedOptions|
        invariant forall j :: 0 <= j < whereIsIt ==> savedOptions[j].name != name
      {
        whereIsIt := whereIsIt + 1;
      }
      SavedAt(savedOptions, name, value, whereIsIt);
      if whereIsIt < |savedOptions| {
        assert savedOptions[whereIsIt] in savedOptions;
        savedOptions := savedOptions[whereIsIt := SavedOption(name, value)];
        ok := true;
      } else {
        ok := memory;
        if memory {
          savedOptions := savedOptions + [SavedOption(name, value)];
        }
      }
    }

    /** HTTPAPIEX_SetOption; the outcomes are those of HTTPAPI_CloneOption, of the allocations and
        of HTTPAPI_SetOption. */
    method SetOption(name: string, value: string, cloned: Result, memory: bool, applied: Result) returns (result: Result)
      requires Valid() && !cloned.HTTPAPIEX_RECOVERYFAILED? && !applied.HTTPAPIEX_RECOVERYFAILED?
      modifies this
      ensures Valid() && k == old(k)
      ensures var stored := cloned == HTTPAPIEX_OK && (memory || exists o :: o in old(savedOptions) && o.name == name);
        && savedOptions == (if stored then Saved(old(savedOptions), name, value) else old(savedOptions))
        && trace == old(trace) + (if stored && k == 2 then [Call.SetOption(name, value)] else [])
        && result == if cloned != HTTPAPIEX_OK then cloned else if !stored then HTTPAPIEX_ERROR else if k == 2 then applied else HTTPAPIEX_OK
    {
      hide After, DistinctNames, Saved;
      if cloned != HTTPAPIEX_OK {
        return cloned;
      }
      var ok := CreateOrUpdateOption(name, value, memory);
      if !ok {
        return HTTPAPIEX_ERROR;
      }
      if httpHandle {
        AfterConcat(Down, trace, [Call.SetOption(name, value)]);
        AfterOne(Open, Call.SetOption(name, value));
        trace := trace + [Call.SetOption(name, value)];
        return applied;
      }
      return HTTPAPIEX_OK;
    }
  }

  lemma Concluded(before: seq<Call>, calls: seq<Call>, connected: bool, options: seq<SavedOption>)
    requires After(Down, before) == if connected then Open else Down
    ensures Succeeds(calls, connected, options) ==> After(Down, before + calls) == Open
    ensures Fails(calls, connected, options) ==> After(Down, before + calls) == Down
  {
    hide *;
    RequestLevels(calls, connected, options);
    AfterConcat(Down, before, calls);
  }

  /** The value replaces the one saved under the name, or the pair is appended. */
  function Saved(options: seq<SavedOption>, name: string, value: string): seq<SavedOption> {
    if options == [] then [SavedOption(name, value)]
    else if options[0].name == name then [SavedOption(name, value)] + options[1..]
    else [options[0]] + Saved(options[1..], name, value)
  }

  lemma {:induction false} SavedNames(options: seq<SavedOption>, name: string, value: string)
    ensures var r := Saved(options, name, value);
      && |options| <= |r| <= |options| + 1
      && (forall i :: 0 <= i < |options| ==> r[i].name == options[i].name)
      && (|r| == |options| + 1 ==> r[|options|].name == name && forall i :: 0 <= i < |options| ==> options[i].name != name)
  {
    if options != [] && options[0].name != name {
      SavedNames(options[1..], name, value);
    }
  }

  lemma SavedDistinct(options: seq<SavedOption>, name: string, value: string)
    requires DistinctNames(options)
    ensures DistinctNames(Saved(options, name, value))
  {
    hide Saved;
    SavedNames(options, name, value);
  }

  /** The search of createOrUpdateOption, and what follows a hit and a miss. */
  lemma {:induction false} SavedAt(options: seq<SavedOption>, name: string, value: string, i: nat)
    requires i <= |options| && forall j :: 0 <= j < i ==> options[j].name != name
    requires i < |options| ==> options[i].name == name
    ensures Saved(options, name, value) == if i < |options| then options[i := SavedOption(name, value)] else options + [SavedOption(name, value)]
  {
    if i > 0 {
      SavedAt(options[1..], name, value, i - 1);
    }
  }

  /** A saved option is the value last set under its name; the others stay as they are. */
  lemma {:induction false} SavedValue(options: seq<SavedOption>, name: string, value: string, o: SavedOption)
    requires DistinctNames(options)
    ensures o in Saved(options, name, value) <==> o == SavedOption(name, value) || (o in options && o.name != name)
  {
    if options != [] && options[0].name != name {
      SavedValue(options[1..], name, value, o);
      assert options == [options[0]] + options[1..];
    } else if options != [] {
      assert options == [options[0]] + options[1..];
      assert forall i :: 0 <= i < |options[1..]| ==> options[1..][i] == options[i + 1];
    }
  }

  lemma StartPlaces(options: seq<SavedOption>)
    ensures Reached(2, false, false, Progress(true, true, [], []), options)
    ensures Reached(0, false, false, Progress(false, false, [], []), options)
    ensures Calls(Progress(true, true, [], [])) == [] && Calls(Progress(false, false, [], [])) == []
  {
  }

  predicate DistinctNames(options: seq<SavedOption>) {
    forall i, j :: 0 <= i < j < |options| ==> options[i].name != options[j].name
  }
}
