/** The CONNECT tunnel (http_proxy_io.c): an event-driven instance over an underlying socket.
    The outcomes of the socket calls and of allocation come with each event. */
module HttpProxyIo {
  import opened CrtAbstractions
  import opened Wrappers
  import Base64

  // ---- the response header ----

  const HEADER_END := "\r\n\r\n"

  /** strstr for a double new-line in text without NUL; -1 when there is none. */
  function FindEnd(s: string): (r: int)
    ensures -1 <= r <= |s| - 4 || r == -1
  {
    if |s| < 4 then -1
    else if s[..4] == HEADER_END then 0
    else var r := FindEnd(s[1..]); if r < 0 then -1 else r + 1
  }

  /** Where the header ends in the receive buffer; the search stops at a NUL. */
  function HeaderEnd(buffer: string): (r: int)
    ensures -1 <= r <= |buffer| - 4 || r == -1
  {
    FindEnd(UpTo(buffer, '\0'))
  }

  function IndexOf(s: string, from: nat, c: char): (i: nat)
    requires from <= |s|
    ensures from <= i <= |s| && (i < |s| ==> s[i] == c)
    ensures forall k :: from <= k < i ==> s[k] != c
    decreases |s| - from
  {
    if from == |s| || s[from] == c then from else IndexOf(s, from + 1, c)
  }

  const INT_MAX := 0x7FFF_FFFF
  const INT_MIN := -0x8000_0000

  /** A value in the range of int, which is that of long on the device. */
  function Clamped(v: int): int {
    if v > INT_MAX then INT_MAX else if v < INT_MIN then INT_MIN else v
  }

  /** The constant at the start of a text behind its sign; None when there is no digit. */
  function ConstantOf(t: string, negative: bool): Option<int> {
    var (p, base) := StandardPrefix(t, 0);
    var n := DigitRun(t[p..], base);
    var v: int := Number(t[p..][..n], base);
    if n == 0 then None else Some(Clamped(if negative then -v else v))
  }

  /** strtol in base 0 (section 7.22.1.4 of ISO/IEC 9899:2011); None when nothing is converted. */
  function StrToL(s: string): Option<int> {
    ConstantOf(s[SignEnd(s)..], Negative(s))
  }

  /** ParseHttpResponse on the text of the buffer: what stands behind "HTTP/", a dot and a space. */
  function StatusOf(text: string): Option<int> {
    if !("HTTP/" <= text) then None
    else
      var dot := IndexOf(text, 5, '.');
      var space := IndexOf(text, dot, ' ');
      if space == |text| then None else StrToL(text[space..])
  }

  predicate Successful(text: string) {
    StatusOf(text).Some? && 200 <= StatusOf(text).value <= 299
  }

  // ---- the instance as a value ----

  datatype Mode = CLOSED | OPENING_UNDERLYING_IO | WAITING_FOR_CONNECT_RESPONSE | OPEN | CLOSING | ERROR

  predicate Pending(mode: Mode) {
    mode == OPENING_UNDERLYING_IO || mode == WAITING_FOR_CONNECT_RESPONSE
  }

  datatype OpenResult = IO_OPEN_OK | IO_OPEN_ERROR | IO_OPEN_CANCELLED

  /** What the instance does to the outside: callbacks, and calls that reach the socket. */
  datatype Output =
    | Started
    | ConnectSent(request: string)
    | OpenDone(result: OpenResult)
    | Data(bytes: string)
    | UserSent(bytes: string)
    | Error(fatal: bool)
    | Stopping
    | Stopped(notified: bool)

  datatype Proxy = Proxy(mode: Mode, buffer: string, notify: bool, log: seq<Output>)

  datatype Event =
    | Open(started: bool)
    | Close(stopped: bool, notify: bool)
    | Send(bytes: string)
    | OpenComplete(result: OpenResult, prepared: bool, sent: bool)
    | BytesReceived(bytes: string, memory: bool)
    | IoError
    | CloseComplete

  function Emit(s: Proxy, mode: Mode, output: Output): Proxy {
    s.(mode := mode, log := s.log + [output])
  }

  /** indicate_open_complete_error_and_close. */
  function Fail(s: Proxy): Proxy {
    Emit(s, CLOSED, OpenDone(IO_OPEN_ERROR))
  }

  /** The buffer is searched, and a complete header decided on, whatever state precedes. */
  function Decide(s: Proxy): Proxy {
    var end := HeaderEnd(s.buffer);
    if end < 0 then s
    else if !Successful(UpTo(s.buffer, '\0')) then Fail(s)
    else
      var established := Emit(s, OPEN, OpenDone(IO_OPEN_OK));
      if end + 4 < |s.buffer| then Emit(established, OPEN, Data(s.buffer[end + 4..])) else established
  }

  function Next(request: string, s: Proxy, e: Event): Proxy {
    match e
    case Open(started) =>
      if s.mode != CLOSED || !started then s else Emit(s, OPENING_UNDERLYING_IO, Started)
    case Close(stopped, notify) =>
      if s.mode == CLOSED || s.mode == CLOSING then s
      else if Pending(s.mode) then Emit(s, CLOSED, OpenDone(IO_OPEN_CANCELLED))
      else if stopped then Emit(s, CLOSING, Stopping).(notify := notify)
      else s.(notify := notify)
    case Send(bytes) =>
      if bytes == "" || s.mode != OPEN then s else Emit(s, OPEN, UserSent(bytes))
    case OpenComplete(result, prepared, sent) =>
      if s.mode == OPEN || s.mode == CLOSING then Emit(s, s.mode, Error(false))
      else if s.mode == WAITING_FOR_CONNECT_RESPONSE then Fail(s)
      else if s.mode != OPENING_UNDERLYING_IO then s
      else if result == IO_OPEN_CANCELLED then Emit(s, CLOSED, OpenDone(IO_OPEN_CANCELLED))
      else if result == IO_OPEN_ERROR || !prepared then Fail(s)
      else
        var requested := Emit(s, WAITING_FOR_CONNECT_RESPONSE, ConnectSent(request));
        if sent then requested else Fail(requested)
    case BytesReceived(bytes, memory) =>
      if s.mode == OPENING_UNDERLYING_IO then Fail(s)
      else if s.mode == OPEN then Emit(s, OPEN, Data(bytes))
      else if s.mode != WAITING_FOR_CONNECT_RESPONSE then s
      else Decide(if memory then s.(buffer := s.buffer + bytes) else Fail(s))
    case IoError =>
      if Pending(s.mode) then Fail(s)
      else if s.mode == OPEN then Emit(s, ERROR, Error(true))
      else s
    case CloseComplete =>
      if s.mode == CLOSING then Emit(s, CLOSED, Stopped(s.notify)) else s
  }

  const CREATED := Proxy(CLOSED, "", false, [])

  function Run(request: string, s: Proxy, events: seq<Event>): Proxy
    decreases |events|
  {
    if events == [] then s else Run(request, Next(request, s, events[0]), events[1..])
  }

  // ---- every open completes once ----

  /** The protocol a user of the instance sees: one completion for each open, data and sends only
      between a successful completion and the end of the connection. */
  datatype Phase = Idle | Opening | Running | Failed | Ending | Broken

  function Advance(p: Phase, o: Output): Phase {
    match o
    case Started => if p == Idle then Opening else Broken
    case ConnectSent(_) => if p == Opening then Opening else Broken
    case OpenDone(r) => if p != Opening then Broken else if r == IO_OPEN_OK then Running else Idle
    case Data(_) => if p == Running then Running else Broken
    case UserSent(_) => if p == Running then Running else Broken
    case Error(fatal) =>
      if fatal then (if p == Running then Failed else Broken) else if p == Running || p == Ending then p else Broken
    case Stopping => if p == Running || p == Failed then Ending else Broken
    case Stopped(_) => if p == Ending then Idle else Broken
  }

  function PhaseAfter(log: seq<Output>): Phase {
    if log == [] then Idle else Advance(PhaseAfter(log[..|log| - 1]), log[|log| - 1])
  }

  function PhaseOf(mode: Mode): Phase {
    match mode
    case CLOSED => Idle
    case OPENING_UNDERLYING_IO => Opening
    case WAITING_FOR_CONNECT_RESPONSE => Opening
    case OPEN => Running
    case CLOSING => Ending
    case ERROR => Failed
  }

  predicate InOrder(s: Proxy) {
    PhaseAfter(s.log) == PhaseOf(s.mode)
  }

  function Opens(log: seq<Output>): nat {
    if log == [] then 0 else Opens(log[..|log| - 1]) + if log[|log| - 1].Started? then 1 else 0
  }

  function Completions(log: seq<Output>): nat {
    if log == [] then 0 else Completions(log[..|log| - 1]) + if log[|log| - 1].OpenDone? then 1 else 0
  }

  lemma Snoc(log: seq<Output>, o: Output)
    ensures PhaseAfter(log + [o]) == Advance(PhaseAfter(log), o)
    ensures Opens(log + [o]) == Opens(log) + if o.Started? then 1 else 0
    ensures Completions(log + [o]) == Completions(log) + if o.OpenDone? then 1 else 0
  {
    assert (log + [o])[..|log|] == log;
  }

  /** The one way out of the protocol: memory runs out while a header from an earlier connection
      is still in the buffer. */
  predicate DoublesCompletion(s: Proxy, e: Event) {
    s.mode == WAITING_FOR_CONNECT_RESPONSE && e.BytesReceived? && !e.memory && HeaderEnd(s.buffer) >= 0
  }

  lemma Emitted(s: Proxy, mode: Mode, o: Output)
    ensures Emit(s, mode, o).mode == mode && Emit(s, mode, o).buffer == s.buffer && Emit(s, mode, o).notify == s.notify
    ensures PhaseAfter(Emit(s, mode, o).log) == Advance(PhaseAfter(s.log), o)
    ensures Opens(Emit(s, mode, o).log) == Opens(s.log) + if o.Started? then 1 else 0
  {
    Snoc(s.log, o);
  }

  lemma FailEmitted(s: Proxy)
    ensures Fail(s).mode == CLOSED && Fail(s).buffer == s.buffer
    ensures PhaseAfter(Fail(s).log) == (if PhaseAfter(s.log) == Opening then Idle else Broken)
    ensures Opens(Fail(s).log) == Opens(s.log)
  {
    Emitted(s, CLOSED, OpenDone(IO_OPEN_ERROR));
  }

  /** Deciding on a header keeps the order while the open is pending, and breaks it otherwise. */
  lemma DecideOrder(s: Proxy)
    ensures HeaderEnd(s.buffer) < 0 ==> Decide(s) == s
    ensures HeaderEnd(s.buffer) >= 0 ==>
      (Decide(s).mode == CLOSED || Decide(s).mode == OPEN)
      && PhaseAfter(Decide(s).log) == if PhaseAfter(s.log) == Opening then PhaseOf(Decide(s).mode) else Broken
    ensures Opens(Decide(s).log) == Opens(s.log)
  {
    hide HeaderEnd, Successful, PhaseAfter, Opens, Fail;
    FailEmitted(s);
    Emitted(s, OPEN, OpenDone(IO_OPEN_OK));
    var established := Emit(s, OPEN, OpenDone(IO_OPEN_OK));
    var end := HeaderEnd(s.buffer);
    if end >= 0 {
      Emitted(established, OPEN, Data(s.buffer[end + 4..]));
    }
  }

  lemma BytesKeepOrder(request: string, s: Proxy, e: Event)
    requires e.BytesReceived?
    ensures InOrder(s) ==> (InOrder(Next(request, s, e)) <==> !DoublesCompletion(s, e))
    ensures Opens(s.log) <= Opens(Next(request, s, e).log)
  {
    hide HeaderEnd, PhaseAfter, Opens, Decide, Fail, Emit;
    FailEmitted(s);
    Emitted(s, OPEN, Data(e.bytes));
    DecideOrder(s.(buffer := s.buffer + e.bytes));
    DecideOrder(Fail(s));
  }

  /** An event keeps the protocol exactly when it is not that one. */
  lemma OrderKept(request: string, s: Proxy, e: Event)
    ensures InOrder(s) ==> (InOrder(Next(request, s, e)) <==> !DoublesCompletion(s, e))
    ensures Opens(s.log) <= Opens(Next(request, s, e).log)
  {
    hide HeaderEnd, PhaseAfter, Opens, Decide, Fail, Emit;
    match e {
      case Open(_) => Emitted(s, OPENING_UNDERLYING_IO, Started);
      case Close(_, _) =>
        Emitted(s, CLOSED, OpenDone(IO_OPEN_CANCELLED));
        Emitted(s, CLOSING, Stopping);
      case Send(bytes) => Emitted(s, OPEN, UserSent(bytes));
      case OpenComplete(_, _, _) =>
        Emitted(s, s.mode, Error(false));
        Emitted(s, CLOSED, OpenDone(IO_OPEN_CANCELLED));
        FailEmitted(s);
        Emitted(s, WAITING_FOR_CONNECT_RESPONSE, ConnectSent(request));
        FailEmitted(Emit(s, WAITING_FOR_CONNECT_RESPONSE, ConnectSent(request)));
      case BytesReceived(_, _) => BytesKeepOrder(request, s, e);
      case IoError =>
        FailEmitted(s);
        Emitted(s, ERROR, Error(true));
      case CloseComplete => Emitted(s, CLOSED, Stopped(s.notify));
    }
  }

  /** Once the protocol is broken it stays broken. */
  lemma BrokenStays(request: string, s: Proxy, e: Event)
    requires PhaseAfter(s.log) == Broken
    ensures PhaseAfter(Next(request, s, e).log) == Broken
  {
    hide HeaderEnd, PhaseAfter, Opens, Decide, Fail, Emit;
    match e {
      case Open(_) => Emitted(s, OPENING_UNDERLYING_IO, Started);
      case Close(_, _) =>
        Emitted(s, CLOSED, OpenDone(IO_OPEN_CANCELLED));
        Emitted(s, CLOSING, Stopping);
      case Send(bytes) => Emitted(s, OPEN, UserSent(bytes));
      case OpenComplete(_, _, _) =>
        Emitted(s, s.mode, Error(false));
        Emitted(s, CLOSED, OpenDone(IO_OPEN_CANCELLED));
        FailEmitted(s);
        Emitted(s, WAITING_FOR_CONNECT_RESPONSE, ConnectSent(request));
        FailEmitted(Emit(s, WAITING_FOR_CONNECT_RESPONSE, ConnectSent(request)));
      case BytesReceived(bytes, _) =>
        FailEmitted(s);
        Emitted(s, OPEN, Data(bytes));
        DecideOrder(s.(buffer := s.buffer + bytes));
        DecideOrder(Fail(s));
      case IoError =>
        FailEmitted(s);
        Emitted(s, ERROR, Error(true));
      case CloseComplete => Emitted(s, CLOSED, Stopped(s.notify));
    }
  }

  /** The step that leaves the protocol breaks it. */
  lemma DoublingBreaks(request: string, s: Proxy, e: Event)
    requires InOrder(s) && DoublesCompletion(s, e)
    ensures PhaseAfter(Next(request, s, e).log) == Broken
  {
    hide HeaderEnd, PhaseAfter, Opens, Decide, Fail;
    FailEmitted(s);
    DecideOrder(Fail(s));
  }

  lemma {:induction false} BrokenRun(request: string, s: Proxy, events: seq<Event>)
    requires PhaseAfter(s.log) == Broken
    ensures PhaseAfter(Run(request, s, events).log) == Broken
    decreases |events|
  {
    hide Next, PhaseAfter;
    if events != [] {
      BrokenStays(request, s, events[0]);
      BrokenRun(request, Next(request, s, events[0]), events[1..]);
    }
  }

  /** Memory never runs out in the run while a header of an earlier connection waits. */
  predicate NeverDoubles(request: string, s: Proxy, events: seq<Event>)
    decreases |events|
  {
    events != [] ==> !DoublesCompletion(s, events[0]) && NeverDoubles(request, Next(request, s, events[0]), events[1..])
  }

  /** A run keeps the protocol, so that every open is completed exactly once, if and only if none of
      its steps is that one. */
  lemma {:induction false} RunOrder(request: string, s: Proxy, events: seq<Event>)
    requires InOrder(s)
    ensures InOrder(Run(request, s, events)) <==> NeverDoubles(request, s, events)
    decreases |events|
  {
    hide Next, PhaseAfter, DoublesCompletion;
    if events != [] {
      OrderKept(request, s, events[0]);
      if DoublesCompletion(s, events[0]) {
        DoublingBreaks(request, s, events[0]);
        BrokenRun(request, Next(request, s, events[0]), events[1..]);
      } else {
        RunOrder(request, Next(request, s, events[0]), events[1..]);
      }
    }
  }

  lemma {:induction false} MemoryNeverDoubles(request: string, s: Proxy, events: seq<Event>)
    requires forall e :: e in events && e.BytesReceived? ==> e.memory
    ensures NeverDoubles(request, s, events)
    decreases |events|
  {
    hide Next;
    if events != [] {
      MemoryNeverDoubles(request, Next(request, s, events[0]), events[1..]);
    }
  }

  /** As long as memory lasts, every open of every run is completed exactly once. */
  lemma RunInOrder(request: string, s: Proxy, events: seq<Event>)
    requires InOrder(s) && forall e :: e in events && e.BytesReceived? ==> e.memory
    ensures InOrder(Run(request, s, events))
  {
    MemoryNeverDoubles(request, s, events);
    RunOrder(request, s, events);
  }

  /** What the protocol means: completions match opens, up to the one still in progress. */
  lemma {:induction false} CompletedOnce(log: seq<Output>)
    requires PhaseAfter(log) != Broken
    ensures Opens(log) == Completions(log) + if PhaseAfter(log) == Opening then 1 else 0
  {
    if log != [] {
      CompletedOnce(log[..|log| - 1]);
    }
  }

  /** In the first connection of an instance, no complete header waits in the buffer. */
  predicate FirstConnection(s: Proxy) {
    && InOrder(s)
    && (Opens(s.log) == 0 ==> s.mode == CLOSED && s.buffer == "")
    && (Opens(s.log) == 1 && Pending(s.mode) ==> HeaderEnd(s.buffer) < 0)
  }

  lemma NoHeaderYet()
    ensures HeaderEnd("") == -1
  {
  }

  lemma FirstConnectionKept(request: string, s: Proxy, e: Event)
    requires FirstConnection(s)
    ensures Opens(s.log) <= Opens(Next(request, s, e).log)
    ensures Opens(Next(request, s, e).log) <= 1 ==> FirstConnection(Next(request, s, e))
  {
    hide Next, HeaderEnd, PhaseAfter, Opens;
    NoHeaderYet();
    OrderKept(request, s, e);
    PendingBuffer(request, s, e);
  }

  /** How a connection comes to be pending, and what its buffer then holds. */
  lemma PendingBuffer(request: string, s: Proxy, e: Event)
    ensures var t := Next(request, s, e);
      Pending(t.mode) ==> (s.mode == CLOSED && e.Open? && t.buffer == s.buffer && Opens(t.log) == Opens(s.log) + 1)
                          || (Pending(s.mode) && t.buffer == s.buffer && Opens(t.log) == Opens(s.log))
                          || HeaderEnd(t.buffer) < 0
    ensures s.mode == CLOSED && Next(request, s, e).mode != CLOSED ==> e.Open? && Opens(Next(request, s, e).log) == Opens(s.log) + 1
    ensures Next(request, s, e).buffer != s.buffer ==> s.mode == WAITING_FOR_CONNECT_RESPONSE
  {
    hide HeaderEnd, Opens, PhaseAfter, Decide;
    Emitted(s, OPENING_UNDERLYING_IO, Started);
    Emitted(s, WAITING_FOR_CONNECT_RESPONSE, ConnectSent(request));
    if e.BytesReceived? {
      Decided(s.(buffer := s.buffer + e.bytes));
      Decided(Fail(s));
    }
  }

  lemma Decided(s: Proxy)
    ensures Decide(s).buffer == s.buffer
    ensures Pending(Decide(s).mode) ==> HeaderEnd(s.buffer) < 0
    ensures HeaderEnd(s.buffer) < 0 ==> Decide(s) == s
  {
  }

  lemma {:induction false} FirstRun(request: string, s: Proxy, events: seq<Event>)
    requires FirstConnection(s)
    ensures Opens(s.log) <= Opens(Run(request, s, events).log)
    ensures Opens(Run(request, s, events).log) <= 1 ==> FirstConnection(Run(request, s, events))
    decreases |events|
  {
    hide Next, FirstConnection, Opens;
    if events != [] {
      var t := Next(request, s, events[0]);
      FirstConnectionKept(request, s, events[0]);
      if Opens(t.log) <= 1 {
        FirstRun(request, t, events[1..]);
      } else {
        OpensGrow(request, t, events[1..]);
      }
    }
  }

  lemma {:induction false} OpensGrow(request: string, s: Proxy, events: seq<Event>)
    ensures Opens(s.log) <= Opens(Run(request, s, events).log)
    decreases |events|
  {
    hide Next;
    if events != [] {
      OrderKept(request, s, events[0]);
      OpensGrow(request, Next(request, s, events[0]), events[1..]);
    }
  }

  /** In a run with one open at most, nothing completes twice even when memory runs out. */
  lemma FirstOpenInOrder(request: string, events: seq<Event>)
    requires Opens(Run(request, CREATED, events).log) <= 1
    ensures InOrder(Run(request, CREATED, events))
  {
    FirstRun(request, CREATED, events);
  }

  /** The buffer outlives the connection: after any complete header, a second open that runs out
      of memory is completed twice. */
  lemma SecondOpenDoubles(request: string, header: string)
    requires HeaderEnd(header) >= 0
    ensures !InOrder(Run(request, CREATED, Reopened(header) + [BytesReceived("", false)]))
  {
    var s := SecondOpenWaits(request, header);
    RunConcat(request, CREATED, Reopened(header), [BytesReceived("", false)]);
    OrderKept(request, s, BytesReceived("", false));
    assert Run(request, s, [BytesReceived("", false)]) == Next(request, s, BytesReceived("", false));
  }

  const CONNECT := [Open(true), OpenComplete(IO_OPEN_OK, true, true)]

  /** A header that is accepted leaves a connection to close, one that is refused does not. */
  function Closing(header: string): seq<Event> {
    if Successful(UpTo(header, '\0')) then [Close(true, true), CloseComplete] else []
  }

  /** A connection that is opened, closed and opened again. */
  function Reopened(header: string): seq<Event> {
    CONNECT + [BytesReceived(header, true)] + Closing(header) + CONNECT
  }

  lemma {:induction false} RunConcat(request: string, s: Proxy, a: seq<Event>, b: seq<Event>)
    ensures Run(request, s, a + b) == Run(request, Run(request, s, a), b)
    decreases |a|
  {
    hide Next;
    if a == [] {
      assert a + b == b;
    } else {
      assert (a + b)[1..] == a[1..] + b;
      RunConcat(request, Next(request, s, a[0]), a[1..], b);
    }
  }

  lemma RunNone(request: string, s: Proxy)
    ensures Run(request, s, []) == s
  {
  }

  lemma RunOne(request: string, s: Proxy, e: Event)
    ensures Run(request, s, [e]) == Next(request, s, e)
  {
    hide Next;
    assert Run(request, Next(request, s, e), [e][1..]) == Next(request, s, e);
  }

  lemma RunTwo(request: string, s: Proxy, d: Event, e: Event)
    ensures Run(request, s, [d, e]) == Next(request, Next(request, s, d), e)
  {
    hide *;
    RunConcat(request, s, [d], [e]);
    RunOne(request, s, d);
    RunOne(request, Next(request, s, d), e);
    assert [d] + [e] == [d, e];
  }

  lemma Connect(request: string, s: Proxy)
    requires s.mode == CLOSED
    ensures var t := Run(request, s, CONNECT);
      t.mode == WAITING_FOR_CONNECT_RESPONSE && t.buffer == s.buffer
  {
    hide Decide;
    RunTwo(request, s, Open(true), OpenComplete(IO_OPEN_OK, true, true));
  }

  lemma Disconnect(request: string, s: Proxy)
    requires s.mode == OPEN
    ensures var t := Run(request, s, [Close(true, true), CloseComplete]);
      t.mode == CLOSED && t.buffer == s.buffer
  {
    hide Decide;
    RunTwo(request, s, Close(true, true), CloseComplete);
  }

  lemma Accepted(request: string, s: Proxy, header: string)
    requires HeaderEnd(header) >= 0 && s.mode == WAITING_FOR_CONNECT_RESPONSE && s.buffer == ""
    ensures var t := Next(request, s, BytesReceived(header, true));
      t.mode == (if Successful(UpTo(header, '\0')) then OPEN else CLOSED) && t.buffer == header
  {
    hide *;
    assert "" + header == header;
    Received(request, s, header);
    DecidedMode(s.(buffer := header));
  }

  lemma Received(request: string, s: Proxy, bytes: string)
    requires s.mode == WAITING_FOR_CONNECT_RESPONSE
    ensures Next(request, s, BytesReceived(bytes, true)) == Decide(s.(buffer := s.buffer + bytes))
  {
    hide Decide;
  }

  lemma DecidedMode(s: Proxy)
    requires HeaderEnd(s.buffer) >= 0
    ensures Decide(s).mode == (if Successful(UpTo(s.buffer, '\0')) then OPEN else CLOSED) && Decide(s).buffer == s.buffer
  {
    hide HeaderEnd, Successful;
  }

  lemma FirstSession(request: string, header: string)
    requires HeaderEnd(header) >= 0
    ensures var t := Run(request, CREATED, CONNECT + [BytesReceived(header, true)]);
      t.mode == (if Successful(UpTo(header, '\0')) then OPEN else CLOSED) && t.buffer == header
  {
    hide HeaderEnd, Successful, PhaseAfter, Run, Next;
    Connect(request, CREATED);
    RunConcat(request, CREATED, CONNECT, [BytesReceived(header, true)]);
    RunOne(request, Run(request, CREATED, CONNECT), BytesReceived(header, true));
    Accepted(request, Run(request, CREATED, CONNECT), header);
  }

  lemma SecondOpenWaits(request: string, header: string) returns (s: Proxy)
    requires HeaderEnd(header) >= 0
    ensures s == Run(request, CREATED, Reopened(header))
    ensures s.mode == WAITING_FOR_CONNECT_RESPONSE && s.buffer == header && InOrder(s)
  {
    assert InOrder(CREATED);
    hide HeaderEnd, Successful, PhaseAfter, Run, Next;
    var first := CONNECT + [BytesReceived(header, true)];
    var second := Closing(header);
    FirstSession(request, header);
    if Successful(UpTo(header, '\0')) {
      Disconnect(request, Run(request, CREATED, first));
    } else {
      RunNone(request, Run(request, CREATED, first));
    }
    RunConcat(request, CREATED, first, second);
    Connect(request, Run(request, CREATED, first + second));
    RunConcat(request, CREATED, first + second, CONNECT);
    s := Run(request, CREATED, Reopened(header));
    OnlyWithMemory(header);
    RunInOrder(request, CREATED, Reopened(header));
  }

  lemma OnlyWithMemory(header: string)
    ensures forall e :: e in Reopened(header) && e.BytesReceived? ==> e.memory
  {
  }

  // ---- the tunnelled stream ----

  function Delivered(log: seq<Output>): string {
    if log == [] then ""
    else Delivered(log[..|log| - 1]) + if log[|log| - 1].Data? then log[|log| - 1].bytes else ""
  }

  function Arrivals(chunks: seq<string>): seq<Event> {
    seq(|chunks|, i requires 0 <= i < |chunks| => BytesReceived(chunks[i], true))
  }

  function Concat(chunks: seq<string>): string {
    if chunks == [] then "" else chunks[0] + Concat(chunks[1..])
  }

  /** The header alone decides the status: it breaks off before "HTTP/", or holds a dot, a space
      behind it, and behind the space something other than white space. */
  predicate Determined(h: string) {
    "HTTP/" <= h ==>
      var space := IndexOf(h, IndexOf(h, 5, '.'), ' ');
      space < |h| && SpaceRun(h[space..]) < |h| - space
  }

  predicate EndsAt(s: string, i: int) {
    0 <= i && i + 4 <= |s| && s[i..i + 4] == HEADER_END
  }

  lemma {:induction false} FindEndIsFirst(s: string)
    ensures FindEnd(s) >= 0 ==> EndsAt(s, FindEnd(s))
    ensures forall i :: EndsAt(s, i) ==> 0 <= FindEnd(s) <= i
  {
    if |s| >= 4 && s[..4] != HEADER_END {
      FindEndIsFirst(s[1..]);
      var r := FindEnd(s[1..]);
      assert r >= 0 ==> s[1..][r..r + 4] == s[r + 1..r + 5];
      forall i | EndsAt(s, i)
        ensures 0 <= FindEnd(s) <= i
      {
        assert i > 0;
        assert s[1..][i - 1..i + 3] == s[i..i + 4];
        assert EndsAt(s[1..], i - 1);
      }
    }
  }

  lemma {:induction false} FindEndStable(a: string, b: string)
    requires FindEnd(a) >= 0
    ensures FindEnd(a + b) == FindEnd(a)
  {
    assert (a + b)[..4] == a[..4];
    if a[..4] != HEADER_END {
      assert (a + b)[1..] == a[1..] + b;
      FindEndStable(a[1..], b);
    }
  }

  lemma {:induction false} UpToConcat(a: string, b: string, c: char)
    ensures UpTo(a + b, c) == if |UpTo(a, c)| < |a| then UpTo(a, c) else a + UpTo(b, c)
  {
    if a == "" {
      assert a + b == b;
    } else {
      assert (a + b)[1..] == a[1..] + b;
      UpToConcat(a[1..], b, c);
    }
  }

  lemma HeaderEndStable(a: string, b: string)
    requires HeaderEnd(a) >= 0
    ensures HeaderEnd(a + b) == HeaderEnd(a)
  {
    hide UpTo, FindEnd;
    UpToConcat(a, b, '\0');
    if |UpTo(a, '\0')| == |a| {
      assert UpTo(a, '\0') == a;
      FindEndStable(a, UpTo(b, '\0'));
    }
  }

  lemma {:induction false} SpaceRunStable(a: string, b: string)
    requires SpaceRun(a) < |a|
    ensures SpaceRun(a + b) == SpaceRun(a)
  {
    if IsSpace(a[0]) {
      assert (a + b)[1..] == a[1..] + b;
      SpaceRunStable(a[1..], b);
    }
  }

  lemma {:induction false} DigitRunStable(a: string, b: string, base: int)
    requires DigitRun(a, base) < |a|
    ensures DigitRun(a + b, base) == DigitRun(a, base)
  {
    if IsDigit(a[0], base) {
      assert (a + b)[1..] == a[1..] + b;
      DigitRunStable(a[1..], b, base);
    }
  }

  lemma {:induction false} IndexOfStable(a: string, b: string, start: nat, c: char)
    requires start <= |a| && IndexOf(a, start, c) < |a|
    ensures IndexOf(a + b, start, c) == IndexOf(a, start, c)
    decreases |a| - start
  {
    if a[start] != c {
      IndexOfStable(a, b, start + 1, c);
    }
  }

  /** A double new-line is no part of a number and no part of what leads to one. */
  lemma {:induction false} SpaceRunStops(a: string)
    requires SpaceRun(a) < |a|
    ensures !IsSpace(a[SpaceRun(a)])
    ensures forall k :: 0 <= k < SpaceRun(a) ==> IsSpace(a[k])
  {
    if IsSpace(a[0]) {
      SpaceRunStops(a[1..]);
    }
  }

  lemma {:induction false} DigitRunEnds(a: string, base: int, k: nat)
    requires k < |a| && !IsDigit(a[k], base)
    ensures DigitRun(a, base) <= k
  {
    if k > 0 && IsDigit(a[0], base) {
      DigitRunEnds(a[1..], base, k - 1);
    }
  }

  lemma ConstantStable(a: string, b: string, negative: bool)
    requires 3 <= |a| && IsSpace(a[|a| - 1])
    ensures ConstantOf(a + b, negative) == ConstantOf(a, negative)
  {
    hide IsDigit, Number, Clamped;
    assert forall k :: 0 <= k < 3 ==> At(a + b, k) == At(a, k);
    var (p, base) := StandardPrefix(a, 0);
    SpaceNoDigit(a[|a| - 1], 16);
    SpaceNoDigit(a[|a| - 1], base);
    var rest := a[p..];
    assert (a + b)[p..] == rest + b;
    DigitRunEnds(rest, base, |rest| - 1);
    DigitRunStable(rest, b, base);
    assert (rest + b)[..DigitRun(rest, base)] == rest[..DigitRun(rest, base)];
  }

  lemma SpacesEndEarlier(a: string)
    requires |a| >= 4 && a[|a| - 4..] == HEADER_END && SpaceRun(a) < |a|
    ensures SpaceRun(a) + 4 < |a| && a[|a| - 1] == '\n'
  {
    SpaceRunStops(a);
    LineEnds(a);
  }

  lemma StrToLStable(a: string, b: string)
    requires SpaceRun(a) + 4 < |a| && IsSpace(a[|a| - 1])
    ensures StrToL(a + b) == StrToL(a)
  {
    hide SpaceRun, ConstantOf;
    SpaceRunStable(a, b);
    assert At(a + b, SpaceRun(a)) == At(a, SpaceRun(a));
    var i := SignEnd(a);
    assert (a + b)[i..] == a[i..] + b;
    ConstantStable(a[i..], b, Negative(a));
  }

  lemma LineEnds(a: string)
    requires |a| >= 4 && a[|a| - 4..] == HEADER_END
    ensures forall k :: |a| - 4 <= k < |a| ==> IsSpace(a[k])
    ensures a[|a| - 1] == '\n' && a[|a| - 2] == '\r' && a[|a| - 3] == '\n' && a[|a| - 4] == '\r'
  {
    assert forall k :: |a| - 4 <= k < |a| ==> a[k] == a[|a| - 4..][k - (|a| - 4)];
  }

  lemma SpaceNoDigit(c: char, base: int)
    requires IsSpace(c)
    ensures !IsDigit(c, base)
  {
  }

  lemma PrefixStable(h: string, rest: string)
    requires |h| >= 4 && h[|h| - 4..] == HEADER_END
    ensures "HTTP/" <= h + rest <==> "HTTP/" <= h
  {
    LineEnds(h);
    if |h| >= 5 {
      assert (h + rest)[..5] == h[..5];
    } else {
      assert (h + rest)[0] == '\r';
    }
  }

  lemma StatusStable(h: string, rest: string)
    requires |h| >= 4 && h[|h| - 4..] == HEADER_END && Determined(h)
    ensures StatusOf(h + rest) == StatusOf(h)
  {
    hide StrToL, SpaceRun, StatusOf;
    PrefixStable(h, rest);
    if "HTTP/" <= h {
      var space := IndexOf(h, IndexOf(h, 5, '.'), ' ');
      LineEnds(h);
      assert h[space..][|h| - space - 4..] == h[|h| - 4..];
      SpacesEndEarlier(h[space..]);
      NumberStable(h, rest);
    } else {
      NoStatus(h);
      NoStatus(h + rest);
    }
  }

  lemma NoStatus(text: string)
    requires !("HTTP/" <= text)
    ensures StatusOf(text) == None
  {
  }

  /** A text that holds a dot, a space, and the whole number behind it. */
  lemma NumberStable(h: string, rest: string)
    requires "HTTP/" <= h && IsSpace(h[|h| - 1])
    requires var space := IndexOf(h, IndexOf(h, 5, '.'), ' ');
      space < |h| && SpaceRun(h[space..]) + 4 < |h| - space
    ensures StatusOf(h + rest) == StatusOf(h)
  {
    hide StrToL, SpaceRun;
    assert (h + rest)[..5] == h[..5];
    var dot := IndexOf(h, 5, '.');
    var space := IndexOf(h, dot, ' ');
    IndexOfStable(h, rest, dot, ' ');
    if dot < |h| {
      IndexOfStable(h, rest, 5, '.');
    }
    StrToLStable(h[space..], rest);
    assert (h + rest)[space..] == h[space..] + rest;
  }

  lemma DeliveredSnoc(log: seq<Output>, o: Output)
    ensures Delivered(log + [o]) == Delivered(log) + if o.Data? then o.bytes else ""
  {
    assert (log + [o])[..|log|] == log;
  }

  /** The text of a buffer that holds a header starts with that header. */
  lemma HeaderOfText(buffer: string, end: nat)
    requires HeaderEnd(buffer) == end
    ensures var h := buffer[..end + 4];
      h[end..] == HEADER_END && UpTo(buffer, '\0') == h + UpTo(buffer, '\0')[end + 4..]
  {
    hide UpTo, FindEnd;
    var text := UpTo(buffer, '\0');
    FindEndIsFirst(text);
    assert text[..end + 4] == buffer[..end + 4];
    assert buffer[..end + 4][end..] == text[end..end + 4];
  }

  /** A chunk that arrives while the response is awaited. */
  lemma DecideStream(s: Proxy)
    ensures HeaderEnd(s.buffer) < 0 ==> Decide(s) == s
    ensures HeaderEnd(s.buffer) >= 0 && Determined(s.buffer[..HeaderEnd(s.buffer) + 4]) ==>
      var end := HeaderEnd(s.buffer);
      if Successful(s.buffer[..end + 4])
      then Decide(s).mode == OPEN && Delivered(Decide(s).log) == Delivered(s.log) + s.buffer[end + 4..]
      else Decide(s) == Fail(s)
  {
    hide HeaderEnd, Determined, StatusOf, Delivered;
    var end := HeaderEnd(s.buffer);
    if end >= 0 && Determined(s.buffer[..end + 4]) {
      var h := s.buffer[..end + 4];
      HeaderOfText(s.buffer, end);
      StatusStable(h, UpTo(s.buffer, '\0')[end + 4..]);
      var established := Emit(s, OPEN, OpenDone(IO_OPEN_OK));
      DeliveredSnoc(s.log, OpenDone(IO_OPEN_OK));
      DeliveredSnoc(established.log, Data(s.buffer[end + 4..]));
    }
  }

  /** While the response is awaited, chunks leave the instance where their concatenation would:
      still waiting without a header; open, and passing on what follows the header, after a 2xx
      status; closed with an error, and passing on nothing, after any other. */
  lemma {:induction false} TunnelledStream(request: string, s: Proxy, chunks: seq<string>)
    requires s.mode == WAITING_FOR_CONNECT_RESPONSE && (HeaderEnd(s.buffer) < 0 || chunks != [])
    ensures var stream := s.buffer + Concat(chunks);
      var t := Run(request, s, Arrivals(chunks));
      var end := HeaderEnd(stream);
      && (end < 0 ==> t == s.(buffer := stream))
      && (end >= 0 && Determined(stream[..end + 4]) ==>
            if Successful(stream[..end + 4])
            then t.mode == OPEN && Delivered(t.log) == Delivered(s.log) + stream[end + 4..]
            else t.mode == CLOSED && t.log == s.log + [OpenDone(IO_OPEN_ERROR)])
    decreases |chunks|
  {
    hide HeaderEnd, Determined, Successful, Delivered, Decide;
    if chunks == [] {
      assert s.buffer + Concat(chunks) == s.buffer;
    } else {
      var s1 := s.(buffer := s.buffer + chunks[0]);
      assert Arrivals(chunks)[1..] == Arrivals(chunks[1..]);
      assert s.buffer + Concat(chunks) == s1.buffer + Concat(chunks[1..]);
      hide Concat, Arrivals;
      if HeaderEnd(s1.buffer) < 0 {
        DecideStream(s1);
        TunnelledStream(request, s1, chunks[1..]);
      } else {
        StreamDecided(request, s1, chunks[1..]);
      }
    }
  }

  /** The chunk that completes the header, and those behind it. */
  lemma StreamDecided(request: string, s: Proxy, chunks: seq<string>)
    requires HeaderEnd(s.buffer) >= 0
    ensures var stream := s.buffer + Concat(chunks);
      var t := Run(request, Decide(s), Arrivals(chunks));
      var end := HeaderEnd(stream);
      end >= 0 && (Determined(stream[..end + 4]) ==>
            if Successful(stream[..end + 4])
            then t.mode == OPEN && Delivered(t.log) == Delivered(s.log) + stream[end + 4..]
            else t.mode == CLOSED && t.log == s.log + [OpenDone(IO_OPEN_ERROR)])
  {
    hide HeaderEnd, Determined, Successful, Delivered, Decide, Concat, Arrivals, Run;
    DecideStream(s);
    HeaderEndStable(s.buffer, Concat(chunks));
    var end := HeaderEnd(s.buffer);
    assert (s.buffer + Concat(chunks))[..end + 4] == s.buffer[..end + 4];
    assert (s.buffer + Concat(chunks))[end + 4..] == s.buffer[end + 4..] + Concat(chunks);
    AfterDecision(request, Decide(s), chunks);
  }

  /** An open instance passes every chunk on; a closed one ignores it. */
  lemma {:induction false} AfterDecision(request: string, s: Proxy, chunks: seq<string>)
    ensures s.mode == OPEN ==>
      var t := Run(request, s, Arrivals(chunks));
      t.mode == OPEN && Delivered(t.log) == Delivered(s.log) + Concat(chunks)
    ensures s.mode == CLOSED ==> Run(request, s, Arrivals(chunks)) == s
    decreases |chunks|
  {
    hide Delivered, Decide;
    if chunks != [] {
      assert Arrivals(chunks)[1..] == Arrivals(chunks[1..]);
      DeliveredSnoc(s.log, Data(chunks[0]));
      AfterDecision(request, Next(request, s, BytesReceived(chunks[0], true)), chunks[1..]);
    }
  }

  const TAIL := "200. 200"

  lemma {:induction false} SpacesThen(w: string, rest: string)
    requires SpaceRun(w) == |w| && rest != "" && !IsSpace(rest[0])
    ensures SpaceRun(w + rest) == |w|
  {
    if w == "" {
      assert w + rest == rest;
    } else {
      assert (w + rest)[1..] == w[1..] + rest;
      SpacesThen(w[1..], rest);
    }
  }

  /** A text that starts with a numeral behind white space. */
  lemma ReadsConstant(w: string, t: string)
    requires SpaceRun(w) == |w| && t != "" && IsDigit(t[0], 10)
    ensures StrToL(w + t) == ConstantOf(t, false)
  {
    hide SpaceRun, ConstantOf;
    SpacesThen(w, t);
    assert (w + t)[|w|] == t[0];
    assert (w + t)[|w|..] == t;
  }

  /** A numeral of the base that its first characters select. */
  lemma ConstantIs(t: string, p: nat, d: string, rest: string, base: nat, v: nat)
    requires p <= |t| && t[p..] == d + rest && StandardPrefix(t, 0) == (p, base)
    requires d != "" && AllDigits(d, base) && (rest == "" || !IsDigit(rest[0], base)) && Number(d, base) == v <= INT_MAX
    ensures ConstantOf(t, false) == Some(v)
  {
    hide Number, DigitRun, StandardPrefix;
    RunOf(d, rest, base);
    assert (d + rest)[..|d|] == d;
  }

  lemma Reads200(w: string, rest: string)
    requires SpaceRun(w) == |w| && (rest == "" || !IsDigit(rest[0], 10))
    ensures StrToL(w + ("200" + rest)) == Some(200)
  {
    hide SpaceRun, Number, StrToL, ConstantOf;
    var t := "200" + rest;
    Number3('2', '0', '0', 10);
    assert ['2', '0', '0'] == "200" && t[0..] == t && t[0] == '2';
    ConstantIs(t, 0, "200", rest, 10, 200);
    ReadsConstant(w, t);
  }

  lemma Number1(a: char, base: nat)
    requires IsDigit(a, base)
    ensures AllDigits([a], base) && Number([a], base) == DigitVal(a)
  {
    assert [a][..0] == "";
  }

  lemma Number2(a: char, b: char, base: nat)
    requires IsDigit(a, base) && IsDigit(b, base)
    ensures AllDigits([a, b], base) && Number([a, b], base) == DigitVal(a) * base + DigitVal(b)
  {
    Number1(a, base);
    hide DigitVal;
    assert [a, b][..1] == [a];
  }

  lemma Number3(a: char, b: char, c: char, base: nat)
    requires IsDigit(a, base) && IsDigit(b, base) && IsDigit(c, base)
    ensures AllDigits([a, b, c], base)
    ensures Number([a, b, c], base) == (DigitVal(a) * base + DigitVal(b)) * base + DigitVal(c)
  {
    Number2(a, b, base);
    hide DigitVal;
    assert [a, b, c][..2] == [a, b];
  }

  lemma NoConstant(s: string)
    requires SpaceRun(s) == |s|
    ensures StrToL(s) == None
  {
  }

  /** Where the search for a character continues behind the text. */
  lemma {:induction false} IndexOfBehind(a: string, b: string, start: nat, c: char)
    requires start <= |a| && IndexOf(a, start, c) == |a|
    ensures IndexOf(a + b, start, c) == |a| + IndexOf(b, 0, c)
    decreases |a| - start
  {
    if start < |a| {
      IndexOfBehind(a, b, start + 1, c);
    } else {
      IndexOfShift(a, b, 0, c);
    }
  }

  lemma {:induction false} IndexOfShift(a: string, b: string, k: nat, c: char)
    requires k <= |b|
    ensures IndexOf(a + b, |a| + k, c) == |a| + IndexOf(b, k, c)
    decreases |b| - k
  {
    if k < |b| {
      IndexOfShift(a, b, k + 1, c);
    }
  }

  lemma TailPlaces()
    ensures IndexOf(TAIL, 0, '.') == 3 && IndexOf(TAIL, 0, ' ') == 4 && IndexOf(TAIL, 3, ' ') == 4
    ensures TAIL[4..] == " " + ("200" + "") && TAIL == "200" + ". 200" && SpaceRun(" ") == 1
  {
    assert IndexOf(TAIL, 3, '.') == 3 && IndexOf(TAIL, 4, ' ') == 4;
    assert IndexOf(TAIL, 2, '.') == 3 && IndexOf(TAIL, 2, ' ') == 4;
    assert SpaceRun(" "[1..]) == 0;
  }

  /** A header that does not decide the status fails alone and succeeds with a tail. */
  lemma TailDecides(h: string)
    requires "HTTP/" <= h && !Determined(h)
    ensures StatusOf(h) == None && StatusOf(h + TAIL) == Some(200)
  {
    hide StrToL, SpaceRun, IndexOf;
    TailPlaces();
    var dot := IndexOf(h, 5, '.');
    var space := IndexOf(h, dot, ' ');
    assert "HTTP/" <= h + TAIL;
    if dot == |h| {
      NothingBehind(h, ' ');
      IndexOfBehind(h, TAIL, 5, '.');
      IndexOfShift(h, TAIL, 3, ' ');
      assert (h + TAIL)[|h| + 4..] == TAIL[4..];
      Reads200(" ", "");
    } else {
      IndexOfStable(h, TAIL, 5, '.');
      if space == |h| {
        IndexOfBehind(h, TAIL, dot, ' ');
        assert (h + TAIL)[|h| + 4..] == TAIL[4..];
        Reads200(" ", "");
      } else {
        IndexOfStable(h, TAIL, dot, ' ');
        NoConstant(h[space..]);
        assert (h + TAIL)[space..] == h[space..] + ("200" + ". 200");
        Reads200(h[space..], ". 200");
      }
    }
  }

  lemma NothingBehind(h: string, c: char)
    ensures IndexOf(h, |h|, c) == |h|
  {
  }

  /** Only a deciding header makes the outcome independent of the chunks: any other header is
      refused when it arrives alone, and accepted when one more piece arrives with it. */
  lemma ChunkingMatters(request: string, s: Proxy, h: string)
    requires s.mode == WAITING_FOR_CONNECT_RESPONSE && s.buffer == ""
    requires |h| >= 4 && HeaderEnd(h) == |h| - 4 && !Determined(h)
    ensures Run(request, s, Arrivals([h, TAIL])).mode == CLOSED
    ensures Run(request, s, Arrivals([h + TAIL])).mode == OPEN
  {
    hide HeaderEnd, Determined, StatusOf, Delivered, Run, UpTo;
    assert "HTTP/" <= h by {
      DeterminedMeans(h);
    }
    TailDecides(h);
    HeaderOfText(h, |h| - 4);
    HeaderEndStable(h, TAIL);
    TextWithTail(h);
    var one, two := s.(buffer := h + TAIL), s.(buffer := h);
    assert "" + (h + TAIL) == h + TAIL && "" + h == h;
    assert Arrivals([h + TAIL]) == [BytesReceived(h + TAIL, true)];
    RunOne(request, s, BytesReceived(h + TAIL, true));
    assert Arrivals([h, TAIL]) == [BytesReceived(h, true), BytesReceived(TAIL, true)];
    RunTwo(request, s, BytesReceived(h, true), BytesReceived(TAIL, true));
  }

  lemma DeterminedMeans(h: string)
    requires !Determined(h)
    ensures "HTTP/" <= h
  {
  }

  lemma TextWithTail(h: string)
    requires |h| >= 4 && HeaderEnd(h) == |h| - 4
    ensures UpTo(h, '\0') == h && UpTo(h + TAIL, '\0') == h + TAIL
  {
    hide UpTo, FindEnd;
    assert UpTo(h, '\0') == h;
    UpToConcat(h, TAIL, '\0');
    assert TAIL[..8] == TAIL;
    UpToIs(TAIL, 8, '\0');
  }

  // ---- status lines ----

  /** The start of a status line, by section 6.1 of RFC 2616. */
  function StatusLine(major: string, minor: string, code: string): string {
    "HTTP/" + major + "." + minor + " " + code
  }

  /** Version numbers without dot and space, a code of three digits, and a space or the line end
      behind the code. */
  predicate WellFormed(major: string, minor: string, code: string, rest: string) {
    && '.' !in major && ' ' !in minor && |code| == 3 && AllDigits(code, 10)
    && rest != "" && (rest[0] == ' ' || rest[0] == '\r')
  }

  lemma ThreeDigits(code: string, base: nat)
    requires |code| == 3 && AllDigits(code, base)
    ensures Number(code, base) == (DigitVal(code[0]) * base + DigitVal(code[1])) * base + DigitVal(code[2])
  {
    Number3(code[0], code[1], code[2], base);
    assert code == [code[0], code[1], code[2]];
  }

  lemma OctalBound(d: string)
    requires |d| <= 2 && AllDigits(d, 8)
    ensures Number(d, 8) < 64
  {
    if |d| == 1 {
      Number1(d[0], 8);
      assert d == [d[0]];
    } else if |d| == 2 {
      Number2(d[0], d[1], 8);
      assert d == [d[0], d[1]];
    }
  }

  /** A code with a leading zero is read in base 8 and stays below 64. */
  lemma ZeroCode(code: string, rest: string)
    requires |code| == 3 && AllDigits(code, 10) && code[0] == '0' && rest != "" && (rest[0] == ' ' || rest[0] == '\r')
    ensures ConstantOf(code + rest, false).Some? && ConstantOf(code + rest, false).value < 64
  {
    hide Number;
    var t := code + rest;
    assert IsDigit(code[1], 10);
    assert StandardPrefix(t, 0) == (0, 8);
    var n := DigitRun(t, 8);
    DigitRunEnds(t, 8, 3);
    assert t[0..] == t;
    var u := t[1..][..DigitRun(t[1..], 8)];
    OctalZero(t);
    OctalBound(u);
  }

  lemma CodeValue(code: string, rest: string)
    requires |code| == 3 && AllDigits(code, 10) && rest != "" && (rest[0] == ' ' || rest[0] == '\r')
    ensures var c := ConstantOf(code + rest, false);
      c.Some? && (200 <= c.value <= 299 <==> code[0] == '2')
  {
    hide Number, ConstantOf, DigitRun;
    var t := code + rest;
    assert forall k :: 0 <= k < 3 ==> IsDigit(code[k], 10);
    assert t[0] == code[0];
    if code[0] == '0' {
      ZeroCode(code, rest);
    } else {
      ThreeDigits(code, 10);
      assert t[0..] == t;
      ConstantIs(t, 0, code, rest, 10, Number(code, 10));
    }
  }

  lemma {:induction false} IndexOfIs(s: string, from: nat, k: nat, c: char)
    requires from <= k < |s| && s[k] == c && c !in s[from..k]
    ensures IndexOf(s, from, c) == k
    decreases k - from
  {
    if from < k {
      assert s[from..k][0] == s[from] && s[from + 1..k] == s[from..k][1..];
      IndexOfIs(s, from + 1, k, c);
    }
  }

  lemma LineParts(major: string, minor: string, code: string, rest: string)
    requires '.' !in major && ' ' !in minor
    ensures var h := StatusLine(major, minor, code) + rest;
      var dot := 5 + |major|;
      var space := dot + 1 + |minor|;
      && "HTTP/" <= h && space < |h| && h[space..] == " " + (code + rest)
      && IndexOf(h, 5, '.') == dot && IndexOf(h, dot, ' ') == space
  {
    hide IndexOf;
    var h := StatusLine(major, minor, code) + rest;
    var dot := 5 + |major|;
    var space := dot + 1 + |minor|;
    assert h == "HTTP/" + major + ("." + minor + " " + code + rest);
    assert h[..5] == "HTTP/" && h[5..dot] == major && h[dot] == '.';
    assert h == "HTTP/" + major + "." + minor + (" " + (code + rest));
    assert h[dot..space] == "." + minor && h[space] == ' ';
    IndexOfIs(h, 5, dot, '.');
    IndexOfIs(h, dot, space, ' ');
  }

  lemma WellFormedParts(major: string, minor: string, code: string, rest: string)
    requires WellFormed(major, minor, code, rest)
    ensures '.' !in major && ' ' !in minor
  {
  }

  lemma OneSpace()
    ensures SpaceRun(" ") == 1
  {
    assert " "[1..] == "";
  }

  /** The text holds a code behind its first dot and the first space behind that. */
  predicate CodeAt(text: string, space: nat, code: string, rest: string) {
    && "HTTP/" <= text && space < |text| && text[space..] == " " + (code + rest)
    && IndexOf(text, IndexOf(text, 5, '.'), ' ') == space
  }

  lemma CodeRead(text: string, space: nat, code: string, rest: string)
    requires CodeAt(text, space, code, rest) && code != "" && IsDigit(code[0], 10)
    ensures Determined(text) && StatusOf(text) == ConstantOf(code + rest, false)
  {
    hide StrToL, ConstantOf, SpaceRun, IndexOf, DigitVal;
    OneSpace();
    assert (code + rest)[0] == code[0];
    DigitNoSpace(code[0]);
    ReadsConstant(" ", code + rest);
    SpacesThen(" ", code + rest);
  }

  lemma CodeDecides(text: string, space: nat, code: string, rest: string)
    requires CodeAt(text, space, code, rest) && |code| == 3 && AllDigits(code, 10)
    requires rest != "" && (rest[0] == ' ' || rest[0] == '\r')
    ensures Determined(text) && (Successful(text) <==> code[0] == '2')
  {
    hide CodeAt, Determined, ConstantOf, StatusOf;
    CodeValue(code, rest);
    CodeRead(text, space, code, rest);
  }

  lemma LineHasCode(major: string, minor: string, code: string, rest: string)
    requires '.' !in major && ' ' !in minor
    ensures CodeAt(StatusLine(major, minor, code) + rest, 6 + |major| + |minor|, code, rest)
  {
    LineParts(major, minor, code, rest);
    hide IndexOf, StatusLine;
  }

  /** A well-formed status line decides the status, and its first digit decides the outcome. */
  lemma StatusLineDecides(major: string, minor: string, code: string, rest: string)
    requires WellFormed(major, minor, code, rest)
    ensures var h := StatusLine(major, minor, code) + rest;
      Determined(h) && (Successful(h) <==> code[0] == '2')
  {
    hide CodeAt, Determined, Successful, StatusLine;
    LineHasCode(major, minor, code, rest);
    CodeDecides(StatusLine(major, minor, code) + rest, 6 + |major| + |minor|, code, rest);
  }

  /** In base 8 a numeral is no larger, and smaller if it is one of 8 or more in base 10. */
  lemma {:induction false} OctalLess(d: string)
    requires AllDigits(d, 8)
    ensures AllDigits(d, 10) && Number(d, 8) <= Number(d, 10)
    ensures Number(d, 8) == Number(d, 10) <==> Number(d, 10) < 8
  {
    hide DigitVal;
    if d != "" {
      OctalLess(d[..|d| - 1]);
    }
  }

  lemma {:induction false} PrefixNumber(d: string, n: nat)
    requires AllDigits(d, 10) && n <= |d|
    ensures AllDigits(d[..n], 10) && Number(d[..n], 10) <= Number(d, 10)
    decreases |d|
  {
    hide DigitVal;
    if n == |d| {
      assert d[..n] == d;
    } else {
      PrefixNumber(d[..|d| - 1], n);
      assert d[..|d| - 1][..n] == d[..n];
    }
  }

  /** What stands behind a zero at the start of a code, read in base 8. */
  lemma OctalCode(code: string, rest: string)
    requires code != "" && AllDigits(code, 10) && code[0] == '0' && rest != "" && (rest[0] == ' ' || rest[0] == '\r')
    requires Number(code, 10) <= INT_MAX
    ensures ConstantOf(code + rest, false) == Some(Number(code, 10)) <==> Number(code, 10) < 8
  {
    hide Number, DigitVal;
    var t := code + rest;
    CodeStart(code, rest);
    assert t[0..] == t;
    var n := DigitRun(t, 8);
    OctalRunInside(code, rest);
    assert t[..n] == code[..n];
    OctalLess(code[..n]);
    PrefixNumber(code, n);
    if n < |code| {
      assert t[n] == code[n] && !IsDigit(code[n], 8);
      PrefixNumber(code, n + 1);
      NumberStep(code, n, 10);
      EightOrNine(code[n]);
    } else {
      assert code[..n] == code;
    }
  }

  lemma EightOrNine(c: char)
    requires IsDigit(c, 10) && !IsDigit(c, 8)
    ensures DigitVal(c) >= 8
  {
  }

  lemma CodeStart(code: string, rest: string)
    requires code != "" && AllDigits(code, 10) && rest != "" && (rest[0] == ' ' || rest[0] == '\r')
    ensures StandardPrefix(code + rest, 0) == (0, if code[0] == '0' then 8 else 10) && !IsDigit(rest[0], 10)
  {
    var t := code + rest;
    assert t[0] == code[0];
    assert |code| > 1 ==> IsDigit(code[1], 10) && t[1] == code[1];
    assert |code| == 1 ==> t[1] == rest[0];
  }

  lemma OctalRunInside(code: string, rest: string)
    requires code != "" && AllDigits(code, 10) && code[0] == '0' && rest != "" && (rest[0] == ' ' || rest[0] == '\r')
    ensures 0 < DigitRun(code + rest, 8) <= |code|
  {
    assert (code + rest)[0] == '0' && IsDigit('0', 8);
    DigitRunEnds(code + rest, 8, |code|);
  }

  /** A code of any length up to INT_MAX is read in decimal if and only if it has no leading zero or
      is below 8. */
  lemma DecimalCode(major: string, minor: string, code: string, rest: string)
    requires '.' !in major && ' ' !in minor && code != "" && AllDigits(code, 10) && Number(code, 10) <= INT_MAX
    requires rest != "" && (rest[0] == ' ' || rest[0] == '\r')
    ensures StatusOf(StatusLine(major, minor, code) + rest) == Some(Number(code, 10)) <==> code[0] != '0' || Number(code, 10) < 8
  {
    hide CodeAt, StatusOf, StatusLine, ConstantOf, Number, StandardPrefix;
    assert IsDigit(code[0], 10);
    LineHasCode(major, minor, code, rest);
    CodeRead(StatusLine(major, minor, code) + rest, 6 + |major| + |minor|, code, rest);
    if code[0] == '0' {
      OctalCode(code, rest);
    } else {
      CodeStart(code, rest);
      assert (code + rest)[0..] == code + rest;
      ConstantIs(code + rest, 0, code, rest, 10, Number(code, 10));
    }
  }

  lemma DigitNoSpace(c: char)
    ensures IsDigit(c, 10) ==> !IsSpace(c)
  {
  }

  /** The first open: whatever the chunks, behind a header h with a well-formed status line the
      rest of the stream is handed on for a code that starts with 2, and nothing for any other. */
  lemma FirstSessionStream(request: string, chunks: seq<string>, major: string, minor: string, code: string, rest: string,
                           body: string)
    requires WellFormed(major, minor, code, rest)
    requires var h := StatusLine(major, minor, code) + rest;
      HeaderEnd(h) == |h| - 4 && Concat(chunks) == h + body
    ensures var t := Run(request, CREATED, CONNECT + Arrivals(chunks));
      if code[0] == '2' then t.mode == OPEN && Delivered(t.log) == body else t.mode == CLOSED && Delivered(t.log) == ""
  {
    hide HeaderEnd, Determined, Successful, Run, Next, StatusLine, WellFormed;
    var h := StatusLine(major, minor, code) + rest;
    StatusLineDecides(major, minor, code, rest);
    Connect(request, CREATED);
    RunConcat(request, CREATED, CONNECT, Arrivals(chunks));
    var s := Run(request, CREATED, CONNECT);
    NothingYet(request);
    assert "HTTP/" <= h by {
      WellFormedParts(major, minor, code, rest);
      LineParts(major, minor, code, rest);
    }
    HeaderEndStable(h, body);
    assert s.buffer + Concat(chunks) == h + body;
    assert (h + body)[..|h|] == h && (h + body)[|h|..] == body;
    NothingFound();
    TunnelledStream(request, s, chunks);
    DeliveredSnoc(s.log, OpenDone(IO_OPEN_ERROR));
  }

  // ---- a buffer that is kept ----

  /** What an earlier connection may leave in the buffer without harm. */
  predicate Harmless(b: string) {
    b == "" || ("HTTP/" <= b && '\0' !in b && HeaderEnd(b) < 0 && IndexOf(b, IndexOf(b, 5, '.'), ' ') == |b|)
  }

  /** The chunks are those of a header with a well-formed status line, and of what follows it. */
  predicate Carries(chunks: seq<string>, major: string, minor: string, code: string, rest: string, body: string) {
    var h := StatusLine(major, minor, code) + rest;
    WellFormed(major, minor, code, rest) && ' ' !in major && HeaderEnd(h) == |h| - 4 && Concat(chunks) == h + body
  }

  predicate Right(s: Proxy, t: Proxy, code: string, body: string) {
    if At(code, 0) == '2' then t.mode == OPEN && Delivered(t.log) == Delivered(s.log) + body
    else t.mode == CLOSED && Delivered(t.log) == Delivered(s.log)
  }

  /** Whatever the response and the chunks, what follows the header is handed on for a code that
      starts with 2, and nothing for any other. */
  ghost predicate HandsOnRight(request: string, s: Proxy) {
    forall chunks, major, minor, code, rest, body ::
      Carries(chunks, major, minor, code, rest, body) ==> Right(s, Run(request, s, Arrivals(chunks)), code, body)
  }

  /** A header behind text that holds no NUL and no header end. */
  lemma KeptHeader(b: string, h: string)
    requires '\0' !in b && HeaderEnd(b) < 0 && |h| >= 4 && HeaderEnd(h) == |h| - 4 && h[0] == 'H'
    ensures HeaderEnd(b + h) == |b| + |h| - 4 && UpTo(b + h, '\0') == b + h
  {
    hide UpTo, FindEnd;
    assert UpTo(h, '\0') == h;
    UpToConcat(b, h, '\0');
    UpToIs(b, |b|, '\0');
    assert b[..|b|] == b;
    FindEndIsFirst(b);
    FindEndIsFirst(h);
    FindEndIsFirst(b + h);
    var k := |b| + |h| - 4;
    assert (b + h)[k..k + 4] == h[|h| - 4..];
    assert EndsAt(b + h, k);
    forall i | EndsAt(b + h, i)
      ensures i >= k
    {
      EndBehind(b, h, i);
    }
  }

  lemma EndBehind(b: string, h: string, i: int)
    requires EndsAt(b + h, i) && h != "" && h[0] == 'H'
    ensures EndsAt(b, i) || EndsAt(h, i - |b|)
  {
    EndChar(b + h, i, |b|);
    assert (b + h)[|b|] == 'H';
    if i + 4 <= |b| {
      assert (b + h)[i..i + 4] == b[i..i + 4];
    } else if i >= |b| {
      assert (b + h)[i..i + 4] == h[i - |b|..i - |b| + 4];
    }
  }

  lemma EndChar(s: string, i: int, k: int)
    requires EndsAt(s, i)
    ensures i <= k < i + 4 ==> s[k] == '\r' || s[k] == '\n'
  {
    if i <= k < i + 4 {
      assert s[i..i + 4][k - i] == s[k];
    }
  }

  lemma KeptIndex(b: string, h: string, d: nat, k: nat)
    requires |b| >= 5 && IndexOf(b, IndexOf(b, 5, '.'), ' ') == |b| && d < |h|
    requires IndexOf(h, 0, '.') == d && IndexOf(h, d, ' ') == IndexOf(h, 0, ' ') == k
    ensures IndexOf(b + h, IndexOf(b + h, 5, '.'), ' ') == |b| + k
  {
    hide IndexOf;
    var dot := IndexOf(b, 5, '.');
    if dot < |b| {
      IndexOfStable(b, h, 5, '.');
      IndexOfBehind(b, h, dot, ' ');
    } else {
      IndexOfBehind(b, h, 5, '.');
      IndexOfShift(b, h, d, ' ');
    }
  }

  /** The code stays in its place behind a kept text that is harmless. */
  lemma KeptCode(b: string, major: string, minor: string, code: string, rest: string)
    requires "HTTP/" <= b && IndexOf(b, IndexOf(b, 5, '.'), ' ') == |b|
    requires '.' !in major && ' ' !in major && ' ' !in minor
    ensures CodeAt(b + (StatusLine(major, minor, code) + rest), |b| + 6 + |major| + |minor|, code, rest)
  {
    hide IndexOf, StatusLine;
    var h := StatusLine(major, minor, code) + rest;
    LineParts(major, minor, code, rest);
    FirstSpace(major, minor, code, rest);
    FirstDot(major, minor, code, rest);
    KeptIndex(b, h, 5 + |major|, 6 + |major| + |minor|);
    assert (b + h)[..5] == b[..5];
    Behind(b, h, 6 + |major| + |minor|);
  }

  lemma Behind(b: string, h: string, k: nat)
    requires k <= |h|
    ensures (b + h)[|b| + k..] == h[k..]
  {
  }

  lemma FirstSpace(major: string, minor: string, code: string, rest: string)
    requires ' ' !in major && ' ' !in minor
    ensures IndexOf(StatusLine(major, minor, code) + rest, 0, ' ') == 6 + |major| + |minor|
  {
    var h, front := StatusLine(major, minor, code) + rest, "HTTP/" + major + "." + minor;
    assert h == front + (" " + code + rest);
    assert h[0..|front|] == front && h[|front|] == ' ';
    IndexOfIs(h, 0, |front|, ' ');
  }

  lemma FirstDot(major: string, minor: string, code: string, rest: string)
    requires '.' !in major
    ensures IndexOf(StatusLine(major, minor, code) + rest, 0, '.') == 5 + |major|
  {
    var h, front := StatusLine(major, minor, code) + rest, "HTTP/" + major;
    assert h == front + ("." + minor + " " + code + rest);
    assert h[0..|front|] == front && h[|front|] == '.';
    IndexOfIs(h, 0, |front|, '.');
  }

  lemma KeptDecides(b: string, major: string, minor: string, code: string, rest: string)
    requires Harmless(b) && WellFormed(major, minor, code, rest) && ' ' !in major
    ensures var h := b + (StatusLine(major, minor, code) + rest);
      Determined(h) && (Successful(h) <==> code[0] == '2')
  {
    hide HeaderEnd, Determined, Successful, StatusLine, CodeAt, IndexOf;
    var h := StatusLine(major, minor, code) + rest;
    if b == "" {
      assert b + h == h;
      StatusLineDecides(major, minor, code, rest);
    } else {
      KeptCode(b, major, minor, code, rest);
      CodeDecides(b + h, |b| + 6 + |major| + |minor|, code, rest);
    }
  }

  lemma HarmlessParts(b: string)
    requires Harmless(b)
    ensures '\0' !in b && HeaderEnd(b) < 0
  {
    NothingFound();
    hide HeaderEnd, IndexOf;
  }

  lemma HarmlessRight(request: string, s: Proxy, chunks: seq<string>, major: string, minor: string, code: string, rest: string,
                      body: string)
    requires s.mode == WAITING_FOR_CONNECT_RESPONSE && Harmless(s.buffer)
    requires Carries(chunks, major, minor, code, rest, body)
    ensures Right(s, Run(request, s, Arrivals(chunks)), code, body)
  {
    hide HeaderEnd, Determined, Successful, Run, StatusLine, Delivered, Concat, Arrivals, Harmless, WellFormed, Right;
    var b, h := s.buffer, StatusLine(major, minor, code) + rest;
    LineStarts(major, minor, code, rest);
    HarmlessParts(b);
    KeptHeader(b, h);
    KeptDecides(b, major, minor, code, rest);
    assert b + Concat(chunks) == (b + h) + body;
    RightStream(request, s, chunks, b + h, code, body);
  }

  lemma LineStarts(major: string, minor: string, code: string, rest: string)
    requires WellFormed(major, minor, code, rest)
    ensures var h := StatusLine(major, minor, code) + rest;
      code != "" && |h| >= 4 && h[0] == 'H'
  {
    assert StatusLine(major, minor, code) + rest == "HTTP/" + (major + "." + minor + " " + code + rest);
  }

  lemma RightStream(request: string, s: Proxy, chunks: seq<string>, h: string, code: string, body: string)
    requires s.mode == WAITING_FOR_CONNECT_RESPONSE && HeaderEnd(s.buffer) < 0 && code != ""
    requires |h| >= 4 && HeaderEnd(h) == |h| - 4 && Determined(h) && (Successful(h) <==> code[0] == '2')
    requires s.buffer + Concat(chunks) == h + body
    ensures Right(s, Run(request, s, Arrivals(chunks)), code, body)
  {
    hide HeaderEnd, Determined, Successful, Run, Delivered, Concat, Arrivals;
    HeaderEndStable(h, body);
    assert (h + body)[..|h|] == h && (h + body)[|h|..] == body;
    TunnelledStream(request, s, chunks);
    DeliveredSnoc(s.log, OpenDone(IO_OPEN_ERROR));
  }

  /** A response without a body. */
  function Probe(code: string): string {
    StatusLine("1", "1", code) + "\r\n\r\n"
  }

  lemma ProbeCarries(code: string)
    requires |code| == 3 && AllDigits(code, 10)
    ensures Carries([Probe(code)], "1", "1", code, "\r\n\r\n", "")
    ensures Probe(code) == "HTTP/1.1 " + (code + "\r\n\r\n") && |Probe(code)| == 16 && HeaderEnd(Probe(code)) == 12
  {
    hide UpTo, FindEnd;
    var h := Probe(code);
    assert h == "HTTP/1.1 " + (code + "\r\n\r\n");
    forall i | 0 <= i < 16
      ensures h[i] != '\0' && (i < 12 ==> h[i] != '\r')
    {
      if 9 <= i < 12 {
        assert h[i] == code[i - 9] && IsDigit(code[i - 9], 10);
      } else if i >= 12 {
        assert h[i] == "\r\n\r\n"[i - 12];
      } else {
        assert h[i] == "HTTP/1.1 "[i];
      }
    }
    UpToIs(h, 16, '\0');
    assert h[..16] == h;
    FindEndIsFirst(h);
    assert h[12..16] == HEADER_END;
    assert EndsAt(h, 12);
    forall i | EndsAt(h, i)
      ensures i >= 12
    {
      assert h[i..i + 4][0] == h[i];
    }
    assert [h][1..] == [] && h + "" == h;
    assert Concat([h]) == h;
  }

  lemma OneChunk(request: string, s: Proxy, h: string)
    requires s.mode == WAITING_FOR_CONNECT_RESPONSE
    ensures Run(request, s, Arrivals([h])) == Decide(s.(buffer := s.buffer + h))
  {
    hide Run, Decide;
    assert Arrivals([h]) == [BytesReceived(h, true)];
    RunOne(request, s, BytesReceived(h, true));
    Received(request, s, h);
  }

  lemma DecideDelivers(s: Proxy)
    ensures HeaderEnd(s.buffer) >= 0 && Successful(UpTo(s.buffer, '\0')) ==>
      Delivered(Decide(s).log) == Delivered(s.log) + s.buffer[HeaderEnd(s.buffer) + 4..]
  {
    hide HeaderEnd, Successful, Delivered;
    if HeaderEnd(s.buffer) >= 0 {
      DeliveredSnoc(s.log, OpenDone(IO_OPEN_OK));
      DeliveredSnoc(Emit(s, OPEN, OpenDone(IO_OPEN_OK)).log, Data(s.buffer[HeaderEnd(s.buffer) + 4..]));
    }
  }

  lemma {:induction false} SpacesEndBefore(w: string, k: nat)
    requires k < |w| && !IsSpace(w[k])
    ensures SpaceRun(w) <= k
  {
    if k > 0 && IsSpace(w[0]) {
      SpacesEndBefore(w[1..], k - 1);
    }
  }

  /** Behind a kept text with a dot and a space the status does not depend on the response. */
  lemma KeptNumber(b: string, v: string, rest: string)
    requires "HTTP/" <= b && IndexOf(b, IndexOf(b, 5, '.'), ' ') < |b|
    requires |v| >= 5 && v[0] == 'H' && IsSpace(v[|v| - 1])
    ensures StatusOf(b + v + rest) == StatusOf(b + v)
  {
    hide StrToL, SpaceRun, IndexOf, StatusOf;
    var a := b + v;
    var dot := IndexOf(b, 5, '.');
    var space := IndexOf(b, dot, ' ');
    IndexOfStable(b, v, 5, '.');
    IndexOfStable(b, v, dot, ' ');
    assert a[..5] == b[..5];
    assert a[space..][|b| - space] == 'H';
    SpacesEndBefore(a[space..], |b| - space);
    NumberStable(a, rest);
  }

  lemma KeptStatus(b: string, code: string)
    requires "HTTP/" <= b && IndexOf(b, IndexOf(b, 5, '.'), ' ') < |b| && |code| == 3 && AllDigits(code, 10)
    ensures StatusOf(b + Probe(code)) == StatusOf(b + "HTTP/1.1 ")
  {
    ProbeCarries(code);
    hide IndexOf, StatusOf, Probe, HeaderEnd;
    KeptNumber(b, "HTTP/1.1 ", code + "\r\n\r\n");
    Join(b, "HTTP/1.1 ", code + "\r\n\r\n");
  }

  lemma Join(a: string, b: string, c: string)
    ensures a + b + c == a + (b + c)
  {
  }

  /** Any other text in the buffer makes one of two responses go wrong. */
  lemma HarmfulWrong(request: string, s: Proxy) returns (code: string)
    requires s.mode == WAITING_FOR_CONNECT_RESPONSE && !Harmless(s.buffer)
    ensures |code| == 3 && AllDigits(code, 10)
    ensures !Right(s, Run(request, s, Arrivals([Probe(code)])), code, "")
  {
    hide HeaderEnd, Successful, Run, Delivered, Probe, UpTo, Decide, IndexOf, Right;
    var b := s.buffer;
    ProbeCarries("200");
    ProbeCarries("404");
    code := "200";
    if HeaderEnd(b) >= 0 {
      EndKept(request, s);
    } else if '\0' in b {
      NulKept(request, s);
    } else if !("HTTP/" <= b) {
      NoPrefixKept(request, s);
    } else {
      code := SpaceKept(request, s);
    }
  }

  lemma WrongEnd(s: Proxy, t: Proxy)
    ensures t.mode != OPEN || |Delivered(t.log)| > |Delivered(s.log)| ==> !Right(s, t, "200", "")
    ensures t.mode != CLOSED ==> !Right(s, t, "404", "")
  {
    hide Delivered;
  }

  lemma EndKept(request: string, s: Proxy)
    requires s.mode == WAITING_FOR_CONNECT_RESPONSE && HeaderEnd(s.buffer) >= 0
    ensures !Right(s, Run(request, s, Arrivals([Probe("200")])), "200", "")
  {
    hide *;
    var h := Probe("200");
    var s1 := s.(buffer := s.buffer + h);
    ProbeText();
    ProbeStarts("200");
    OneChunk(request, s, h);
    HeaderEndStable(s.buffer, h);
    DecidedMode(s1);
    if Successful(UpTo(s1.buffer, '\0')) {
      DecideDelivers(s1);
    }
    WrongEnd(s, Decide(s1));
  }

  lemma ProbeText()
    ensures |"200"| == |"404"| == 3 && AllDigits("200", 10) && AllDigits("404", 10)
  {
  }

  lemma NulKept(request: string, s: Proxy)
    requires s.mode == WAITING_FOR_CONNECT_RESPONSE && HeaderEnd(s.buffer) < 0 && '\0' in s.buffer
    ensures !Right(s, Run(request, s, Arrivals([Probe("200")])), "200", "")
  {
    hide Successful, Run, Delivered, Probe, UpTo, FindEnd;
    var h := Probe("200");
    OneChunk(request, s, h);
    assert |UpTo(s.buffer, '\0')| == |s.buffer| ==> UpTo(s.buffer, '\0') == s.buffer;
    UpToConcat(s.buffer, h, '\0');
  }

  lemma NoPrefix(b: string, h: string)
    requires b != "" && !("HTTP/" <= b) && h != "" && h[0] == 'H'
    ensures !("HTTP/" <= b + h)
  {
    assert (b + h)[|b|] == 'H';
    assert |b| >= 5 ==> (b + h)[..5] == b[..5];
  }

  lemma NoPrefixKept(request: string, s: Proxy)
    requires s.mode == WAITING_FOR_CONNECT_RESPONSE && HeaderEnd(s.buffer) < 0 && '\0' !in s.buffer
    requires s.buffer != "" && !("HTTP/" <= s.buffer)
    ensures !Right(s, Run(request, s, Arrivals([Probe("200")])), "200", "")
  {
    ProbeStarts("200");
    hide HeaderEnd, Run, Delivered, Probe, UpTo, Decide, StatusOf;
    var b, h := s.buffer, Probe("200");
    OneChunk(request, s, h);
    KeptHeader(b, h);
    NoPrefix(b, h);
    NoStatus(b + h);
    DecidedMode(s.(buffer := b + h));
  }

  lemma ProbeStarts(code: string)
    requires |code| == 3 && AllDigits(code, 10)
    ensures |Probe(code)| == 16 && HeaderEnd(Probe(code)) == 12 && Probe(code)[0] == 'H'
  {
    ProbeCarries(code);
    hide HeaderEnd, Probe;
  }

  lemma SpaceKept(request: string, s: Proxy) returns (code: string)
    requires s.mode == WAITING_FOR_CONNECT_RESPONSE && HeaderEnd(s.buffer) < 0 && '\0' !in s.buffer
    requires "HTTP/" <= s.buffer && IndexOf(s.buffer, IndexOf(s.buffer, 5, '.'), ' ') < |s.buffer|
    ensures (code == "200" || code == "404") && !Right(s, Run(request, s, Arrivals([Probe(code)])), code, "")
  {
    hide *;
    var b := s.buffer;
    ProbeText();
    KeptStatus(b, "200");
    KeptStatus(b, "404");
    SameSuccess(b + Probe("200"), b + Probe("404"));
    code := if Successful(b + Probe("200")) then "404" else "200";
    ProbeStarts(code);
    OneChunk(request, s, Probe(code));
    KeptHeader(b, Probe(code));
    DecidedMode(s.(buffer := b + Probe(code)));
    WrongEnd(s, Decide(s.(buffer := b + Probe(code))));
  }

  lemma SameSuccess(a: string, b: string)
    requires StatusOf(a) == StatusOf(b)
    ensures Successful(a) == Successful(b)
  {
    hide StatusOf;
  }

  /** An open with text in its buffer hands on the right stream for every response if and only if
      that text is harmless. */
  lemma KeptBuffer(request: string, s: Proxy)
    requires s.mode == WAITING_FOR_CONNECT_RESPONSE
    ensures HandsOnRight(request, s) <==> Harmless(s.buffer)
  {
    hide Harmless, Carries, Right, Run, Probe, Arrivals;
    if Harmless(s.buffer) {
      forall chunks, major, minor, code, rest, body | Carries(chunks, major, minor, code, rest, body)
        ensures Right(s, Run(request, s, Arrivals(chunks)), code, body)
      {
        HarmlessRight(request, s, chunks, major, minor, code, rest, body);
      }
    } else {
      var code := HarmfulWrong(request, s);
      ProbeCarries(code);
    }
  }

  lemma NothingFound()
    ensures HeaderEnd("") < 0
  {
  }

  lemma NothingYet(request: string)
    ensures Delivered(Run(request, CREATED, CONNECT).log) == ""
  {
    hide Delivered, Run;
    RunTwo(request, CREATED, Open(true), OpenComplete(IO_OPEN_OK, true, true));
    DeliveredNone();
    DeliveredSnoc([], Started);
    DeliveredSnoc([] + [Started], ConnectSent(request));
  }

  lemma DeliveredNone()
    ensures Delivered([]) == ""
  {
  }

  /** The status is read in base 0, so that 0310 and 0xC8 are 200 too. */
  lemma OtherBases(major: string, minor: string, rest: string)
    requires WellFormed(major, minor, "200", rest)
    ensures Successful(StatusLine(major, minor, "0310") + rest) && Successful(StatusLine(major, minor, "0xC8") + rest)
  {
    hide StrToL, ConstantOf, SpaceRun, IndexOf, StatusLine, Number, DigitRun;
    LineParts(major, minor, "0310", rest);
    LineParts(major, minor, "0xC8", rest);
    OneSpace();
    var octal, hex := "0310" + rest, "0xC8" + rest;
    ReadsConstant(" ", octal);
    ReadsConstant(" ", hex);
    Number3('3', '1', '0', 8);
    LeadingZero("310", 8);
    assert ['3', '1', '0'] == "310" && "0" + "310" == "0310";
    assert octal[0..] == octal;
    ConstantIs(octal, 0, "0310", rest, 8, 200);
    Number2('C', '8', 16);
    assert ['C', '8'] == "C8";
    assert hex[2..] == "C8" + rest;
    ConstantIs(hex, 2, "C8", rest, 16, 200);
  }

  // ---- the CONNECT request ----

  const REQUEST_FORMAT := "CONNECT %s:%d HTTP/1.1\r\nHost:%s:%d%s%s\r\n\r\n"
  const PROXY_BASIC := "\r\nProxy-authorization: Basic "

  /** %d. */
  function PrintInt(n: int): string {
    if n < 0 then "-" + Decimal(-n) else Decimal(n)
  }

  /** The Basic credentials of RFC 2617, section 2: base64 of user, colon and password. */
  function AuthPayload(credentials: Option<(string, string)>): string
    requires credentials.Some? ==> IsText(credentials.value.0 + ":" + credentials.value.1)
  {
    if credentials.None? then "" else Base64.Encode(Base64.TextBytes(credentials.value.0 + ":" + credentials.value.1))
  }

  function ConnectRequest(host: string, port: int, basic: string, auth: string): string {
    "CONNECT " + host + ":" + PrintInt(port) + " HTTP/1.1\r\nHost:" + host + ":" + PrintInt(port) + basic + auth + "\r\n\r\n"
  }

  /** The size computed for the request buffer, without its NUL. */
  function ConnectRequestLength(host: string, basic: string, auth: string): nat {
    |REQUEST_FORMAT| + 2 * |host| + |auth| + 10 + |basic|
  }

  /** sprintf never writes past the request buffer for a 32-bit port, and fills it to the last
      place for a negative port of ten digits. */
  lemma RequestFits(host: string, port: int, basic: string, auth: string)
    requires -0x8000_0000 <= port < 0x8000_0000
    ensures |ConnectRequest(host, port, basic, auth)| <= ConnectRequestLength(host, basic, auth)
    ensures |ConnectRequest(host, port, basic, auth)| == ConnectRequestLength(host, basic, auth) <==> port <= -1_000_000_000
  {
    assert PowerOf10(5) == 10_0000 && PowerOf10(9) == 10_0000_0000 && PowerOf10(10) == 100_0000_0000;
    var m := if port < 0 then -port else port;
    DigitCount(m, 10);
    DigitCount(m, 9);
  }

  // ---- the instance ----

  class HttpProxyInstance {
    var state: Mode
    var receiveBuffer: array<char>
    var receiveBufferSize: nat
    var notifyClose: bool
    const hostname: string
    const port: int
    const credentials: Option<(string, string)>

    ghost var log: seq<Output>

    ghost predicate Valid()
      reads this
    {
      && receiveBufferSize <= receiveBuffer.Length
      && (receiveBufferSize > 0 ==> receiveBufferSize < receiveBuffer.Length)
      && -0x8000_0000 <= port < 0x8000_0000
      && (credentials.Some? ==> IsText(credentials.value.0 + ":" + credentials.value.1))
    }

    ghost function View(): Proxy
      requires Valid()
      reads this, receiveBuffer
    {
      Proxy(state, receiveBuffer[..receiveBufferSize], notifyClose, log)
    }

    ghost function Request(): string
      requires Valid()
      reads this
    {
      ConnectRequest(hostname, port, if credentials.Some? then PROXY_BASIC else "", AuthPayload(credentials))
    }

    constructor (hostname: string, port: int, credentials: Option<(string, string)>)
      requires -0x8000_0000 <= port < 0x8000_0000
      requires credentials.Some? ==> IsText(credentials.value.0 + ":" + credentials.value.1)
      ensures Valid() && View() == CREATED && fresh(receiveBuffer)
      ensures this.hostname == hostname && this.port == port && this.credentials == credentials
    {
      this.hostname, this.port, this.credentials := hostname, port, credentials;
      state, receiveBufferSize, notifyClose, log := CLOSED, 0, false, [];
      receiveBuffer := new char[0];
    }

    /** http_proxy_io_open; `started` is the outcome of xio_open. */
    method Open(started: bool) returns (ok: bool)
      requires Valid()
      modifies this
      ensures Valid() && receiveBuffer == old(receiveBuffer)
      ensures View() == Next(Request(), old(View()), Event.Open(started))
      ensures ok == (old(state) == CLOSED && started)
    {
      if state != CLOSED {
        return false;
      }
      state := OPENING_UNDERLYING_IO;
      if !started {
        state := CLOSED;
        return false;
      }
      log := log + [Started];
      ok := true;
    }

    /** http_proxy_io_close; `stopped` is the outcome of xio_close. */
    method Close(stopped: bool, notify: bool) returns (ok: bool)
      requires Valid()
      modifies this
      ensures Valid() && receiveBuffer == old(receiveBuffer)
      ensures View() == Next(Request(), old(View()), Event.Close(stopped, notify))
      ensures ok == (Pending(old(state)) || ((old(state) == OPEN || old(state) == ERROR) && stopped))
    {
      if state == CLOSED || state == CLOSING {
        ok := false;
      } else if state == OPENING_UNDERLYING_IO || state == WAITING_FOR_CONNECT_RESPONSE {
        state := CLOSED;
        log := log + [OpenDone(IO_OPEN_CANCELLED)];
        ok := true;
      } else {
        var previousState := state;
        state := CLOSING;
        notifyClose := notify;
        if !stopped {
          state := previousState;
          ok := false;
        } else {
          log := log + [Stopping];
          ok := true;
        }
      }
    }

    /** http_proxy_io_send; `accepted` is the outcome of xio_send. */
    method Send(bytes: string, accepted: bool) returns (ok: bool)
      requires Valid()
      modifies this
      ensures Valid() && receiveBuffer == old(receiveBuffer)
      ensures View() == Next(Request(), old(View()), Event.Send(bytes))
      ensures ok == (bytes != "" && old(state) == OPEN && accepted)
    {
      if bytes == "" || state != OPEN {
        return false;
      }
      log := log + [UserSent(bytes)];
      ok := accepted;
    }

    method IndicateOpenCompleteErrorAndClose()
      requires Valid()
      modifies this
      ensures Valid() && receiveBuffer == old(receiveBuffer) && receiveBufferSize == old(receiveBufferSize)
      ensures View() == Fail(old(View()))
    {
      state := CLOSED;
      log := log + [OpenDone(IO_OPEN_ERROR)];
    }

    /** The request, printed into a buffer of the computed size. */
    method BuildRequest() returns (request: string)
      requires Valid()
      ensures request == Request()
    {
      var auth, basic := "", "";
      if credentials.Some? {
        auth := Base64.Base64EncodeInternal(Base64.TextBytes(credentials.value.0 + ":" + credentials.value.1));
        basic := PROXY_BASIC;
      }
      var connectRequest := new char[ConnectRequestLength(hostname, basic, auth) + 1];
      request := ConnectRequest(hostname, port, basic, auth);
      RequestFits(hostname, port, basic, auth);
      var end := CopyText(connectRequest, 0, request);
      connectRequest[end] := '\0';
      request := connectRequest[..end];
    }

    /** on_underlying_io_open_complete; `prepared` is the outcome of the allocations for the
        request, `sent` the outcome of xio_send. */
    method OnUnderlyingIoOpenComplete(result: OpenResult, prepared: bool, sent: bool)
      requires Valid()
      modifies this
      ensures Valid() && receiveBuffer == old(receiveBuffer)
      ensures View() == Next(Request(), old(View()), OpenComplete(result, prepared, sent))
    {
      hide ConnectRequest, PhaseAfter;
      match state {
        case CLOSING => log := log + [Error(false)];
        case OPEN => log := log + [Error(false)];
        case WAITING_FOR_CONNECT_RESPONSE => IndicateOpenCompleteErrorAndClose();
        case OPENING_UNDERLYING_IO =>
          match result {
            case IO_OPEN_ERROR => IndicateOpenCompleteErrorAndClose();
            case IO_OPEN_CANCELLED =>
              state := CLOSED;
              log := log + [OpenDone(IO_OPEN_CANCELLED)];
            case IO_OPEN_OK =>
              state := WAITING_FOR_CONNECT_RESPONSE;
              if !prepared {
                IndicateOpenCompleteErrorAndClose();
              } else {
                var request := BuildRequest();
                log := log + [ConnectSent(request)];
                if !sent {
                  IndicateOpenCompleteErrorAndClose();
                }
              }
          }
        case _ =>
      }
    }

    /** on_underlying_io_error. */
    method OnUnderlyingIoError()
      requires Valid()
      modifies this
      ensures Valid() && receiveBuffer == old(receiveBuffer)
      ensures View() == Next(Request(), old(View()), IoError)
    {
      match state {
        case OPENING_UNDERLYING_IO => IndicateOpenCompleteErrorAndClose();
        case WAITING_FOR_CONNECT_RESPONSE => IndicateOpenCompleteErrorAndClose();
        case OPEN =>
          state := ERROR;
          log := log + [Error(true)];
        case _ =>
      }
    }

    /** on_underlying_io_close_complete. */
    method OnUnderlyingIoCloseComplete()
      requires Valid()
      modifies this
      ensures Valid() && receiveBuffer == old(receiveBuffer)
      ensures View() == Next(Request(), old(View()), CloseComplete)
    {
      if state == CLOSING {
        state := CLOSED;
        log := log + [Stopped(notifyClose)];
      }
    }

    /** ParseHttpResponse on the text of the buffer. */
    static method ParseHttpResponse(src: string, errno: bool) returns (ok: bool, statusCode: int)
      requires '\0' !in src
      ensures ok == (StatusOf(src).Some? && !((StatusOf(src).value == INT_MAX || StatusOf(src).value == INT_MIN) && errno))
      ensures ok ==> statusCode == StatusOf(src).value
      ensures (ok && 200 <= statusCode <= 299) == Successful(src)
    {
      hide StrToL;
      var i, fail := 0, false;
      statusCode := 0;
      while i < 5 && !fail
        invariant 0 <= i <= 5 && (fail ==> !("HTTP/" <= src))
        invariant !fail ==> i <= |src| && src[..i] == "HTTP/"[..i]
        decreases 5 - i, !fail
      {
        if "HTTP/"[i] != At(src, i) {
          fail := true;
        } else {
          assert src[..i + 1] == src[..i] + [src[i]];
          assert "HTTP/"[..i + 1] == "HTTP/"[..i] + ["HTTP/"[i]];
          i := i + 1;
        }
      }
      if fail {
        return false, 0;
      }
      assert src[..5] == "HTTP/";
      i := SkipTo(src, i, '.');
      i := SkipTo(src, i, ' ');
      if i == |src| {
        return false, 0;
      }
      var status := StrToL(src[i..]);
      if status.None? || ((status.value == INT_MAX || status.value == INT_MIN) && errno) {
        return false, 0;
      }
      return true, status.value;
    }

    /** The loops that look for a dot and for a space, up to the NUL. */
    static method SkipTo(src: string, start: nat, c: char) returns (i: nat)
      requires '\0' !in src && c != '\0' && start <= |src|
      ensures i == IndexOf(src, start, c)
    {
      i := start;
      while At(src, i) != c && At(src, i) != '\0'
        invariant start <= i <= |src| && IndexOf(src, start, c) == IndexOf(src, i, c)
        decreases |src| - i
      {
        i := i + 1;
      }
    }

    /** The reallocation and copy that append a chunk. */
    method Append(bytes: string)
      requires Valid()
      modifies this, receiveBuffer
      ensures Valid() && fresh(receiveBuffer) && receiveBufferSize == old(receiveBufferSize) + |bytes| < receiveBuffer.Length
      ensures View() == old(View()).(buffer := old(View()).buffer + bytes)
    {
      var size := receiveBufferSize;
      var newReceiveBuffer := new char[size + |bytes| + 1];
      var end := CopyText(newReceiveBuffer, 0, receiveBuffer[..size]);
      end := CopyText(newReceiveBuffer, end, bytes);
      receiveBuffer := newReceiveBuffer;
      receiveBufferSize := end;
    }

    /** on_underlying_io_bytes_received; `memory` is the outcome of the reallocation. */
    method OnUnderlyingIoBytesReceived(bytes: string, memory: bool)
      requires Valid()
      modifies this, receiveBuffer
      ensures Valid() && (receiveBuffer == old(receiveBuffer) || fresh(receiveBuffer))
      ensures View() == Next(Request(), old(View()), BytesReceived(bytes, memory))
    {
      hide ConnectRequest, HeaderEnd, StatusOf, UpTo;
      match state {
        case OPENING_UNDERLYING_IO => IndicateOpenCompleteErrorAndClose();
        case WAITING_FOR_CONNECT_RESPONSE =>
          if memory {
            Append(bytes);
          } else {
            IndicateOpenCompleteErrorAndClose();
          }
          DecideOnHeader();
        case OPEN => log := log + [Data(bytes)];
        case _ =>
      }
    }

    /** The search for the end of the header, and what follows when it is there. */
    method DecideOnHeader()
      requires Valid()
      modifies this, receiveBuffer
      ensures Valid() && receiveBuffer == old(receiveBuffer)
      ensures View() == Decide(old(View()))
    {
      hide HeaderEnd, StatusOf, UpTo;
      ghost var s := View();
      var buffer := receiveBuffer[..receiveBufferSize];
      if receiveBufferSize >= 4 {
        receiveBuffer[receiveBufferSize] := '\0';
        assert receiveBuffer[..receiveBufferSize] == buffer;
        var requestEnd := HeaderEnd(buffer);
        if requestEnd >= 0 {
          var errno: bool := *;
          var parsed, statusCode := ParseHttpResponse(UpTo(buffer, '\0'), errno);
          if !parsed || statusCode < 200 || statusCode > 299 {
            IndicateOpenCompleteErrorAndClose();
          } else {
            var lengthRemaining := receiveBufferSize - (requestEnd + 4);
            state := OPEN;
            log := log + [OpenDone(IO_OPEN_OK)];
            if lengthRemaining > 0 {
              log := log + [Data(buffer[requestEnd + 4..])];
            }
          }
        }
      }
    }
  }
}
