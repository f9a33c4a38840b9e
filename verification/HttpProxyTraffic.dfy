/** What a CONNECT tunnel hands to its socket and reports to its user (http_proxy_io.c), over whole runs,
    and what a proxy reads in the request. */
module HttpProxyTraffic {
  import opened CrtAbstractions
  import opened HttpProxyIo
  import opened Wrappers
  import Base64

  // ---- what goes to the socket, and what the user is told ----

  /** The bytes handed to the socket, those of the request included. */
  function Sent(log: seq<Output>): string {
    if log == [] then ""
    else
      Sent(log[..|log| - 1]) +
      match log[|log| - 1]
      case ConnectSent(request) => request
      case UserSent(bytes) => bytes
      case _ => ""
  }

  /** How many opens were completed as cancelled. */
  function Cancelled(log: seq<Output>): nat {
    if log == [] then 0 else Cancelled(log[..|log| - 1]) + if log[|log| - 1] == OpenDone(IO_OPEN_CANCELLED) then 1 else 0
  }

  /** Of each close that completed, whether its user was told. */
  function Notices(log: seq<Output>): seq<bool> {
    if log == [] then []
    else Notices(log[..|log| - 1]) + if log[|log| - 1].Stopped? then [log[|log| - 1].notified] else []
  }

  /** What an event gives to the socket: the request when the socket has opened and the request could be made,
      and what the user sends through an open tunnel. */
  function Offer(request: string, s: Proxy, e: Event): string {
    match e
    case OpenComplete(result, prepared, _) =>
      if s.mode == OPENING_UNDERLYING_IO && result == IO_OPEN_OK && prepared then request else ""
    case Send(bytes) => if s.mode == OPEN then bytes else ""
    case _ => ""
  }

  /** An open is cancelled by its user before it completes, or by the socket while that is opening. */
  predicate Cancels(s: Proxy, e: Event) {
    match e
    case Close(_, _) => Pending(s.mode)
    case OpenComplete(result, _, _) => s.mode == OPENING_UNDERLYING_IO && result == IO_OPEN_CANCELLED
    case _ => false
  }

  /** What the last close of an open or failed tunnel asked for, where `last` is what the one before did. */
  function Asked(s: Proxy, last: bool, e: Event): bool {
    if e.Close? && (s.mode == OPEN || s.mode == ERROR) then e.notify else last
  }

  /** Who closed is told when the close completes, if that was asked for. */
  function Told(s: Proxy, last: bool, e: Event): seq<bool> {
    if e.CloseComplete? && s.mode == CLOSING then [last] else []
  }

  function Offered(request: string, s: Proxy, events: seq<Event>): string
    decreases |events|
  {
    if events == [] then "" else Offer(request, s, events[0]) + Offered(request, Next(request, s, events[0]), events[1..])
  }

  function Cancellations(request: string, s: Proxy, events: seq<Event>): nat
    decreases |events|
  {
    if events == [] then 0
    else (if Cancels(s, events[0]) then 1 else 0) + Cancellations(request, Next(request, s, events[0]), events[1..])
  }

  function Wanted(request: string, s: Proxy, last: bool, events: seq<Event>): seq<bool>
    decreases |events|
  {
    if events == [] then []
    else
      var e := events[0];
      Told(s, last, e) + Wanted(request, Next(request, s, e), Asked(s, last, e), events[1..])
  }

  lemma SnocSent(log: seq<Output>, o: Output)
    ensures Sent(log + [o]) == Sent(log) + (if o.ConnectSent? then o.request else if o.UserSent? then o.bytes else "")
    ensures Cancelled(log + [o]) == Cancelled(log) + if o == OpenDone(IO_OPEN_CANCELLED) then 1 else 0
    ensures Notices(log + [o]) == Notices(log) + if o.Stopped? then [o.notified] else []
  {
    assert (log + [o])[..|log|] == log;
  }

  predicate SameReports(s: Proxy, t: Proxy) {
    Sent(t.log) == Sent(s.log) && Cancelled(t.log) == Cancelled(s.log) && Notices(t.log) == Notices(s.log) && t.notify == s.notify
  }

  lemma DecideSends(s: Proxy)
    ensures SameReports(s, Decide(s)) && SameReports(s, Fail(s))
  {
    hide HeaderEnd, Successful, Sent, Cancelled, Notices;
    var end := HeaderEnd(s.buffer);
    var established := Emit(s, OPEN, OpenDone(IO_OPEN_OK));
    SnocSent(s.log, OpenDone(IO_OPEN_ERROR));
    SnocSent(s.log, OpenDone(IO_OPEN_OK));
    if end >= 0 {
      SnocSent(established.log, Data(s.buffer[end + 4..]));
    }
  }

  /** What an event adds to the three reports. */
  predicate Reports(request: string, s: Proxy, e: Event, t: Proxy) {
    && Sent(t.log) == Sent(s.log) + Offer(request, s, e)
    && Cancelled(t.log) == Cancelled(s.log) + (if Cancels(s, e) then 1 else 0)
    && Notices(t.log) == Notices(s.log) + Told(s, s.notify, e)
    && t.notify == Asked(s, s.notify, e)
  }

  lemma UserSends(request: string, s: Proxy, e: Event)
    requires e.Open? || e.Close? || e.Send?
    ensures Reports(request, s, e, Next(request, s, e))
  {
    hide Sent, Cancelled, Notices;
    SnocSent(s.log, Started);
    SnocSent(s.log, OpenDone(IO_OPEN_CANCELLED));
    SnocSent(s.log, Stopping);
    if e.Send? {
      SnocSent(s.log, UserSent(e.bytes));
    }
  }

  lemma EmitSends(s: Proxy, mode: Mode, o: Output)
    ensures var t := Emit(s, mode, o);
      && Sent(t.log) == Sent(s.log) + (if o.ConnectSent? then o.request else if o.UserSent? then o.bytes else "")
      && Cancelled(t.log) == Cancelled(s.log) + (if o == OpenDone(IO_OPEN_CANCELLED) then 1 else 0)
      && Notices(t.log) == Notices(s.log) + (if o.Stopped? then [o.notified] else []) && t.notify == s.notify
  {
    SnocSent(s.log, o);
  }

  lemma OpenCompleteSends(request: string, s: Proxy, e: Event)
    requires e.OpenComplete?
    ensures Reports(request, s, e, Next(request, s, e))
  {
    hide Sent, Cancelled, Notices, Fail, Emit, Decide;
    EmitSends(s, s.mode, Error(false));
    EmitSends(s, CLOSED, OpenDone(IO_OPEN_CANCELLED));
    DecideSends(s);
    EmitSends(s, WAITING_FOR_CONNECT_RESPONSE, ConnectSent(request));
    DecideSends(Emit(s, WAITING_FOR_CONNECT_RESPONSE, ConnectSent(request)));
  }

  lemma SocketSends(request: string, s: Proxy, e: Event)
    requires e.BytesReceived? || e.IoError? || e.CloseComplete?
    ensures Reports(request, s, e, Next(request, s, e))
  {
    hide Sent, Cancelled, Notices, Decide, Fail;
    DecideSends(s);
    SnocSent(s.log, Error(true));
    SnocSent(s.log, Stopped(s.notify));
    if e.BytesReceived? {
      SnocSent(s.log, Data(e.bytes));
      DecideSends(s.(buffer := s.buffer + e.bytes));
      DecideSends(Fail(s));
    }
  }

  /** The socket is handed exactly the requests and what the user sends through an open tunnel, in order; an open
      completes as cancelled exactly when it was; and who closes is told as the last close asked. */
  lemma {:induction false} RunSends(request: string, s: Proxy, events: seq<Event>)
    ensures Sent(Run(request, s, events).log) == Sent(s.log) + Offered(request, s, events)
    ensures Cancelled(Run(request, s, events).log) == Cancelled(s.log) + Cancellations(request, s, events)
    ensures Notices(Run(request, s, events).log) == Notices(s.log) + Wanted(request, s, s.notify, events)
    decreases |events|
  {
    hide Sent, Cancelled, Notices, Next, Offer, Cancels, Asked, Told;
    if events != [] {
      var e, t := events[0], Next(request, s, events[0]);
      if e.OpenComplete? {
        OpenCompleteSends(request, s, e);
      } else if e.Open? || e.Close? || e.Send? {
        UserSends(request, s, e);
      } else {
        SocketSends(request, s, e);
      }
      RunSends(request, t, events[1..]);
    }
  }

  // ---- the request ----

  /** The lines of a message, each but the last ended by a carriage return and a line feed. */
  function Lines(t: string): (r: seq<string>)
    decreases |t|
  {
    var n := |UpTo(t, '\r')|;
    if n + 1 < |t| && t[n + 1] == '\n' then [t[..n]] + Lines(t[n + 2..]) else [t]
  }

  lemma FirstLine(line: string, rest: string)
    requires '\r' !in line
    ensures Lines(line + "\r\n" + rest) == [line] + Lines(rest)
  {
    hide UpTo;
    var t := line + "\r\n" + rest;
    assert t[..|line|] == line && t[|line| + 2..] == rest;
    UpToIs(t, |line|, '\r');
  }

  /** How a port is read. */
  function PortOf(s: string): Option<int> {
    if s != "" && AllDigits(s, 10) then Some(Number(s, 10))
    else if |s| > 1 && s[0] == '-' && AllDigits(s[1..], 10) then
      var n: int := Number(s[1..], 10);
      Some(-n)
    else None
  }

  lemma PortRead(port: int)
    ensures PortOf(PrintInt(port)) == Some(port)
  {
    hide Decimal, Number;
    DecimalNumber(if port < 0 then -port else port);
    if port < 0 {
      assert PrintInt(port)[1..] == Decimal(-port);
      assert !IsDigit(PrintInt(port)[0], 10);
    }
  }

  lemma PortPlain(port: int)
    ensures '\r' !in PrintInt(port) && ' ' !in PrintInt(port)
  {
    var n := if port < 0 then -port else port;
    hide Decimal;
    forall k | 0 <= k < |Decimal(n)|
      ensures Decimal(n)[k] != '\r' && Decimal(n)[k] != ' '
    {
      DecimalAt(n, k);
    }
  }

  /** The target of a request line: the host behind the method, up to a colon, and the port behind that, up to a
      space. */
  function Target(line: string): Option<(string, int)> {
    if !("CONNECT " <= line) then None
    else
      var host := UpTo(line[8..], ':');
      if 8 + |host| == |line| then None
      else
        var rest := line[9 + |host|..];
        var port := PortOf(UpTo(rest, ' '));
        if port.None? || rest[|UpTo(rest, ' ')|..] != " HTTP/1.1" then None else Some((host, port.value))
  }

  lemma TargetRead(host: string, port: int)
    requires ':' !in host
    ensures Target("CONNECT " + host + ":" + PrintInt(port) + " HTTP/1.1") == Some((host, port))
  {
    hide UpTo, PortOf, PrintInt;
    var rest := PrintInt(port) + " HTTP/1.1";
    var line := "CONNECT " + host + ":" + PrintInt(port) + " HTTP/1.1";
    assert line == "CONNECT " + (host + ":" + rest);
    assert line[8..] == host + ":" + rest && line[9 + |host|..] == rest;
    assert (host + ":" + rest)[..|host|] == host && rest[..|PrintInt(port)|] == PrintInt(port);
    assert rest[|PrintInt(port)|..] == " HTTP/1.1";
    UpToIs(host + ":" + rest, |host|, ':');
    PortPlain(port);
    UpToIs(rest, |PrintInt(port)|, ' ');
    PortRead(port);
  }

  lemma Regroup(c: string, h: string, p: string, v: string, n: string, f: string, rest: string)
    ensures c + h + ":" + p + (v + n + f) + h + ":" + p + rest == (c + h + ":" + p + v) + n + ((f + h + ":" + p) + rest)
  {
    var front, middle := c + h + ":" + p, h + ":" + p + rest;
    assert c + h + ":" + p + (v + n + f) + h + ":" + p + rest == front + (v + n + f) + middle;
    assert (f + h + ":" + p) + rest == f + middle;
    assert front + (v + n + f) + middle == (front + v) + n + (f + middle);
  }

  lemma AtTheEnd(front: string, a: string, b: string, c: string)
    ensures front + a + b + c == front + (a + b + c)
  {
  }

  lemma CredentialsLine(field: string, auth: string)
    ensures field + (PROXY_BASIC + auth + "\r\n\r\n") == field + "\r\n" + ("Proxy-authorization: Basic " + auth + "\r\n\r\n")
  {
    assert PROXY_BASIC == "\r\n" + "Proxy-authorization: Basic ";
  }

  lemma FourLines(a: string, b: string)
    requires '\r' !in a && '\r' !in b
    ensures Lines(a + "\r\n" + (b + "\r\n\r\n")) == [a, b, "", ""]
  {
    hide Lines;
    assert b + "\r\n\r\n" == b + "\r\n" + ("" + "\r\n" + "");
    FirstLine(a, b + "\r\n\r\n");
    FirstLine(b, "" + "\r\n" + "");
    FirstLine("", "");
    LastLine();
  }

  lemma LastLine()
    ensures Lines("") == [""]
  {
  }

  /** The request has a request line with the target, a Host line, the credentials if there are any, and an empty
      line. */
  lemma RequestRead(host: string, port: int, credentials: Option<(string, string)>)
    requires '\r' !in host && ':' !in host
    requires credentials.Some? ==> IsText(credentials.value.0 + ":" + credentials.value.1)
    ensures var basic, auth := if credentials.Some? then PROXY_BASIC else "", AuthPayload(credentials);
      var line, field := "CONNECT " + host + ":" + PrintInt(port) + " HTTP/1.1", "Host:" + host + ":" + PrintInt(port);
      && Target(line) == Some((host, port))
      && Lines(ConnectRequest(host, port, basic, auth))
         == [line, field] + (if credentials.Some? then ["Proxy-authorization: Basic " + auth] else []) + ["", ""]
  {
    hide Lines, Target, PrintInt, AuthPayload;
    var auth, p := AuthPayload(credentials), PrintInt(port);
    var line, field := "CONNECT " + host + ":" + p + " HTTP/1.1", "Host:" + host + ":" + p;
    TargetRead(host, port);
    PortPlain(port);
    PayloadPlain(credentials);
    assert " HTTP/1.1\r\nHost:" == " HTTP/1.1" + "\r\n" + "Host:";
    if credentials.Some? {
      RequestWith(host, p, auth, line, field);
    } else {
      RequestWithout(host, p, line, field);
    }
  }

  lemma RequestWithout(host: string, p: string, line: string, field: string)
    requires line == "CONNECT " + host + ":" + p + " HTTP/1.1" && field == "Host:" + host + ":" + p
    requires '\r' !in line && '\r' !in field
    ensures Lines("CONNECT " + host + ":" + p + (" HTTP/1.1" + "\r\n" + "Host:") + host + ":" + p + "" + "" + "\r\n\r\n")
         == [line, field, "", ""]
  {
    hide Lines;
    var front := "CONNECT " + host + ":" + p + (" HTTP/1.1" + "\r\n" + "Host:") + host + ":" + p;
    AtTheEnd(front, "", "", "\r\n\r\n");
    assert "" + "" + "\r\n\r\n" == "\r\n\r\n";
    Regroup("CONNECT ", host, p, " HTTP/1.1", "\r\n", "Host:", "\r\n\r\n");
    FourLines(line, field);
  }

  lemma RequestWith(host: string, p: string, auth: string, line: string, field: string)
    requires line == "CONNECT " + host + ":" + p + " HTTP/1.1" && field == "Host:" + host + ":" + p
    requires '\r' !in line && '\r' !in field && '\r' !in auth
    ensures Lines("CONNECT " + host + ":" + p + (" HTTP/1.1" + "\r\n" + "Host:") + host + ":" + p + PROXY_BASIC + auth + "\r\n\r\n")
         == [line, field, "Proxy-authorization: Basic " + auth, "", ""]
  {
    hide Lines;
    var last, rest := "Proxy-authorization: Basic " + auth, PROXY_BASIC + auth + "\r\n\r\n";
    var front := "CONNECT " + host + ":" + p + (" HTTP/1.1" + "\r\n" + "Host:") + host + ":" + p;
    AtTheEnd(front, PROXY_BASIC, auth, "\r\n\r\n");
    Regroup("CONNECT ", host, p, " HTTP/1.1", "\r\n", "Host:", rest);
    CredentialsLine(field, auth);
    FirstLine(line, field + rest);
    FourLines(field, last);
  }

  lemma PayloadPlain(credentials: Option<(string, string)>)
    requires credentials.Some? ==> IsText(credentials.value.0 + ":" + credentials.value.1)
    ensures '\r' !in AuthPayload(credentials) && (credentials.None? ==> AuthPayload(credentials) == "")
  {
    if credentials.Some? {
      Base64.EncodeAlphabet(Base64.TextBytes(credentials.value.0 + ":" + credentials.value.1));
    }
  }

  /** The credentials decode to the user, a colon and the password. */
  lemma CredentialsRead(user: string, password: string)
    requires IsText(user + ":" + password) && ':' !in user
    ensures var p, text := AuthPayload(Some((user, password))), user + ":" + password;
      && Base64.Decode(p[..Base64.PrefixLength(p)]) == Base64.TextBytes(text)
      && (forall i :: 0 <= i < |text| ==> Base64.TextBytes(text)[i] == text[i] as int)
      && UpTo(text, ':') == user && text[|user| + 1..] == password
  {
    hide Base64.Encode, Base64.Decode, Base64.PrefixLength, UpTo;
    var text := user + ":" + password;
    Base64.DecodeEncode(Base64.TextBytes(text));
    assert text[..|user|] == user;
    UpToIs(text, |user|, ':');
  }
}
