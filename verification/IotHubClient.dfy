/** Confirmation delivery in the convenience layer (iothub_client.c over vector.c): the steps of
    one application thread and of the worker thread, interleaved.  A step is what happens under
    one hold of the lock, or one access that is made without it. */
module IotHubClient {
  import opened Sequences
  import opened Vector

  /** A user callback; Null when none is registered. */
  datatype Callback = Null | User(name: nat)

  /** What the lower layer reports about one accepted event. */
  datatype Confirmation = Confirmation(id: nat, result: nat)

  /** A confirmation whose turn has come, and the callback that was registered then. */
  datatype Delivery = Delivery(callback: Callback, confirmation: Confirmation)

  /** The worker: waiting for the lock, or with callbacks it has taken over still to make. */
  datatype Worker = NotStarted | AtTop | Dispatching(callBacks: seq<Confirmation>) | Exited

  datatype App = Idle | Sending(callback: Callback) | Joining | Destroyed

  datatype Client = Client(
    worker: Worker, app: App, stop: bool, callback: Callback,
    saved: seq<Confirmation>,    // saved_user_callback_list
    pending: multiset<nat>,      // queue contexts the lower layer holds
    history: History)

  /** Queue contexts by the order of their allocation, each with the callback its event was sent
      with, and what became of them. */
  datatype History = History(
    contexts: seq<Callback>, accepted: seq<nat>, rejected: seq<nat>, freed: seq<nat>,
    queued: seq<Confirmation>, lost: seq<Confirmation>, delivered: seq<Delivery>)

  const CREATED := Client(NotStarted, Idle, false, Null, [], multiset{}, History([], [], [], [], [], [], []))

  /** A confirmation from the lower layer, and whether it can be appended to the vector. */
  datatype Report = Report(confirmation: Confirmation, pushed: bool)

  datatype Action =
    | StartSend(callback: Callback, created: bool)
    | LockedSend(locked: bool, memory: bool, accept: bool)
    | WorkerPass(reports: seq<Report>, moved: bool)
    | Dispatch
    | BeginDestroy
    | EndDestroy(reports: seq<Report>)

  function Ids(cs: seq<Confirmation>): (r: seq<nat>)
    ensures |r| == |cs|
  {
    seq(|cs|, i requires 0 <= i < |cs| => cs[i].id)
  }

  function Reported(rs: seq<Report>): (r: seq<nat>)
    ensures |r| == |rs|
  {
    seq(|rs|, i requires 0 <= i < |rs| => rs[i].confirmation.id)
  }

  function Confirmations(ds: seq<Delivery>): (r: seq<Confirmation>)
    ensures |r| == |ds|
  {
    seq(|ds|, i requires 0 <= i < |ds| => ds[i].confirmation)
  }

  /** The contract of the lower layer: it confirms only contexts it holds, each once, and on its
      destruction all of them. */
  predicate Allowed(s: Client, a: Action) {
    match a
    case WorkerPass(reports, _) => s.worker.AtTop? && !s.stop ==> multiset(Reported(reports)) <= s.pending
    case EndDestroy(reports) => s.app.Joining? && (s.worker.NotStarted? || s.worker.Exited?) ==> multiset(Reported(reports)) == s.pending
    case _ => true
  }

  // ---- the steps ----

  /** iothub_ll_event_confirm_callback: the confirmation is appended, or lost when the vector
      cannot grow; the context is freed either way. */
  function Confirm(s: Client, r: Report): Client {
    var h := s.history.(freed := s.history.freed + [r.confirmation.id]);
    if r.pushed
    then s.(saved := s.saved + [r.confirmation], history := h.(queued := h.queued + [r.confirmation]), pending := s.pending - multiset{r.confirmation.id})
    else s.(history := h.(lost := h.lost + [r.confirmation]), pending := s.pending - multiset{r.confirmation.id})
  }

  function ConfirmAll(s: Client, rs: seq<Report>): Client
    decreases |rs|
  {
    if rs == [] then s else ConfirmAll(Confirm(s, rs[0]), rs[1..])
  }

  function Deliver(s: Client, c: Confirmation): Client {
    s.(history := s.history.(delivered := s.history.delivered + [Delivery(s.callback, c)]))
  }

  function DeliverAll(s: Client, cs: seq<Confirmation>): Client
    decreases |cs|
  {
    if cs == [] then s else DeliverAll(Deliver(s, cs[0]), cs[1..])
  }

  /** The part of IoTHubClient_SendEventAsync under the lock. */
  function Submit(s: Client, accept: bool): Client
    requires s.app.Sending?
  {
    var id := |s.history.contexts|;
    var h := s.history.(contexts := s.history.contexts + [s.app.callback]);
    if accept
    then s.(pending := s.pending + multiset{id}, history := h.(accepted := h.accepted + [id]))
    else s.(history := h.(rejected := h.rejected + [id], freed := h.freed + [id]))
  }

  function Next(s: Client, a: Action): Client {
    match a
    case StartSend(callback, created) =>
      if !s.app.Idle? then s
      else if s.worker.NotStarted? && !created then s.(stop := false)
      else s.(worker := if s.worker.NotStarted? then AtTop else s.worker,
              stop := if s.worker.NotStarted? then false else s.stop, callback := callback, app := Sending(callback))
    case LockedSend(locked, memory, accept) =>
      if !s.app.Sending? then s
      else
        (if !locked || s.app.callback.Null? || !memory then s else Submit(s, accept)).(app := Idle)
    case WorkerPass(reports, moved) =>
      if !s.worker.AtTop? then s
      else if s.stop then s.(worker := Exited)
      else
        var t := ConfirmAll(s, reports);
        if moved then t.(worker := Dispatching(t.saved), saved := []) else t
    case Dispatch =>
      if !s.worker.Dispatching? then s
      else if s.worker.callBacks == [] then s.(worker := AtTop)
      else Deliver(s, s.worker.callBacks[0]).(worker := Dispatching(s.worker.callBacks[1..]))
    case BeginDestroy =>
      if !s.app.Idle? then s else s.(app := Joining, stop := s.stop || !s.worker.NotStarted?)
    case EndDestroy(reports) =>
      if !s.app.Joining? || !(s.worker.NotStarted? || s.worker.Exited?) then s
      else
        var t := ConfirmAll(s, reports);
        DeliverAll(t, t.saved).(saved := [], app := Destroyed)
  }

  function Run(s: Client, actions: seq<Action>): Client
    decreases |actions|
  {
    if actions == [] then s else Run(Next(s, actions[0]), actions[1..])
  }

  predicate AllAllowed(s: Client, actions: seq<Action>)
    decreases |actions|
  {
    actions != [] ==> Allowed(s, actions[0]) && AllAllowed(Next(s, actions[0]), actions[1..])
  }

  // ---- what every step keeps ----

  function InFlight(w: Worker): seq<Confirmation> {
    if w.Dispatching? then w.callBacks else []
  }

  /** Queue order: what was delivered, then what the worker holds, then what is saved. */
  predicate Ordered(h: History, worker: Worker, saved: seq<Confirmation>) {
    h.queued == Confirmations(h.delivered) + InFlight(worker) + saved
  }

  /** Conservation: every accepted event is with the lower layer, queued, or lost; every context
      is held by the lower layer or freed, and only one of the two. */
  predicate Conserved(h: History, pending: multiset<nat>) {
    && multiset(h.accepted) == pending + multiset(Ids(h.queued)) + multiset(Ids(h.lost))
    && multiset(Range(|h.contexts|)) == pending + multiset(h.freed)
    && multiset(Range(|h.contexts|)) == multiset(h.accepted) + multiset(h.rejected)
  }

  predicate Consistent(s: Client) {
    && Ordered(s.history, s.worker, s.saved) && Conserved(s.history, s.pending)
    && (s.app.Destroyed? ==> s.pending == multiset{} && s.saved == [] && (s.worker.NotStarted? || s.worker.Exited?))
  }

  lemma IdsPush(cs: seq<Confirmation>, c: Confirmation)
    ensures multiset(Ids(cs + [c])) == multiset(Ids(cs)) + multiset{c.id}
  {
    assert Ids(cs + [c]) == Ids(cs) + [c.id];
  }

  /** One identifier moves from one account to another. */
  lemma MoveOne(all: multiset<nat>, held: multiset<nat>, other: multiset<nat>, rest: multiset<nat>, id: nat)
    requires all == held + other + rest && id in held
    ensures all == held - multiset{id} + (other + multiset{id}) + rest && all == held - multiset{id} + other + (rest + multiset{id})
  {
  }

  lemma ConfirmKeeps(s: Client, r: Report)
    requires Ordered(s.history, s.worker, s.saved) && Conserved(s.history, s.pending) && r.confirmation.id in s.pending
    ensures var t := Confirm(s, r);
      Ordered(t.history, t.worker, t.saved) && Conserved(t.history, t.pending)
      && t == s.(saved := t.saved, pending := s.pending - multiset{r.confirmation.id}, history := t.history)
  {
    hide Range, Confirmations, Ids;
    var h, id := s.history, r.confirmation.id;
    IdsPush(h.queued, r.confirmation);
    IdsPush(h.lost, r.confirmation);
    MoveOne(multiset(h.accepted), s.pending, multiset(Ids(h.queued)), multiset(Ids(h.lost)), id);
    MoveOne(multiset(Range(|h.contexts|)), s.pending, multiset(h.freed), multiset{}, id);
    Push(h.freed, id);
    Regroup(Confirmations(h.delivered) + InFlight(s.worker), s.saved, [r.confirmation]);
  }

  lemma Push(ids: seq<nat>, id: nat)
    ensures multiset(ids + [id]) == multiset(ids) + multiset{id}
  {
  }

  lemma ReportedSplit(rs: seq<Report>)
    ensures multiset(Reported(rs)) == if rs == [] then multiset{} else multiset{rs[0].confirmation.id} + multiset(Reported(rs[1..]))
  {
    if rs != [] {
      assert Reported(rs) == [rs[0].confirmation.id] + Reported(rs[1..]);
    }
  }

  lemma SubtractBoth(held: multiset<nat>, id: nat, rest: multiset<nat>)
    requires multiset{id} + rest <= held
    ensures id in held && rest <= held - multiset{id} && held - multiset{id} - rest == held - (multiset{id} + rest)
  {
  }

  lemma {:induction false} ConfirmAllKeeps(s: Client, rs: seq<Report>)
    requires Ordered(s.history, s.worker, s.saved) && Conserved(s.history, s.pending) && multiset(Reported(rs)) <= s.pending
    ensures var t := ConfirmAll(s, rs);
      Ordered(t.history, t.worker, t.saved) && Conserved(t.history, t.pending)
      && t == s.(saved := t.saved, pending := s.pending - multiset(Reported(rs)), history := t.history)
    decreases |rs|
  {
    hide Confirm, Ordered, Conserved, Reported;
    ReportedSplit(rs);
    if rs != [] {
      var id := rs[0].confirmation.id;
      SubtractBoth(s.pending, id, multiset(Reported(rs[1..])));
      ConfirmKeeps(s, rs[0]);
      ConfirmAllKeeps(Confirm(s, rs[0]), rs[1..]);
    }
  }

  lemma {:induction false} DeliverAllKeeps(s: Client, cs: seq<Confirmation>)
    ensures var t := DeliverAll(s, cs);
      Confirmations(t.history.delivered) == Confirmations(s.history.delivered) + cs
      && t == s.(history := s.history.(delivered := t.history.delivered))
    decreases |cs|
  {
    if cs != [] {
      var t := Deliver(s, cs[0]);
      DeliverAllKeeps(t, cs[1..]);
      assert Confirmations(t.history.delivered) == Confirmations(s.history.delivered) + [cs[0]];
      assert [cs[0]] + cs[1..] == cs;
    } else {
      assert Confirmations(s.history.delivered) + cs == Confirmations(s.history.delivered);
    }
  }

  /** One more identifier in an account. */
  lemma AddOne(all: multiset<nat>, held: multiset<nat>, other: multiset<nat>, rest: multiset<nat>, id: nat)
    requires all == held + other + rest
    ensures all + multiset{id} == held + multiset{id} + other + rest && all + multiset{id} == held + (other + multiset{id}) + rest
  {
  }

  lemma AcceptConserves(h: History, pending: multiset<nat>, c: Callback)
    requires Conserved(h, pending)
    ensures Conserved(h.(contexts := h.contexts + [c], accepted := h.accepted + [|h.contexts|]), pending + multiset{|h.contexts|})
  {
    hide Ids, Range;
    var id := |h.contexts|;
    RangePush(id);
    Push(h.accepted, id);
    AddOne(multiset(h.accepted), pending, multiset(Ids(h.queued)), multiset(Ids(h.lost)), id);
    AddOne(multiset(Range(id)), pending, multiset(h.freed), multiset{}, id);
    AddOne(multiset(Range(id)), multiset(h.accepted), multiset(h.rejected), multiset{}, id);
  }

  lemma RejectConserves(h: History, pending: multiset<nat>, c: Callback)
    requires Conserved(h, pending)
    ensures Conserved(h.(contexts := h.contexts + [c], rejected := h.rejected + [|h.contexts|], freed := h.freed + [|h.contexts|]), pending)
  {
    hide Ids, Range;
    var id := |h.contexts|;
    RangePush(id);
    Push(h.rejected, id);
    Push(h.freed, id);
    AddOne(multiset(Range(id)), pending, multiset(h.freed), multiset{}, id);
    AddOne(multiset(Range(id)), multiset(h.accepted), multiset(h.rejected), multiset{}, id);
  }

  lemma SubmitKeeps(s: Client, accept: bool)
    requires s.app.Sending? && Ordered(s.history, s.worker, s.saved) && Conserved(s.history, s.pending)
    ensures var t := Submit(s, accept);
      Ordered(t.history, t.worker, t.saved) && Conserved(t.history, t.pending)
  {
    hide Conserved, Confirmations;
    if accept {
      AcceptConserves(s.history, s.pending, s.app.callback);
    } else {
      RejectConserves(s.history, s.pending, s.app.callback);
    }
  }

  lemma RangePush(n: nat)
    ensures multiset(Range(n + 1)) == multiset(Range(n)) + multiset{n}
  {
    assert Range(n + 1) == Range(n) + [n];
  }

  lemma PassKeeps(s: Client, reports: seq<Report>, moved: bool)
    requires Consistent(s) && s.worker.AtTop? && !s.stop && multiset(Reported(reports)) <= s.pending
    ensures Consistent(Next(s, WorkerPass(reports, moved)))
  {
    hide Conserved, ConfirmAll, Confirmations;
    ConfirmAllKeeps(s, reports);
    var t := ConfirmAll(s, reports);
    var d := Confirmations(t.history.delivered);
    assert d + t.saved + [] == d + [] + t.saved;
  }

  lemma DispatchKeeps(s: Client)
    requires Consistent(s) && s.worker.Dispatching?
    ensures Consistent(Next(s, Dispatch))
  {
    hide Conserved;
    if s.worker.callBacks != [] {
      var c := s.worker.callBacks[0];
      var d, first, rest := Confirmations(s.history.delivered), [c], s.worker.callBacks[1..];
      assert Confirmations(s.history.delivered + [Delivery(s.callback, c)]) == d + first;
      assert first + rest == s.worker.callBacks;
      assert d + (first + rest) + s.saved == d + first + rest + s.saved;
      ConservedFrame(s.history, Next(s, Dispatch).history, s.pending);
    }
  }

  /** Conservation does not look at what was delivered. */
  lemma ConservedFrame(h: History, k: History, pending: multiset<nat>)
    requires Conserved(h, pending) && k == h.(delivered := k.delivered)
    ensures Conserved(k, pending)
  {
  }

  lemma EndKeeps(s: Client, reports: seq<Report>)
    requires Consistent(s) && s.app.Joining? && (s.worker.NotStarted? || s.worker.Exited?) && multiset(Reported(reports)) == s.pending
    ensures Consistent(Next(s, EndDestroy(reports)))
  {
    hide Conserved, ConfirmAll, Confirmations, DeliverAll;
    ConfirmAllKeeps(s, reports);
    var t := ConfirmAll(s, reports);
    DeliverAllKeeps(t, t.saved);
    var u := DeliverAll(t, t.saved);
    ConservedFrame(t.history, u.history, t.pending);
    var d := Confirmations(t.history.delivered);
    assert d + [] + t.saved == d + t.saved + [] + [];
  }

  /** Every step keeps the queue order and the accounts, whoever takes it. */
  lemma StepKeeps(s: Client, a: Action)
    requires Consistent(s) && Allowed(s, a)
    ensures Consistent(Next(s, a))
  {
    hide Conserved, ConfirmAll, Confirmations, DeliverAll, Submit;
    match a {
      case StartSend(_, _) =>
      case LockedSend(locked, memory, accept) =>
        if s.app.Sending? {
          SubmitKeeps(s, accept);
        }
      case WorkerPass(reports, moved) =>
        if s.worker.AtTop? && !s.stop {
          PassKeeps(s, reports, moved);
        }
      case Dispatch =>
        if s.worker.Dispatching? {
          DispatchKeeps(s);
        }
      case BeginDestroy =>
      case EndDestroy(reports) =>
        if s.app.Joining? && (s.worker.NotStarted? || s.worker.Exited?) {
          EndKeeps(s, reports);
        }
    }
  }

  lemma CreatedConsistent()
    ensures Consistent(CREATED)
  {
  }

  lemma {:induction false} RunKeeps(s: Client, actions: seq<Action>)
    requires Consistent(s) && AllAllowed(s, actions)
    ensures Consistent(Run(s, actions))
    decreases |actions|
  {
    hide Consistent, Next, Allowed;
    if actions != [] {
      StepKeeps(s, actions[0]);
      RunKeeps(Next(s, actions[0]), actions[1..]);
    }
  }

  // ---- what is queued and lost, and from where ----

  /** The reports of a step that take effect: those of a pass that is not stopped, and those of a destruction behind
      the worker. */
  function Effective(s: Client, a: Action): seq<Report> {
    match a
    case WorkerPass(reports, _) => if s.worker.AtTop? && !s.stop then reports else []
    case EndDestroy(reports) => if s.app.Joining? && (s.worker.NotStarted? || s.worker.Exited?) then reports else []
    case _ => []
  }

  function AllEffective(s: Client, actions: seq<Action>): seq<Report>
    decreases |actions|
  {
    if actions == [] then [] else Effective(s, actions[0]) + AllEffective(Next(s, actions[0]), actions[1..])
  }

  /** The confirmations among the reports that could be appended, or could not, in order. */
  function Among(rs: seq<Report>, pushed: bool): seq<Confirmation> {
    if rs == [] then []
    else (if rs[0].pushed == pushed then [rs[0].confirmation] else []) + Among(rs[1..], pushed)
  }

  /** The event is handed to the lower layer, with a context for it. */
  predicate Submits(s: Client, a: Action) {
    a.LockedSend? && s.app.Sending? && a.locked && a.memory && s.app.callback.User?
  }

  /** The callbacks of the events handed to the lower layer, and whether it accepted them. */
  function Submitted(s: Client, actions: seq<Action>): seq<(Callback, bool)>
    decreases |actions|
  {
    if actions == [] then []
    else (if Submits(s, actions[0]) then [(s.app.callback, actions[0].accept)] else []) + Submitted(Next(s, actions[0]), actions[1..])
  }

  /** The callbacks of submissions. */
  function Callbacks(sent: seq<(Callback, bool)>): seq<Callback> {
    if sent == [] then [] else [sent[0].0] + Callbacks(sent[1..])
  }

  /** The places of those with an outcome, counted from n. */
  function Places(sent: seq<(Callback, bool)>, n: nat, outcome: bool): seq<nat> {
    if sent == [] then [] else (if sent[0].1 == outcome then [n] else []) + Places(sent[1..], n + 1, outcome)
  }

  lemma {:induction false} AmongConcat(a: seq<Report>, b: seq<Report>, pushed: bool)
    ensures Among(a + b, pushed) == Among(a, pushed) + Among(b, pushed)
  {
    if a == [] {
      assert a + b == b;
    } else {
      assert (a + b)[1..] == a[1..] + b;
      AmongConcat(a[1..], b, pushed);
      var first := if a[0].pushed == pushed then [a[0].confirmation] else [];
      assert first + (Among(a[1..], pushed) + Among(b, pushed)) == first + Among(a[1..], pushed) + Among(b, pushed);
    }
  }

  /** The accounts that only grow. */
  predicate SameAccounts(h: History, k: History) {
    k.contexts == h.contexts && k.accepted == h.accepted && k.rejected == h.rejected
  }

  lemma {:induction false} ConfirmAllQueues(s: Client, rs: seq<Report>)
    ensures var (h, k) := (s.history, ConfirmAll(s, rs).history);
      k.queued == h.queued + Among(rs, true) && k.lost == h.lost + Among(rs, false) && SameAccounts(h, k)
    decreases |rs|
  {
    if rs != [] {
      ConfirmAllQueues(Confirm(s, rs[0]), rs[1..]);
    }
  }

  lemma StepQueues(s: Client, a: Action)
    ensures var (h, k) := (s.history, Next(s, a).history);
      && k.queued == h.queued + Among(Effective(s, a), true)
      && k.lost == h.lost + Among(Effective(s, a), false)
      && (if Submits(s, a) then
            k.contexts == h.contexts + [s.app.callback]
            && (if a.accept then k.accepted == h.accepted + [|h.contexts|] && k.rejected == h.rejected
                else k.accepted == h.accepted && k.rejected == h.rejected + [|h.contexts|])
          else SameAccounts(h, k))
  {
    hide ConfirmAll, DeliverAll, Among;
    NoneAmong();
    match a {
      case WorkerPass(reports, _) => ConfirmAllQueues(s, reports);
      case EndDestroy(reports) =>
        ConfirmAllQueues(s, reports);
        DeliverAllTo(ConfirmAll(s, reports), ConfirmAll(s, reports).saved);
      case _ =>
    }
  }

  lemma NoneAmong()
    ensures Among([], true) == [] && Among([], false) == []
  {
  }

  /** In every run the queue gets exactly the confirmations that were reported in time and could be appended, with
      their results and in order; those that could not are lost. */
  lemma {:induction false} RunQueues(s: Client, actions: seq<Action>)
    ensures var (h, k, reports) := (s.history, Run(s, actions).history, AllEffective(s, actions));
      k.queued == h.queued + Among(reports, true) && k.lost == h.lost + Among(reports, false)
    decreases |actions|
  {
    hide Next, Effective, Submits, Among;
    if actions == [] {
      NoneAmong();
    } else {
      var a, t := actions[0], Next(s, actions[0]);
      StepQueues(s, a);
      RunQueues(t, actions[1..]);
      AmongConcat(Effective(s, a), AllEffective(t, actions[1..]), true);
      AmongConcat(Effective(s, a), AllEffective(t, actions[1..]), false);
    }
  }

  /** The contexts are those of the events handed to the lower layer, by their callbacks; which are accepted and which
      rejected is what it said. */
  lemma {:induction false} RunSubmits(s: Client, actions: seq<Action>)
    ensures var (h, k, sent) := (s.history, Run(s, actions).history, Submitted(s, actions));
      && k.contexts == h.contexts + Callbacks(sent)
      && k.accepted == h.accepted + Places(sent, |h.contexts|, true)
      && k.rejected == h.rejected + Places(sent, |h.contexts|, false)
    decreases |actions|
  {
    hide Next, Effective, Submits, Among;
    if actions != [] {
      var a, t := actions[0], Next(s, actions[0]);
      StepQueues(s, a);
      RunSubmits(t, actions[1..]);
      if Submits(s, a) {
        assert Submitted(s, actions)[1..] == Submitted(t, actions[1..]);
      } else {
        assert Submitted(s, actions) == Submitted(t, actions[1..]);
      }
    }
  }

  /** The same from the start. */
  lemma RunAccounts(actions: seq<Action>)
    ensures var (h, reports, sent) := (Run(CREATED, actions).history, AllEffective(CREATED, actions), Submitted(CREATED, actions));
      && h.queued == Among(reports, true) && h.lost == Among(reports, false)
      && h.contexts == Callbacks(sent) && h.accepted == Places(sent, 0, true) && h.rejected == Places(sent, 0, false)
  {
    hide Run, AllEffective, Submitted, Among, Callbacks, Places;
    RunQueues(CREATED, actions);
    RunSubmits(CREATED, actions);
    var reports, sent := AllEffective(CREATED, actions), Submitted(CREATED, actions);
    assert [] + Among(reports, true) == Among(reports, true) && [] + Among(reports, false) == Among(reports, false);
    assert [] + Callbacks(sent) == Callbacks(sent);
    assert [] + Places(sent, 0, true) == Places(sent, 0, true) && [] + Places(sent, 0, false) == Places(sent, 0, false);
  }

  // ---- exactly once ----

  /** After the destruction, whatever the interleaving was: the confirmations that the lower layer reported and that
      could be saved came up in that order, with their results; that of each accepted event came up once, or is among
      the lost ones; and each context was freed once.  Which callback received them is the matter of the next part. */
  lemma EachOnce(actions: seq<Action>, id: nat)
    requires AllAllowed(CREATED, actions) && Run(CREATED, actions).app.Destroyed?
    ensures var (h, reports) := (Run(CREATED, actions).history, AllEffective(CREATED, actions));
      && Confirmations(h.delivered) == h.queued == Among(reports, true) && h.lost == Among(reports, false)
      && multiset(h.freed)[id] == (if id < |h.contexts| then 1 else 0)
      && multiset(Ids(h.queued))[id] + multiset(Ids(h.lost))[id] == multiset(h.accepted)[id] <= 1
  {
    CreatedConsistent();
    RunKeeps(CREATED, actions);
    var s := Run(CREATED, actions);
    RangeCount(|s.history.contexts|, id);
    RunAccounts(actions);
    assert s.history.queued == Confirmations(s.history.delivered) + [] + [];
  }

  lemma NoneIds(id: nat)
    ensures multiset(Ids([]))[id] == 0
  {
  }

  // ---- whose callback ----

  /** The callbacks of the sends that were started, in order. */
  function Started(s: Client, actions: seq<Action>): seq<Callback>
    decreases |actions|
  {
    if actions == [] then []
    else (if Starts(s, actions[0]) then [actions[0].callback] else []) + Started(Next(s, actions[0]), actions[1..])
  }

  /** The action is a send that gets past the start of the worker. */
  predicate Starts(s: Client, a: Action) {
    a.StartSend? && s.app.Idle? && (s.worker.NotStarted? ==> a.created)
  }

  function Last(first: Callback, cs: seq<Callback>): Callback {
    if cs == [] then first else cs[|cs| - 1]
  }

  lemma {:induction false} ConfirmAllFrame(s: Client, rs: seq<Report>)
    ensures var t := ConfirmAll(s, rs);
      && t.callback == s.callback && t.app == s.app && t.worker == s.worker
      && t.history.contexts == s.history.contexts && t.history.delivered == s.history.delivered
    decreases |rs|
  {
    if rs != [] {
      ConfirmAllFrame(Confirm(s, rs[0]), rs[1..]);
    }
  }

  lemma {:induction false} DeliverAllTo(s: Client, cs: seq<Confirmation>)
    ensures var t := DeliverAll(s, cs);
      && s.history.delivered <= t.history.delivered
      && (forall i :: |s.history.delivered| <= i < |t.history.delivered| ==> t.history.delivered[i].callback == s.callback)
      && t == s.(history := s.history.(delivered := t.history.delivered))
    decreases |cs|
  {
    if cs != [] {
      DeliverAllTo(Deliver(s, cs[0]), cs[1..]);
    }
  }

  /** What a step delivers goes to the callback that is registered before it. */
  lemma StepDelivers(s: Client, a: Action)
    ensures var (before, after) := (s.history.delivered, Next(s, a).history.delivered);
      before <= after && forall i :: |before| <= i < |after| ==> after[i].callback == s.callback
    ensures Next(s, a).callback == if Starts(s, a) then a.callback else s.callback
  {
    hide ConfirmAll, DeliverAll;
    match a {
      case WorkerPass(reports, _) => ConfirmAllFrame(s, reports);
      case EndDestroy(reports) =>
        ConfirmAllFrame(s, reports);
        DeliverAllTo(ConfirmAll(s, reports), ConfirmAll(s, reports).saved);
      case _ =>
    }
  }

  lemma {:induction false} RegisteredIsLast(s: Client, actions: seq<Action>)
    ensures Run(s, actions).callback == Last(s.callback, Started(s, actions))
    decreases |actions|
  {
    hide Next, Starts;
    if actions != [] {
      StepDelivers(s, actions[0]);
      RegisteredIsLast(Next(s, actions[0]), actions[1..]);
    }
  }

  /** In every run, what the next step delivers goes to the callback of the last send that was
      started, whichever event is confirmed. */
  lemma DeliveredToLast(actions: seq<Action>, a: Action)
    ensures var (before, after) := (Run(CREATED, actions).history.delivered, Next(Run(CREATED, actions), a).history.delivered);
      before <= after && forall i :: |before| <= i < |after| ==> after[i].callback == Last(Null, Started(CREATED, actions))
  {
    hide Run, Next, Started;
    RegisteredIsLast(CREATED, actions);
    StepDelivers(Run(CREATED, actions), a);
  }

  /** Every confirmation was delivered to the callback its event was sent with. */
  predicate Own(h: History) {
    forall i :: 0 <= i < |h.delivered| ==>
      h.delivered[i].confirmation.id < |h.contexts| && h.delivered[i].callback == h.contexts[h.delivered[i].confirmation.id]
  }

  /** From the first send with a callback on, all sends pass that one. */
  predicate Steady(cs: seq<Callback>) {
    forall i, j :: 0 <= i < j < |cs| && cs[i].User? ==> cs[j] == cs[i]
  }

  /** The same, send by send, for a known callback; last is the one registered before. */
  predicate Fits(last: Callback, cs: seq<Callback>, c: nat)
    decreases |cs|
  {
    cs != [] ==> (cs[0] == User(c) || cs[0] == last == Null) && Fits(cs[0], cs[1..], c)
  }

  lemma {:induction false} SteadyFits(last: Callback, cs: seq<Callback>, c: nat)
    requires Steady(cs) && forall i :: 0 <= i < |cs| ==> cs[i] == User(c) || cs[i] == last == Null
    ensures Fits(last, cs, c)
    decreases |cs|
  {
    if cs != [] {
      SteadyFits(cs[0], cs[1..], c);
    }
  }

  lemma SteadyName(cs: seq<Callback>) returns (c: nat)
    requires Steady(cs)
    ensures Fits(Null, cs, c)
  {
    if i :| 0 <= i < |cs| && cs[i].User? {
      c := cs[i].name;
    } else {
      c := 0;
    }
    SteadyFits(Null, cs, c);
  }

  predicate OnlyTo(h: History, c: nat) {
    && (forall k :: 0 <= k < |h.contexts| ==> h.contexts[k] == User(c))
    && (forall i :: 0 <= i < |h.delivered| ==> h.delivered[i].callback == User(c))
  }

  predicate Faithful(s: Client, c: nat) {
    && OnlyTo(s.history, c)
    && (s.callback == User(c) || (s.callback == Null && s.history.contexts == []))
    && (s.app.Sending? ==> s.app.callback == s.callback)
  }

  /** Nothing is queued before a context was allocated. */
  lemma QueuedAllocated(s: Client)
    requires Consistent(s) && s.history.contexts == []
    ensures InFlight(s.worker) == [] && s.saved == [] && s.pending == multiset{}
  {
    var q := Ids(s.history.queued);
    assert multiset(q) <= multiset(s.history.accepted) <= multiset(Range(0)) == multiset{};
    assert |q| == |multiset(q)| == 0;
  }

  lemma StepFaithful(s: Client, a: Action, c: nat)
    requires Consistent(s) && Allowed(s, a) && Faithful(s, c)
    requires Starts(s, a) ==> a.callback == User(c) || a.callback == s.callback == Null
    ensures Faithful(Next(s, a), c)
  {
    hide Consistent, ConfirmAll, DeliverAll;
    if s.history.contexts == [] {
      QueuedAllocated(s);
    }
    match a {
      case WorkerPass(reports, _) => ConfirmAllFrame(s, reports);
      case EndDestroy(reports) =>
        if s.app.Joining? && (s.worker.NotStarted? || s.worker.Exited?) {
          ConfirmAllFrame(s, reports);
          if s.history.contexts == [] {
            assert multiset(Reported(reports)) == multiset{};
            assert |multiset(Reported(reports))| == |reports|;
            NothingConfirmed(s);
          }
          DeliverAllTo(ConfirmAll(s, reports), ConfirmAll(s, reports).saved);
        }
      case _ =>
    }
  }

  lemma NothingConfirmed(s: Client)
    ensures ConfirmAll(s, []) == s && DeliverAll(s, []) == s
  {
  }

  lemma {:induction false} RunFaithful(s: Client, actions: seq<Action>, c: nat)
    requires Consistent(s) && AllAllowed(s, actions) && Faithful(s, c) && Fits(s.callback, Started(s, actions), c)
    ensures Faithful(Run(s, actions), c)
    decreases |actions|
  {
    hide Consistent, Next, Allowed, Faithful, Starts;
    if actions != [] {
      var a := actions[0];
      if Starts(s, a) {
        assert Started(s, actions)[1..] == Started(Next(s, a), actions[1..]);
      } else {
        assert Started(s, actions) == Started(Next(s, a), actions[1..]);
      }
      StepKeeps(s, a);
      StepFaithful(s, a, c);
      StepDelivers(s, a);
      RunFaithful(Next(s, a), actions[1..], c);
    }
  }

  /** Identifiers of confirmations that are queued belong to contexts. */
  lemma QueuedContext(s: Client, i: nat)
    requires Consistent(s) && i < |s.history.delivered|
    ensures s.history.delivered[i].confirmation.id < |s.history.contexts|
  {
    var h := s.history;
    var id := h.delivered[i].confirmation.id;
    assert Confirmations(h.delivered)[i].id == id;
    assert Confirmations(h.delivered)[i] == h.queued[i] && Ids(h.queued)[i] == id;
    assert id in multiset(Ids(h.queued));
    assert id in multiset(h.accepted);
    assert id in multiset(Range(|h.contexts|));
    assert id in Range(|h.contexts|);
  }

  lemma SteadyRunOwn(actions: seq<Action>)
    requires AllAllowed(CREATED, actions) && Steady(Started(CREATED, actions))
    ensures Own(Run(CREATED, actions).history)
    ensures forall d :: d in Run(CREATED, actions).history.delivered ==> d.callback.User?
  {
    hide Consistent, Run, AllAllowed, Started;
    var c := SteadyName(Started(CREATED, actions));
    CreatedConsistent();
    RunKeeps(CREATED, actions);
    RunFaithful(CREATED, actions, c);
    var s := Run(CREATED, actions);
    forall i | 0 <= i < |s.history.delivered|
      ensures s.history.delivered[i].confirmation.id < |s.history.contexts|
    {
      QueuedContext(s, i);
    }
  }

  /** When from the first callback on all sends pass the same one, and the vector never fails to
      grow, the callback of every accepted event runs for it exactly once. */
  lemma ConfirmedOnce(actions: seq<Action>, id: nat)
    requires AllAllowed(CREATED, actions) && Steady(Started(CREATED, actions))
    requires Run(CREATED, actions).app.Destroyed? && Run(CREATED, actions).history.lost == []
    ensures var (h, reports) := (Run(CREATED, actions).history, AllEffective(CREATED, actions));
      && Own(h) && (forall d :: d in h.delivered ==> d.callback.User?)
      && Confirmations(h.delivered) == Among(reports, true) && Among(reports, false) == []
      && h.contexts == Callbacks(Submitted(CREATED, actions)) && h.accepted == Places(Submitted(CREATED, actions), 0, true)
      && multiset(Ids(Confirmations(h.delivered)))[id] == multiset(h.accepted)[id] <= 1
  {
    hide Steady, Own, Run, AllAllowed, AllEffective, Started, Among, Submitted, Callbacks, Places, Confirmations;
    EachOnce(actions, id);
    SteadyRunOwn(actions);
    RunAccounts(actions);
    NoneIds(id);
  }

  // ---- the bad interleaving ----

  lemma {:induction false} Concat(s: Client, a: seq<Action>, b: seq<Action>)
    ensures Run(s, a + b) == Run(Run(s, a), b)
    ensures AllAllowed(s, a + b) == (AllAllowed(s, a) && AllAllowed(Run(s, a), b))
    ensures Started(s, a + b) == Started(s, a) + Started(Run(s, a), b)
    decreases |a|
  {
    hide Next, Allowed, Starts;
    if a == [] {
      assert a + b == b;
    } else {
      assert (a + b)[1..] == a[1..] + b;
      Concat(Next(s, a[0]), a[1..], b);
    }
  }

  lemma One(s: Client, a: Action)
    ensures Run(s, [a]) == Next(s, a) && AllAllowed(s, [a]) == Allowed(s, a)
    ensures Started(s, [a]) == if Starts(s, a) then [a.callback] else []
  {
    hide Next, Allowed, Starts;
    var t := Next(s, a);
    assert Run(t, [a][1..]) == t && AllAllowed(t, [a][1..]) && Started(t, [a][1..]) == [];
  }

  /** Sends that all succeed, one behind the other. */
  function SendAll(cs: seq<Callback>): seq<Action> {
    if cs == [] then [] else [StartSend(cs[0], true)] + [LockedSend(true, true, true)] + SendAll(cs[1..])
  }

  /** A send leaves the worker's vector and the deliveries alone. */
  predicate Sent(s: Client, t: Client, last: Callback) {
    && t.app.Idle? && t.callback == last && t.saved == s.saved && t.history.delivered == s.history.delivered
    && s.history.contexts <= t.history.contexts
    && if s.worker.NotStarted? then t.worker.NotStarted? || (t.worker.AtTop? && !t.stop) else t.worker == s.worker && t.stop == s.stop
  }

  lemma SendOne(s: Client, c: Callback)
    requires s.app.Idle?
    ensures var actions := [StartSend(c, true)] + [LockedSend(true, true, true)];
      var t := Run(s, actions);
      && AllAllowed(s, actions) && Started(s, actions) == [c] && Sent(s, t, c) && !t.worker.NotStarted?
      && (c.User? ==> t.history.contexts == s.history.contexts + [c] && |s.history.contexts| in t.pending)
  {
    hide Run, AllAllowed, Started;
    var first, second := StartSend(c, true), LockedSend(true, true, true);
    One(s, first);
    One(Next(s, first), second);
    Concat(s, [first], [second]);
  }

  lemma {:induction false} SendsRun(s: Client, cs: seq<Callback>)
    requires s.app.Idle?
    ensures AllAllowed(s, SendAll(cs)) && Started(s, SendAll(cs)) == cs && Sent(s, Run(s, SendAll(cs)), Last(s.callback, cs))
    ensures cs != [] ==> !Run(s, SendAll(cs)).worker.NotStarted?
    decreases |cs|
  {
    hide Run, AllAllowed, Started;
    if cs == [] {
      NoActions(s);
    } else {
      var first := [StartSend(cs[0], true)] + [LockedSend(true, true, true)];
      SendOne(s, cs[0]);
      SendsRun(Run(s, first), cs[1..]);
      Concat(s, first, SendAll(cs[1..]));
    }
  }

  lemma NoActions(s: Client)
    ensures Run(s, []) == s && AllAllowed(s, []) && Started(s, []) == []
  {
  }

  /** The callback is a single field of the instance: a send that starts while confirmations of
      earlier sends wait for the worker takes the next one over, or silences it. */
  lemma LateSendTakesOver(s: Client, c: Callback)
    requires s.app.Idle? && s.worker.Dispatching? && s.worker.callBacks != []
    ensures Run(s, [StartSend(c, true)] + [Dispatch]).history.delivered == s.history.delivered + [Delivery(c, s.worker.callBacks[0])]
  {
    hide Run, AllAllowed, Started;
    Concat(s, [StartSend(c, true)], [Dispatch]);
    One(s, StartSend(c, true));
    One(Next(s, StartSend(c, true)), Dispatch);
  }

  /** The sends up to i, and a pass of the worker that takes over the confirmation of send i. */
  lemma TakenOver(cs: seq<Callback>, i: nat) returns (actions: seq<Action>, id: nat)
    requires i < |cs| && cs[i].User?
    ensures AllAllowed(CREATED, actions) && Started(CREATED, actions) == cs[..i + 1]
    ensures var s := Run(CREATED, actions);
      && s.app.Idle? && s.worker == Dispatching([Confirmation(id, 0)]) && s.history.delivered == []
      && id < |s.history.contexts| && s.history.contexts[id] == cs[i]
  {
    hide Run, AllAllowed, Started;
    var before, send := SendAll(cs[..i]), [StartSend(cs[i], true)] + [LockedSend(true, true, true)];
    SendsRun(CREATED, cs[..i]);
    var s1 := Run(CREATED, before);
    SendOne(s1, cs[i]);
    Concat(CREATED, before, send);
    var s2 := Run(s1, send);
    id := |s1.history.contexts|;
    var pass := TakesOne(s2, id);
    Concat(CREATED, before + send, [pass]);
    actions := before + send + [pass];
    assert cs[..i + 1] == cs[..i] + [cs[i]] + [];
  }

  lemma TakesOne(s: Client, id: nat) returns (pass: Action)
    requires s.worker.AtTop? && !s.stop && id in s.pending && s.saved == []
    ensures AllAllowed(s, [pass]) && Started(s, [pass]) == []
    ensures var t := Run(s, [pass]);
      && t.worker == Dispatching([Confirmation(id, 0)]) && t.app == s.app
      && t.history.contexts == s.history.contexts && t.history.delivered == s.history.delivered
  {
    var report := Report(Confirmation(id, 0), true);
    pass := WorkerPass([report], true);
    One(s, pass);
    hide Run, AllAllowed, Started;
    assert Reported([report]) == [id];
    assert [report][1..] == [];
    assert ConfirmAll(s, [report]) == Confirm(s, report);
    assert [] + [report.confirmation] == [report.confirmation];
  }

  /** The sends up to j, the dispatch of the confirmation taken over, and the sends behind j. */
  lemma Misdirected(s: Client, cs: seq<Callback>, i: nat, j: nat, c: Confirmation) returns (actions: seq<Action>)
    requires i < j < |cs| && s.app.Idle? && s.worker == Dispatching([c]) && s.history.delivered == []
    ensures AllAllowed(s, actions) && Started(s, actions) == cs[i + 1..]
    ensures var h := Run(s, actions).history;
      s.history.contexts <= h.contexts && h.delivered == [Delivery(cs[j], c)]
  {
    hide Run, AllAllowed, Started;
    var middle, behind := SendAll(cs[i + 1..j + 1]), SendAll(cs[j + 1..]);
    SendsRun(s, cs[i + 1..j + 1]);
    var s4 := Run(s, middle);
    One(s4, Dispatch);
    Concat(s, middle, [Dispatch]);
    SendsRun(Next(s4, Dispatch), cs[j + 1..]);
    Concat(s, middle + [Dispatch], behind);
    actions := middle + [Dispatch] + behind;
    assert cs[i + 1..] == cs[i + 1..j + 1] + [] + cs[j + 1..];
    assert [] + [Delivery(cs[j], c)] == [Delivery(cs[j], c)];
  }

  /** A send with a callback, followed by one with another or none, has a run without any failure
      in which its confirmation reaches that other one. */
  lemma MisdirectedRun(cs: seq<Callback>, i: nat, j: nat) returns (actions: seq<Action>)
    requires i < j < |cs| && cs[i].User? && cs[j] != cs[i]
    ensures AllAllowed(CREATED, actions) && Started(CREATED, actions) == cs && !Own(Run(CREATED, actions).history)
  {
    hide Run, AllAllowed, Started;
    var first, id := TakenOver(cs, i);
    var s := Run(CREATED, first);
    var second := Misdirected(s, cs, i, j, Confirmation(id, 0));
    Concat(CREATED, first, second);
    actions := first + second;
    assert cs == cs[..i + 1] + cs[i + 1..];
    var h := Run(s, second).history;
    assert h.delivered[0].callback != h.contexts[h.delivered[0].confirmation.id];
  }

  /** The sends of an application are confirmed to their own callbacks in every run with them. */
  ghost predicate AlwaysOwn(cs: seq<Callback>) {
    forall actions :: AllAllowed(CREATED, actions) && Started(CREATED, actions) == cs ==> Own(Run(CREATED, actions).history)
  }

  /** Each confirmation reaches the callback of its own event, under every interleaving with the
      worker, if and only if no send with a callback is followed by one with another or none. */
  lemma OwnCallbacks(cs: seq<Callback>)
    ensures AlwaysOwn(cs) <==> Steady(cs)
  {
    hide AllAllowed, Started, Run, Own;
    if Steady(cs) {
      forall actions | AllAllowed(CREATED, actions) && Started(CREATED, actions) == cs
        ensures Own(Run(CREATED, actions).history)
      {
        SteadyRunOwn(actions);
      }
    } else {
      var i, j :| 0 <= i < j < |cs| && cs[i].User? && cs[j] != cs[i];
      var actions := MisdirectedRun(cs, i, j);
    }
  }

  // ---- destruction completes ----

  /** A report for each context that is held. */
  lemma {:induction false} ReportsFor(held: multiset<nat>) returns (reports: seq<Report>)
    ensures multiset(Reported(reports)) == held
    decreases |held|
  {
    if held == multiset{} {
      reports := [];
    } else {
      var id :| id in held;
      var rest := ReportsFor(held - multiset{id});
      reports := [Report(Confirmation(id, 0), true)] + rest;
      ReportedSplit(reports);
      assert held == multiset{id} + (held - multiset{id});
    }
  }

  /** The worker makes the callbacks it has taken over, and leaves at the next pass. */
  lemma {:induction false} WorkerLeaves(s: Client) returns (actions: seq<Action>)
    requires s.stop && !s.worker.NotStarted?
    ensures AllAllowed(s, actions) && Run(s, actions).worker.Exited? && Run(s, actions).app == s.app
    decreases if s.worker.Dispatching? then 1 + |s.worker.callBacks| else 0
  {
    if s.worker.Exited? {
      actions := [];
      NoActions(s);
    } else if s.worker.AtTop? {
      actions := [WorkerPass([], false)];
      One(s, actions[0]);
    } else {
      var rest := WorkerLeaves(Next(s, Dispatch));
      actions := [Dispatch] + rest;
      One(s, Dispatch);
      Concat(s, [Dispatch], rest);
    }
  }

  /** Whatever happened, an instance that is not in the middle of a send can be destroyed: the join ends. */
  lemma DestroyCompletes(s: Client) returns (actions: seq<Action>)
    requires s.app.Idle?
    ensures AllAllowed(s, actions) && Run(s, actions).app.Destroyed?
  {
    hide Run, AllAllowed;
    One(s, BeginDestroy);
    var joining := Next(s, BeginDestroy);
    var leave: seq<Action> := [];
    NoActions(joining);
    if !s.worker.NotStarted? {
      leave := WorkerLeaves(joining);
    }
    var joined := Run(joining, leave);
    var reports := ReportsFor(joined.pending);
    One(joined, EndDestroy(reports));
    EndsDestroyed(joined, reports);
    Concat(s, [BeginDestroy], leave);
    Concat(s, [BeginDestroy] + leave, [EndDestroy(reports)]);
    actions := [BeginDestroy] + leave + [EndDestroy(reports)];
  }

  lemma EndsDestroyed(s: Client, reports: seq<Report>)
    requires s.app.Joining? && (s.worker.NotStarted? || s.worker.Exited?)
    ensures Next(s, EndDestroy(reports)).app.Destroyed?
  {
    hide ConfirmAll, DeliverAll;
  }

  // ---- the instance ----

  class IotHubClientInstance {
    var worker: Worker              // where the worker thread is, and the vector it has taken over
    var app: App                    // where the application thread is
    var stopThread: bool
    var eventConfirmCallback: Callback
    const savedUserCallbackList: Vector<Confirmation>

    ghost var pending: multiset<nat>
    ghost var history: History

    ghost predicate Valid()
      reads this, savedUserCallbackList
    {
      savedUserCallbackList.Valid()
    }

    ghost function View(): Client
      requires Valid()
      reads this, savedUserCallbackList, savedUserCallbackList.storage
    {
      Client(worker, app, stopThread, eventConfirmCallback, savedUserCallbackList.Contents(), pending, history)
    }

    constructor ()
      ensures Valid() && fresh(savedUserCallbackList) && View() == CREATED
    {
      worker, app, stopThread, eventConfirmCallback := NotStarted, Idle, false, Null;
      savedUserCallbackList := new Vector();
      pending, history := multiset{}, History([], [], [], [], [], [], []);
    }

    /** StartWorkerThreadIfNeeded and the assignment of the callback; `created` is the outcome of
        creating the thread. */
    method StartSend(callback: Callback, created: bool) returns (ok: bool)
      requires Valid() && app.Idle?
      modifies this
      ensures Valid() && View() == Next(old(View()), Action.StartSend(callback, created))
      ensures ok == (!old(worker).NotStarted? || created)
    {
      if worker.NotStarted? {
        stopThread := false;
        if !created {
          return false;
        }
        worker := AtTop;
      }
      eventConfirmCallback := callback;
      app := Sending(callback);
      ok := true;
    }
  
    /** The part of IoTHubClient_SendEventAsync under the lock; the outcomes are those of the lock,
        of the allocation of the queue context, and of IoTHubClient_LL_SendEventAsync. */
    method LockedSend(locked: bool, memory: bool, accept: bool) returns (ok: bool)
      requires Valid() && app.Sending?
      modifies this
      ensures Valid() && View() == Next(old(View()), Action.LockedSend(locked, memory, accept))
      ensures ok == (locked && accept && (old(app.callback).Null? || memory))
    {
      var callback := app.callback;
      app := Idle;
      if !locked {
        return false;
      }
      if callback.Null? {
        return accept;
      }
      if !memory {
        return false;
      }
      ghost var id := |history.contexts|;
      history := history.(contexts := history.contexts + [callback]);
      if accept {
        pending := pending + multiset{id};
        history := history.(accepted := history.accepted + [id]);
      } else {
        history := history.(rejected := history.rejected + [id], freed := history.freed + [id]);
      }
      ok := accept;
    }

    /** iothub_ll_event_confirm_callback. */
    method EventConfirmCallback(r: Report)
      requires Valid()
      modifies this, savedUserCallbackList
      ensures Valid() && View() == Confirm(old(View()), r)
    {
      var pushed := savedUserCallbackList.PushBack([r.confirmation], r.pushed);
      if pushed {
        history := history.(queued := history.queued + [r.confirmation]);
      } else {
        history := history.(lost := history.lost + [r.confirmation]);
      }
      pending := pending - multiset{r.confirmation.id};
      history := history.(freed := history.freed + [r.confirmation.id]);
    }

    /** The confirmations the lower layer makes in one of its calls. */
    method LowerLayerConfirms(reports: seq<Report>)
      requires Valid()
      modifies this, savedUserCallbackList
      ensures Valid() && View() == ConfirmAll(old(View()), reports)
    {
      hide Confirm;
      assert reports[0..] == reports;
      for i := 0 to |reports|
        invariant Valid() && ConfirmAll(View(), reports[i..]) == ConfirmAll(old(View()), reports)
      {
        assert reports[i..][1..] == reports[i + 1..];
        EventConfirmCallback(reports[i]);
      }
    }

    /** One pass of ScheduleWork_Thread under the lock; `moved` is the outcome of VECTOR_move. */
    method WorkerPass(reports: seq<Report>, moved: bool)
      requires Valid() && worker.AtTop?
      modifies this, savedUserCallbackList
      ensures Valid() && View() == Next(old(View()), Action.WorkerPass(reports, moved))
    {
      if stopThread {
        worker := Exited;
      } else {
        ConfirmAllFrame(View(), reports);
        LowerLayerConfirms(reports);
        var callBacks := savedUserCallbackList.Move(moved);
        if callBacks != null {
          var taken := AllElements(callBacks);
          worker := Dispatching(taken);
        }
      }
    }

    /** One turn of the loop in dispatch_user_callbacks. */
    method DispatchOne()
      requires Valid() && worker.Dispatching?
      modifies this
      ensures Valid() && View() == Next(old(View()), Dispatch)
    {
      if worker.callBacks == [] {
        worker := AtTop;
      } else {
        UserCallback(worker.callBacks[0]);
        worker := Dispatching(worker.callBacks[1..]);
      }
    }

    /** The registered callback is called, if there is one. */
    method UserCallback(c: Confirmation)
      requires Valid()
      modifies this`history
      ensures Valid() && View() == Deliver(old(View()), c)
    {
      history := history.(delivered := history.delivered + [Delivery(eventConfirmCallback, c)]);
    }

    /** IoTHubClient_Destroy up to the join of the worker. */
    method BeginDestroy() returns (join: bool)
      requires Valid() && app.Idle?
      modifies this
      ensures Valid() && View() == Next(old(View()), Action.BeginDestroy)
      ensures join == !worker.NotStarted?
    {
      join := !worker.NotStarted?;
      if join {
        stopThread := true;
      }
      app := Joining;
    }

    /** IoTHubClient_Destroy after the join: the lower layer is destroyed, then the vector drained. */
    method EndDestroy(reports: seq<Report>)
      requires Valid() && app.Joining? && (worker.NotStarted? || worker.Exited?)
      modifies this, savedUserCallbackList
      ensures Valid() && View() == Next(old(View()), Action.EndDestroy(reports))
    {
      LowerLayerConfirms(reports);
      ghost var t := View();
      assert t.saved[0..] == t.saved;
      for index := 0 to savedUserCallbackList.count
        invariant Valid() && savedUserCallbackList.Contents() == t.saved
        invariant DeliverAll(View(), t.saved[index..]) == DeliverAll(t, t.saved)
      {
        assert t.saved[index..][1..] == t.saved[index + 1..];
        var queuedCb := savedUserCallbackList.Element(index);
        UserCallback(queuedCb.value);
      }
      savedUserCallbackList.Clear();
      app := Destroyed;
    }
  }

  /** The elements of a vector that the worker goes through. */
  method AllElements(v: Vector<Confirmation>) returns (s: seq<Confirmation>)
    requires v.Valid()
    ensures s == v.Contents()
  {
    s := if v.storage == null then [] else v.storage[..v.count];
  }
}
