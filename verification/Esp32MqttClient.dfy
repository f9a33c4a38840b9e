/** Sending with confirmation on the device (Esp32MQTTClient.cpp), over its lower layer
    (iothub_client_ll.c and its MQTT transport).  The lower layer may confirm accepted events
    whenever it is given time.  When it is destroyed it confirms, without success, the messages it
    still holds and the reported states that its transport had taken, and drops the others. */
module Esp32MqttClient {
  import opened Sequences
  import opened Wrappers

  const CONNECT_TIMEOUT_MS := 30000
  const CHECK_INTERVAL_MS := 5000
  const SEND_EVENT_RETRY_COUNT := 2
  const EVENT_TIMEOUT_MS := 10000
  const EVENT_CONFIRMED := -2
  const EVENT_FAILED := -3

  datatype EventType = MESSAGE | STATE

  /** An event instance; the serial number stands for its address. */
  datatype Event = Event(serial: nat, kind: EventType, trackingId: int)

  function Serials(events: seq<Event>): (r: seq<nat>)
    ensures |r| == |events|
  {
    seq(|events|, i requires 0 <= i < |events| => events[i].serial)
  }

  /** The event instances by their serial numbers, and what became of them. */
  datatype Ledger = Ledger(
    kinds: seq<EventType>, held: multiset<nat>, accepted: set<nat>,
    freed: seq<nat>, dropped: seq<nat>, confirmedOk: set<nat>)

  /** Every event instance is in one place: freed, dropped, with the lower layer, or with a caller. */
  ghost predicate Counted(l: Ledger, outstanding: seq<Event>) {
    multiset(Range(|l.kinds|)) == multiset(l.freed) + multiset(l.dropped) + multiset(Serials(outstanding)) + l.held
  }

  /** The instance comes back to be freed: a message, or one the lower layer refused or never saw,
      or a reported state that the transport has taken. */
  predicate Returns(l: Ledger, taken: set<nat>, n: nat) {
    n < |l.kinds| && (l.kinds[n] == MESSAGE || n !in l.accepted || n in taken)
  }

  ghost predicate Explained(l: Ledger, outstanding: seq<Event>, taken: set<nat>) {
    && (forall n :: n in l.freed ==> Returns(l, taken, n))
    && (forall n :: n in l.dropped ==> n < |l.kinds| && !Returns(l, taken, n))
    && (forall n :: n in l.confirmedOk ==> n in l.freed)
    && (forall n :: n in l.held ==> n !in l.accepted)
    && (forall n :: n in l.accepted ==> n < |l.kinds|)
    && (forall e :: e in outstanding ==> e.serial in l.accepted && e.serial < |l.kinds| && e.kind == l.kinds[e.serial])
  }

  ghost predicate Balanced(l: Ledger, outstanding: seq<Event>, taken: set<nat>) {
    Counted(l, outstanding) && Explained(l, outstanding, taken)
  }

  /** The lower layer makes the callback of this event at its destruction at the latest. */
  predicate Completes(e: Event, taken: set<nat>) {
    e.kind == MESSAGE || e.serial in taken
  }

  /** The events that are called back, and those that are dropped, when the lower layer goes. */
  function Completed(events: seq<Event>, taken: set<nat>): seq<nat> {
    if events == [] then []
    else (if Completes(events[0], taken) then [events[0].serial] else []) + Completed(events[1..], taken)
  }

  function Abandoned(events: seq<Event>, taken: set<nat>): seq<nat> {
    if events == [] then []
    else (if Completes(events[0], taken) then [] else [events[0].serial]) + Abandoned(events[1..], taken)
  }

  /** What the transport answers when it is offered a reported state. */
  datatype ProcessResult = IOTHUB_PROCESS_OK | IOTHUB_PROCESS_ERROR | IOTHUB_PROCESS_NOT_CONNECTED | IOTHUB_PROCESS_CONTINUE

  /** What became of the outstanding event in one turn of the lower layer. */
  datatype Outcome = Waits | Confirmed(ok: bool) | Dropped

  /** SendConfirmationCallback and ReportConfirmationCallback: only a confirmation that carries the
      current identifier counts, and a failed report does not. */
  function Tracked(current: int, e: Event, ok: bool): int {
    if current != e.trackingId then current
    else if ok then EVENT_CONFIRMED
    else if e.kind == MESSAGE then EVENT_FAILED
    else current
  }

  class Client {
    var hasHandle: bool
    var trackingId: nat
    var currentTrackingId: int
    var clientConnected: bool
    var resetClient: bool
    var millis: nat
    var checkMs: nat              // when the connection was last looked after
    var outstanding: seq<Event>   // accepted by the lower layer and not yet confirmed
    var taken: set<nat>           // reported states that the transport has taken

    var generated: nat            // event instances ever allocated

    ghost var kinds: seq<EventType>
    ghost var held: multiset<nat>    // those in the hands of a caller
    ghost var accepted: set<nat>     // those the lower layer has accepted
    ghost var freed: seq<nat>
    ghost var dropped: seq<nat>      // those the lower layer forgot without a callback
    ghost var confirmedOk: set<nat>

    ghost function Books(): Ledger
      reads this
    {
      Ledger(kinds, held, accepted, freed, dropped, confirmedOk)
    }

    ghost predicate Booked()
      reads this
    {
      Balanced(Books(), outstanding, taken) && |kinds| == generated && (!hasHandle ==> outstanding == [])
    }

    /** Between calls at most one event is outstanding, and then a reset is due. */
    ghost predicate Valid()
      reads this
    {
      Booked() && |outstanding| <= 1 && (outstanding != [] ==> resetClient)
    }

    /** The event is in the hands of the caller. */
    ghost predicate Holds(e: Event)
      reads this
    {
      e.serial in held && e.serial < |kinds| && e.kind == kinds[e.serial]
    }

    constructor ()
      ensures Valid() && outstanding == [] && generated == 0 && held == multiset{}
    {
      hasHandle, trackingId, currentTrackingId, clientConnected, resetClient, millis, checkMs := false, 0, -1, false, false, 0, 0;
      outstanding, taken, generated := [], {}, 0;
      kinds, held, accepted, freed, dropped, confirmedOk := [], multiset{}, {}, [], [], {};
    }

    // ---- the environment ----

    /** A confirmation from the lower layer, and the release of the event instance. */
    method Confirm(i: nat, ok: bool)
      requires Booked() && i < |outstanding| && Completes(outstanding[i], taken)
      modifies this`outstanding, this`currentTrackingId, this`freed, this`confirmedOk
      ensures Booked() && outstanding == old(outstanding[..i] + outstanding[i + 1..])
      ensures freed == old(freed) + [old(outstanding[i].serial)]
      ensures currentTrackingId == Tracked(old(currentTrackingId), old(outstanding[i]), ok)
      ensures confirmedOk == old(confirmedOk) + if ok then {old(outstanding[i].serial)} else {}
    {
      hide Balanced, Completes;
      var e := outstanding[i];
      currentTrackingId := Tracked(currentTrackingId, e, ok);
      ConfirmBalanced(Books(), outstanding, taken, i);
      outstanding := outstanding[..i] + outstanding[i + 1..];
      freed := freed + [e.serial];
      if ok {
        confirmedOk := confirmedOk + {e.serial};
      }
    }

    /** device_twin_data_destroy: the item goes, and with it the only reference to the instance. */
    method Drop(i: nat)
      requires Booked() && i < |outstanding| && !Completes(outstanding[i], taken)
      modifies this`outstanding, this`dropped
      ensures Booked() && outstanding == old(outstanding[..i] + outstanding[i + 1..])
      ensures dropped == old(dropped) + [old(outstanding[i].serial)]
    {
      hide Balanced, Completes;
      DropBalanced(Books(), outstanding, taken, i);
      dropped := dropped + [outstanding[i].serial];
      outstanding := outstanding[..i] + outstanding[i + 1..];
    }

    /** The first loop of IoTHubClient_LL_DoWork: the transport is offered a reported state. */
    method OfferState() returns (ghost lost: bool)
      requires Booked() && |outstanding| <= 1
      modifies this`outstanding, this`taken, this`dropped
      ensures Booked()
      ensures !lost ==> outstanding == old(outstanding) && dropped == old(dropped)
      ensures !lost ==>
        taken == old(taken) || (outstanding != [] && outstanding[0].kind == STATE && taken == old(taken) + {outstanding[0].serial})
      ensures lost ==>
        && old(outstanding) != [] && !old(Completes(outstanding[0], taken)) && outstanding == [] && taken == old(taken)
        && dropped == old(dropped) + [old(outstanding[0].serial)]
    {
      hide Balanced;
      lost := false;
      if outstanding != [] && outstanding[0].kind == STATE && outstanding[0].serial !in taken {
        var processed: ProcessResult := *;
        if processed == IOTHUB_PROCESS_OK {
          TakeBalanced(Books(), outstanding, taken, 0);
          taken := taken + {outstanding[0].serial};
        } else if processed == IOTHUB_PROCESS_ERROR {
          assert outstanding[..0] + outstanding[1..] == [];
          Drop(0);
          lost := true;
        }
      }
    }

    /** IoTHubClient_LL_DoWork: time passes, a reported state may be taken or lost, the event may be
        confirmed, the connection may change. */
    method DoWork() returns (ghost outcome: Outcome)
      requires Booked() && |outstanding| <= 1
      modifies this
      ensures Booked() && unchanged(`hasHandle, `trackingId, `generated, `kinds, `held, `accepted)
      ensures millis >= old(millis) && (old(resetClient) ==> resetClient)
      ensures taken == old(taken) ||
        (old(outstanding) != [] && old(outstanding[0]).kind == STATE && taken == old(taken) + {old(outstanding[0]).serial})
      ensures outcome.Waits? ==> unchanged(`outstanding, `freed, `dropped, `currentTrackingId, `confirmedOk)
      ensures outcome.Confirmed? ==>
        && old(outstanding) != [] && Completes(old(outstanding[0]), taken) && outstanding == []
        && freed == old(freed) + [old(outstanding[0].serial)] && dropped == old(dropped)
        && currentTrackingId == Tracked(old(currentTrackingId), old(outstanding[0]), outcome.ok)
        && confirmedOk == old(confirmedOk) + if outcome.ok then {old(outstanding[0].serial)} else {}
      ensures outcome.Dropped? ==>
        && old(outstanding) != [] && !Completes(old(outstanding[0]), taken) && outstanding == []
        && dropped == old(dropped) + [old(outstanding[0].serial)] && unchanged(`freed, `currentTrackingId, `confirmedOk)
    {
      hide Balanced, Tracked, Completes;
      var elapsed :| elapsed >= 0;
      ConnectionStatus();
      var lost := OfferState();
      outcome := TransportWork();
      if lost {
        assert outcome.Waits?;
        outcome := Dropped;
      }
      millis := millis + elapsed;
    }

    /** The turn of the transport: a message, or a reported state it has taken, may be confirmed. */
    method TransportWork() returns (ghost outcome: Outcome)
      requires Booked() && |outstanding| <= 1
      modifies this`outstanding, this`currentTrackingId, this`freed, this`confirmedOk
      ensures Booked() && !outcome.Dropped?
      ensures outcome.Waits? ==> unchanged(`outstanding, `freed, `currentTrackingId, `confirmedOk)
      ensures outcome.Confirmed? ==>
        && old(outstanding) != [] && Completes(old(outstanding[0]), taken) && outstanding == []
        && freed == old(freed) + [old(outstanding[0].serial)]
        && currentTrackingId == Tracked(old(currentTrackingId), old(outstanding[0]), outcome.ok)
        && confirmedOk == old(confirmedOk) + if outcome.ok then {old(outstanding[0].serial)} else {}
    {
      hide Balanced, Tracked;
      outcome := Waits;
      var confirms, success := *, *;
      if outstanding != [] && Completes(outstanding[0], taken) && confirms {
        assert outstanding[..0] + outstanding[1..] == [];
        Confirm(0, success);
        outcome := Confirmed(success);
      }
    }

    /** ConnectionStatusCallback, when it is called. */
    method ConnectionStatus()
      modifies this`clientConnected, this`resetClient
      ensures old(resetClient) ==> resetClient
    {
      var called, connected, expired := *, *, *;
      if called {
        clientConnected := connected;
        if expired {
          resetClient := true;
        }
      }
    }

    method Sleep(ms: nat)
      modifies this`millis
      ensures millis >= old(millis) + ms
    {
      var late :| late >= 0;
      millis := millis + ms + late;
    }

    // ---- the connection ----

    /** The one event in the way of an identifier: destroying it overwrites the identifier. */
    predicate Collides(id: int)
      reads this
    {
      exists e :: e in outstanding && e.kind == MESSAGE && e.trackingId == id
    }

    /** Esp32MQTTClient_Close: destroying the lower layer confirms what it still holds, but for
        reported states that the transport has not taken. */
    method Close()
      requires Booked() && |outstanding| <= 1
      modifies this
      ensures Booked() && !hasHandle && outstanding == []
      ensures freed == old(freed) + Completed(old(outstanding), taken) && dropped == old(dropped) + Abandoned(old(outstanding), taken)
      ensures unchanged(`confirmedOk, `generated, `kinds, `held, `accepted, `taken, `trackingId, `resetClient, `millis)
      ensures currentTrackingId == if old(Collides(currentTrackingId)) then EVENT_FAILED else old(currentTrackingId)
    {
      hide Balanced;
      NoneHeld(taken);
      if hasHandle {
        if outstanding != [] {
          OneHeld(outstanding, taken);
          assert outstanding[..0] + outstanding[1..] == [];
          if Completes(outstanding[0], taken) {
            Confirm(0, false);
            assert confirmedOk == old(confirmedOk);
          } else {
            Drop(0);
          }
        }
        hasHandle := false;
      }
    }

    /** Esp32MQTTClient_Init.  When the wait for the connection times out, the handle stays and a
        reset is due. */
    method Init() returns (ok: bool, ghost timedOut: bool)
      requires Booked() && |outstanding| <= 1 && (outstanding != [] ==> resetClient)
      modifies this
      ensures Booked() && unchanged(`outstanding, `taken, `freed, `dropped, `confirmedOk, `currentTrackingId)
      ensures unchanged(`generated, `kinds, `held, `accepted)
      ensures trackingId == (if old(hasHandle) then old(trackingId) else 0) && millis >= old(millis)
      ensures old(resetClient) ==> resetClient
      ensures ok ==> hasHandle && (old(hasHandle) || clientConnected)
      ensures !ok ==> !old(hasHandle) && (timedOut || (resetClient == old(resetClient) && millis == old(millis)))
      ensures timedOut ==> !ok && hasHandle && resetClient && millis >= old(millis) + CONNECT_TIMEOUT_MS
    {
      hide Balanced;
      timedOut := false;
      if hasHandle {
        return true, false;
      }
      trackingId := 0;
      var platform, created, configured := *, *, *;
      if !platform || !created {
        return false, false;
      }
      hasHandle := true;
      if !configured {
        return false, false;
      }
      checkMs := millis;
      var start := millis;
      while true
        invariant Booked() && unchanged(`outstanding, `taken, `freed, `dropped, `confirmedOk, `currentTrackingId)
        invariant outstanding == [] && unchanged(`generated, `kinds, `held, `accepted)
        invariant trackingId == 0 && millis >= start && hasHandle && (old(resetClient) ==> resetClient)
        decreases start + CONNECT_TIMEOUT_MS - millis
      {
        var _ := DoWork();
        if clientConnected {
          break;
        }
        var diff := millis - start;
        if diff >= CONNECT_TIMEOUT_MS {
          resetClient := true;
          return false, true;
        }
        Sleep(500);
      }
      ok := true;
    }

    /** CheckConnection: a due reset destroys the client and starts a new one, whose identifiers
        begin again at 0; the reset counts as done whatever came of it. */
    method CheckConnection()
      requires Valid()
      modifies this
      ensures Booked() && outstanding == [] && !resetClient
      ensures freed == old(freed) + Completed(old(outstanding), taken) && dropped == old(dropped) + Abandoned(old(outstanding), taken)
      ensures unchanged(`confirmedOk, `generated, `kinds, `held, `accepted, `taken)
      ensures trackingId == (if old(resetClient) then 0 else old(trackingId)) && millis >= old(millis)
      ensures currentTrackingId == if old(resetClient && Collides(currentTrackingId)) then EVENT_FAILED else old(currentTrackingId)
    {
      hide Balanced, Completed, Abandoned;
      NoneHeld(taken);
      if resetClient {
        Close();
        var _, _ := Init();
        resetClient := false;
      }
    }

    // ---- sending ----

    /** Esp32MQTTClient_Event_Generate: without a message handle the instance is freed at once. */
    method Generate(kind: EventType) returns (event: Option<Event>)
      requires Valid()
      modifies this`generated, this`kinds, this`held, this`freed
      ensures Valid() && generated == old(generated) + 1 && kinds == old(kinds) + [kind]
      ensures match event
        case Some(e) => e.serial == old(generated) && Holds(e) && held == old(held) + multiset{e.serial} && freed == old(freed)
        case None => kind == MESSAGE && held == old(held) && freed == old(freed) + [old(generated)]
    {
      hide Balanced;
      GenerateBalanced(Books(), outstanding, taken, kind);
      var e := Event(generated, kind, 0);
      var messageHandle: bool := *;
      if kind == MESSAGE && !messageHandle {
        freed := freed + [generated];
        event := None;
      } else {
        held := held + multiset{generated};
        event := Some(e);
      }
      kinds := kinds + [kind];
      generated := generated + 1;
    }

    /** SendEventOnce takes the event from the caller.  It succeeds exactly when the lower layer
        confirms this very event while it waits, unless the reset before the submission destroyed
        an event that carried the same identifier. */
    method SendEventOnce(event: Event) returns (result: bool)
      requires Valid() && Holds(event)
      modifies this
      ensures Valid() && held == old(held) - multiset{event.serial} && unchanged(`generated, `kinds)
      ensures confirmedOk - {event.serial} == old(confirmedOk)
      ensures result ==> outstanding == [] && event.serial in confirmedOk
      ensures event.serial in confirmedOk ==> old(hasHandle) && (result <==> !old(resetClient && Collides(trackingId)))
      ensures result || resetClient || event.serial in freed
      ensures outstanding != [] ==> hasHandle && outstanding == [event.(trackingId := old(trackingId))]
      ensures old(hasHandle) ==> trackingId == if old(resetClient) then 0 else old(trackingId) + 1
    {
      hide Balanced, Completed, Abandoned, Completes;
      if !hasHandle {
        FreeHeld(event);
        return false;
      }
      var e := event.(trackingId := trackingId);
      trackingId := trackingId + 1;
      currentTrackingId := e.trackingId;
      var start := millis;
      CheckConnection();
      result := Submit(e, start);
    }

    /** The rest of SendEventOnce, after the connection has been checked. */
    method Submit(e: Event, start: nat) returns (result: bool)
      requires Booked() && !resetClient && outstanding == [] && Holds(e) && millis >= start
      requires e.trackingId >= 0 && (currentTrackingId == e.trackingId || currentTrackingId == EVENT_FAILED)
      modifies this
      ensures Valid() && held == old(held) - multiset{e.serial} && unchanged(`generated, `kinds)
      ensures confirmedOk - {e.serial} == old(confirmedOk)
      ensures result <==> e.serial in confirmedOk && old(currentTrackingId) == e.trackingId
      ensures result ==> outstanding == []
      ensures result || resetClient || e.serial in freed
      ensures (outstanding != [] ==> hasHandle && outstanding == [e]) && trackingId == old(trackingId)
    {
      hide Balanced, Completed, Abandoned, Completes;
      var acceptable := *;
      if !hasHandle || !acceptable {
        FreeHeld(e);
        return false;
      }
      HandOver(e);
      result := Await(e, start);
    }

    /** FreeEventInstance on an event in the hands of the caller. */
    method FreeHeld(event: Event)
      requires Booked() && Holds(event)
      modifies this`freed, this`held
      ensures Booked() && event.serial !in confirmedOk
      ensures freed == old(freed) + [event.serial] && held == old(held) - multiset{event.serial}
    {
      hide Balanced;
      HeldOnce(Books(), outstanding, taken, event.serial);
      FreeBalanced(Books(), outstanding, taken, event.serial);
      freed := freed + [event.serial];
      held := held - multiset{event.serial};
    }

    /** IoTHubClient_LL_SendEventAsync or IoTHubClient_LL_SendReportedState, accepting the event. */
    method HandOver(e: Event)
      requires Booked() && Holds(e) && hasHandle && outstanding == []
      modifies this`held, this`accepted, this`outstanding
      ensures Booked() && e.serial !in confirmedOk && outstanding == [e] && held == old(held) - multiset{e.serial}
    {
      hide Balanced;
      HeldOnce(Books(), outstanding, taken, e.serial);
      SubmitBalanced(Books(), outstanding, taken, e);
      assert outstanding + [e] == [e];
      held := held - multiset{e.serial};
      accepted := accepted + {e.serial};
      outstanding := [e];
    }

    /** The waiting loop of SendEventOnce. */
    method Await(e: Event, start: nat) returns (result: bool)
      requires Booked() && hasHandle && !resetClient && outstanding == [e] && millis >= start && e.serial !in confirmedOk
      requires e.trackingId >= 0 && (currentTrackingId == e.trackingId || currentTrackingId == EVENT_FAILED)
      modifies this
      ensures Booked() && hasHandle && unchanged(`held, `generated, `kinds, `accepted, `trackingId)
      ensures confirmedOk - {e.serial} == old(confirmedOk)
      ensures result <==> e.serial in confirmedOk && old(currentTrackingId) == e.trackingId
      ensures outstanding == [] || (outstanding == [e] && e.serial !in confirmedOk)
      ensures !result ==> resetClient
    {
      hide Balanced, Completes;
      while true
        invariant Booked() && hasHandle && unchanged(`held, `generated, `kinds, `accepted, `trackingId) && millis >= start
        invariant outstanding == [e] || outstanding == []
        invariant outstanding == [e] ==> confirmedOk == old(confirmedOk) && currentTrackingId == old(currentTrackingId)
        invariant outstanding == [] ==> currentTrackingId != EVENT_CONFIRMED && confirmedOk - {e.serial} == old(confirmedOk)
        invariant outstanding == [] && e.serial in confirmedOk ==> old(currentTrackingId) != e.trackingId
        decreases start + EVENT_TIMEOUT_MS - millis
      {
        var _ := DoWork();
        if currentTrackingId == EVENT_CONFIRMED {
          return true;
        }
        var diff := millis - start;
        if diff >= EVENT_TIMEOUT_MS {
          resetClient := true;
        }
        if resetClient {
          break;
        }
        Sleep(100);
      }
      result := false;
    }

    /** Esp32MQTTClient_SendEvent and Esp32MQTTClient_ReportState: two attempts, each with an event
        of its own. */
    method SendEvent(kind: EventType) returns (result: bool)
      requires Valid()
      modifies this
      ensures Valid() && held == old(held)
      ensures generated <= old(generated) + SEND_EVENT_RETRY_COUNT
      ensures result ==> exists n :: old(generated) <= n < generated && n in confirmedOk && outstanding == []
    {
      hide Balanced;
      var i := 0;
      while i < SEND_EVENT_RETRY_COUNT
        invariant Valid() && held == old(held) && generated == old(generated) + i && i <= SEND_EVENT_RETRY_COUNT
      {
        var event := Generate(kind);
        if event.Some? {
          var sent := SendEventOnce(event.value);
          if sent {
            return true;
          }
        }
        i := i + 1;
      }
      result := false;
    }

    /** Esp32MQTTClient_ReceiveEvent. */
    method ReceiveEvent() returns (received: bool)
      requires Valid()
      modifies this
      ensures Valid() && held == old(held) && generated == old(generated)
      ensures received || resetClient
    {
      hide Balanced, Completed, Abandoned, Completes, Tracked;
      CheckConnection();
      var start := millis;
      while millis - start < CHECK_INTERVAL_MS
        invariant Valid() && held == old(held) && generated == old(generated) && millis >= start
        decreases start + CHECK_INTERVAL_MS - millis
      {
        var _ := DoWork();
        received := *;
        if received {
          return true;
        }
        if resetClient {
          return false;
        }
        Sleep(500);
      }
      resetClient := true;
      received := false;
    }

    /** Esp32MQTTClient_Check: once its interval is over a due reset is made up for, and the lower
        layer gets five turns, or fewer when one of them makes a reset due again. */
    method Check(hasDelay: bool) returns (ghost turns: nat)
      requires Valid()
      modifies this
      ensures Valid() && unchanged(`held, `generated, `kinds, `accepted, `taken, `confirmedOk)
      ensures var due := old(hasHandle) && (!hasDelay || old(millis - checkMs) >= CHECK_INTERVAL_MS);
        if due then
          && outstanding == [] && checkMs == millis
          && freed == old(freed) + Completed(old(outstanding), taken) && dropped == old(dropped) + Abandoned(old(outstanding), taken)
          && 1 <= turns <= 5 && (turns < 5 ==> resetClient)
          && trackingId == if old(resetClient) then 0 else old(trackingId)
        else turns == 0 && unchanged(this)
    {
      turns := 0;
      if !hasHandle {
        return;
      }
      hide Balanced, Completed, Abandoned;
      var diff := if hasDelay then millis - checkMs else CHECK_INTERVAL_MS;
      if diff >= CHECK_INTERVAL_MS {
        CheckConnection();
        var i := 0;
        while i < 5 && !resetClient
          invariant Valid() && outstanding == [] && unchanged(`held, `generated, `kinds, `accepted, `taken, `confirmedOk)
          invariant freed == old(freed) + Completed(old(outstanding), taken) && dropped == old(dropped) + Abandoned(old(outstanding), taken)
          invariant trackingId == if old(resetClient) then 0 else old(trackingId)
          invariant turns == i <= 5 && (i == 0 ==> !resetClient)
        {
          var _ := DoWork();
          turns := turns + 1;
          i := i + 1;
        }
        checkMs := millis;
      }
    }

    /** Esp32MQTTClient_Reset. */
    method Reset()
      requires Valid()
      modifies this
      ensures Valid() && outstanding == [] && held == old(held) && generated == old(generated)
    {
      resetClient := true;
      CheckConnection();
    }

    /** Esp32MQTTClient_Close as the caller's last call.  Of the events that are not in the hands of
        a caller, every message has been freed, and freed once; a reported state that the lower
        layer accepted has been freed, and freed once, if and only if the transport had taken it,
        and is lost otherwise. */
    method CloseForGood()
      requires Valid()
      modifies this
      ensures Valid() && outstanding == []
      ensures multiset(Range(generated)) == multiset(freed) + multiset(dropped) + held
      ensures forall n :: 0 <= n < generated && n !in held ==>
        var returns_ := kinds[n] == MESSAGE || n !in accepted || n in taken;
        multiset(freed)[n] == (if returns_ then 1 else 0) && multiset(dropped)[n] == (if returns_ then 0 else 1)
    {
      Close();
      assert Serials(outstanding) == [];
      forall n | 0 <= n < generated && n !in held
        ensures multiset(freed)[n] == (if Returns(Books(), taken, n) then 1 else 0)
        ensures multiset(dropped)[n] == (if Returns(Books(), taken, n) then 0 else 1)
      {
        Settled(Books(), taken, n);
      }
    }
  }

  /** The two attempts of SendEvent after an initialisation that timed out: the first takes the
      identifier 0, the reset before it starts the identifiers at 0 again, and if it is left waiting
      the second has the same identifier.  An OK for the second is then always missed. */
  method MissedConfirmation(c: Client) returns (first: bool, second: bool, ghost waiting: bool)
    requires c.Valid() && !c.hasHandle
    modifies c
    ensures c.Valid()
    ensures waiting ==> !first && !second
  {
    first, second := false, false;
    var _, timedOut := c.Init();
    var a := c.Generate(MESSAGE);
    if a.Some? {
      first := c.SendEventOnce(a.value);
    }
    waiting := timedOut && c.outstanding != [];
    var b := c.Generate(MESSAGE);
    assert waiting ==> c.outstanding[0].trackingId == c.trackingId && c.outstanding[0] in c.outstanding;
    if b.Some? {
      second := c.SendEventOnce(b.value);
    }
  }

  /** A reported state from a closed client.  If its wait ends before the transport has taken it,
      as it does without a connection, closing the client loses the instance. */
  method LostReport(c: Client) returns (sent: bool, ghost serial: nat, ghost waiting: bool)
    requires c.Valid() && !c.hasHandle
    modifies c
    ensures c.Valid() && c.outstanding == []
    ensures waiting ==> !sent && serial in c.dropped && serial !in c.freed
  {
    var _, _ := c.Init();
    var event := c.Generate(STATE);
    serial := event.value.serial;
    sent := c.SendEventOnce(event.value);
    waiting := c.outstanding != [] && serial !in c.taken;
    ghost var before := c.outstanding;
    assert waiting ==> before == [before[0]] && before[0].serial == serial && before[0].kind == STATE;
    assert waiting ==> Abandoned(before, c.taken) == [serial] by {
      if waiting {
        OneHeld(before, c.taken);
      }
    }
    c.Close();
    if waiting {
      Nowhere(c.Books(), c.outstanding, c.taken, serial);
    }
  }

  // ---- the ledger ----

  /** An event in the hands of a caller is nowhere else. */
  lemma HeldOnce(l: Ledger, outstanding: seq<Event>, taken: set<nat>, serial: nat)
    requires Balanced(l, outstanding, taken) && serial in l.held
    ensures serial < |l.kinds| && serial !in l.freed && serial !in l.dropped && serial !in l.confirmedOk && serial !in l.accepted
    ensures l.held[serial] == 1
  {
    hide Range, Serials, Returns;
    RangeCount(|l.kinds|, serial);
    assert serial in l.freed ==> multiset(l.freed)[serial] > 0;
    assert serial in l.dropped ==> multiset(l.dropped)[serial] > 0;
  }

  /** An event with the lower layer is nowhere else. */
  lemma OutstandingOnce(l: Ledger, outstanding: seq<Event>, taken: set<nat>, i: nat)
    requires Balanced(l, outstanding, taken) && i < |outstanding|
    ensures outstanding[i].serial !in l.freed && outstanding[i].serial !in l.dropped
  {
    var serial := outstanding[i].serial;
    assert Serials(outstanding)[i] == serial;
    hide Range, Serials, Returns;
    RangeCount(|l.kinds|, serial);
    assert multiset(Serials(outstanding))[serial] > 0;
    assert serial in l.freed ==> multiset(l.freed)[serial] > 0;
    assert serial in l.dropped ==> multiset(l.dropped)[serial] > 0;
  }

  lemma Nowhere(l: Ledger, outstanding: seq<Event>, taken: set<nat>, n: nat)
    requires Balanced(l, outstanding, taken) && n in l.dropped
    ensures n !in l.freed
  {
    hide Range, Serials, Counted;
  }

  /** With nothing left at the lower layer, every instance is held, freed once, or dropped once. */
  lemma Settled(l: Ledger, taken: set<nat>, n: nat)
    requires Balanced(l, [], taken) && n < |l.kinds| && n !in l.held
    ensures multiset(l.freed)[n] == (if Returns(l, taken, n) then 1 else 0)
    ensures multiset(l.dropped)[n] == (if Returns(l, taken, n) then 0 else 1)
  {
    assert Serials([]) == [];
    hide Range, Serials, Returns;
    RangeCount(|l.kinds|, n);
    assert n in multiset(l.freed) ==> n in l.freed;
    assert n in multiset(l.dropped) ==> n in l.dropped;
  }

  lemma Push(s: seq<nat>, n: nat)
    ensures multiset(s + [n]) == multiset(s) + multiset{n}
  {
  }

  lemma FreeBalanced(l: Ledger, outstanding: seq<Event>, taken: set<nat>, serial: nat)
    requires Balanced(l, outstanding, taken) && serial in l.held
    ensures Balanced(l.(freed := l.freed + [serial], held := l.held - multiset{serial}), outstanding, taken)
  {
    HeldOnce(l, outstanding, taken, serial);
    Push(l.freed, serial);
    hide Range, Serials;
  }

  lemma SubmitBalanced(l: Ledger, outstanding: seq<Event>, taken: set<nat>, e: Event)
    requires Balanced(l, outstanding, taken) && e.serial in l.held && e.serial < |l.kinds| && e.kind == l.kinds[e.serial]
    ensures Balanced(l.(held := l.held - multiset{e.serial}, accepted := l.accepted + {e.serial}), outstanding + [e], taken)
  {
    HeldOnce(l, outstanding, taken, e.serial);
    assert Serials(outstanding + [e]) == Serials(outstanding) + [e.serial];
    Push(Serials(outstanding), e.serial);
    hide Range, Serials;
  }

  lemma GenerateBalanced(l: Ledger, outstanding: seq<Event>, taken: set<nat>, kind: EventType)
    requires Balanced(l, outstanding, taken)
    ensures Balanced(l.(kinds := l.kinds + [kind], held := l.held + multiset{|l.kinds|}), outstanding, taken)
    ensures kind == MESSAGE ==> Balanced(l.(kinds := l.kinds + [kind], freed := l.freed + [|l.kinds|]), outstanding, taken)
  {
    GenerateExplained(l, outstanding, taken, kind);
    var n := |l.kinds|;
    assert Range(n + 1) == Range(n) + [n];
    Push(Range(n), n);
    Push(l.freed, n);
    hide Range, Serials, Explained;
  }

  lemma GenerateExplained(l: Ledger, outstanding: seq<Event>, taken: set<nat>, kind: EventType)
    requires Explained(l, outstanding, taken)
    ensures Explained(l.(kinds := l.kinds + [kind], held := l.held + multiset{|l.kinds|}), outstanding, taken)
    ensures kind == MESSAGE ==> Explained(l.(kinds := l.kinds + [kind], freed := l.freed + [|l.kinds|]), outstanding, taken)
  {
  }

  lemma ConfirmBalanced(l: Ledger, outstanding: seq<Event>, taken: set<nat>, i: nat)
    requires Balanced(l, outstanding, taken) && i < |outstanding| && Completes(outstanding[i], taken)
    ensures var rest, done := outstanding[..i] + outstanding[i + 1..], l.freed + [outstanding[i].serial];
      && Balanced(l.(freed := done), rest, taken)
      && Balanced(l.(freed := done, confirmedOk := l.confirmedOk + {outstanding[i].serial}), rest, taken)
  {
    ConfirmExplained(l, outstanding, taken, i);
    MoveOut(outstanding, i);
    Push(l.freed, outstanding[i].serial);
    hide Range, Serials, Explained;
  }

  lemma ConfirmExplained(l: Ledger, outstanding: seq<Event>, taken: set<nat>, i: nat)
    requires Explained(l, outstanding, taken) && i < |outstanding| && Completes(outstanding[i], taken)
    ensures var rest, done := outstanding[..i] + outstanding[i + 1..], l.freed + [outstanding[i].serial];
      && Explained(l.(freed := done), rest, taken)
      && Explained(l.(freed := done, confirmedOk := l.confirmedOk + {outstanding[i].serial}), rest, taken)
  {
  }

  lemma DropBalanced(l: Ledger, outstanding: seq<Event>, taken: set<nat>, i: nat)
    requires Balanced(l, outstanding, taken) && i < |outstanding| && !Completes(outstanding[i], taken)
    ensures Balanced(l.(dropped := l.dropped + [outstanding[i].serial]), outstanding[..i] + outstanding[i + 1..], taken)
  {
    MoveOut(outstanding, i);
    Push(l.dropped, outstanding[i].serial);
    hide Range, Serials;
  }

  lemma TakeBalanced(l: Ledger, outstanding: seq<Event>, taken: set<nat>, i: nat)
    requires Balanced(l, outstanding, taken) && i < |outstanding|
    ensures Balanced(l, outstanding, taken + {outstanding[i].serial})
  {
    OutstandingOnce(l, outstanding, taken, i);
    hide Range, Serials;
  }

  lemma OneHeld(events: seq<Event>, taken: set<nat>)
    requires |events| == 1
    ensures Completed(events, taken) == if Completes(events[0], taken) then [events[0].serial] else []
    ensures Abandoned(events, taken) == if Completes(events[0], taken) then [] else [events[0].serial]
  {
    assert events[1..] == [];
  }

  lemma NoneHeld(taken: set<nat>)
    ensures Completed([], taken) == [] && Abandoned([], taken) == []
  {
  }

  lemma MoveOut(events: seq<Event>, i: nat)
    requires i < |events|
    ensures multiset(Serials(events)) == multiset(Serials(events[..i] + events[i + 1..])) + multiset{events[i].serial}
  {
    var s := Serials(events);
    assert s == s[..i] + [s[i]] + s[i + 1..];
    assert Serials(events[..i] + events[i + 1..]) == s[..i] + s[i + 1..];
  }
}
