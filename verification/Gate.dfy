/** The Pi's gate controller: the object that the reader, the exit button, the portal and the clock drive. */
module Gate {
  import opened Base
  import opened Text
  import opened CardNumber
  import opened GateModel
  import PinLock
  import Events
  import Visitors
  import Cards

  /** What is left to show of a card that is not ignored, once it has been decided about. */
  lemma CardReadIs(g: GateModel.Gate, t: Timings, cardNo: string, at: int, env: Env, door: Door, queue: Events.Queue)
    requires !CoolingDown(g, t, cardNo, at)
    requires var d := DecideCard(g.door.mode, env, cardNo);
      && door == (if d.granted then PulseUnlessHeld(g.door, at, t.doorOpenMs) else g.door)
      && queue == Events.Record(g.queue, EventOf(Events.Card, env.now, d.granted, d.granted, Some(cardNo), None, d.reason))
    ensures CardRead(g, t, cardNo, at, env)
         == g.(lastCardKey := Some(CardNumberKey(cardNo)), lastCardAt := Some(at), door := door, queue := queue)
  {
  }

  lemma PinSubmittedIs(g: GateModel.Gate, t: Timings, pin: string, at: int, env: Env, door: Door, queue: Events.Queue)
    requires !PinLock.Locked(g.pad, at)
    requires var d := DecidePin(g.door.mode, env, pin);
      && door == (if d.granted then PulseUnlessHeld(g.door, at, t.doorOpenMs) else g.door)
      && queue == Events.Record(g.queue, EventOf(Events.Pin, env.now, d.granted, d.granted, None, d.employeeNo, d.reason))
    ensures var d := DecidePin(g.door.mode, env, pin);
      PinSubmitted(g, t, pin, at, env) == g.(pad := PinLock.Submit(g.pad, t.pins, PinLock.Attempt(at, d.granted)), door := door, queue := queue)
  {
  }

  class GateController {
    const timings: Timings
    const doorNo: int
    const cache: Cards.CredentialCache
    const visitors: Visitors.VisitorStore

    var doorMode: Mode
    var relayOffAt: Option<int>
    var relayOn: bool

    var events: seq<Events.Event>
    var eventSerial: nat
    var eventsDropped: nat

    var pinBuffer: string
    var pinLastKeyAt: Option<int>
    var pinFailures: nat
    var pinFailureWindowStart: int
    var pinLockedUntil: Option<int>

    var lastCardKey: Option<string>
    var lastCardAt: Option<int>
    var lastExitAt: Option<int>

    ghost function Door(): Door
      reads this`doorMode, this`relayOn, this`relayOffAt
    {
      GateModel.Door(doorMode, relayOn, relayOffAt)
    }

    ghost function Pad(): PinLock.Pad
      reads this`pinFailures, this`pinFailureWindowStart, this`pinLockedUntil
    {
      PinLock.Pad(pinFailures, pinFailureWindowStart, pinLockedUntil)
    }

    ghost function Queue(): Events.Queue
      reads this`events, this`eventSerial, this`eventsDropped
    {
      Events.Queue(events, eventSerial, eventsDropped)
    }

    ghost function State(): GateModel.Gate
      reads this
    {
      GateModel.Gate(Door(), Pad(), pinBuffer, pinLastKeyAt, lastCardKey, lastCardAt, lastExitAt, Queue())
    }

    ghost function Around(now: int): Env
      reads cache`cards, cache`ready, visitors`passes
    {
      Env(cache.cards, cache.ready, visitors.passes, now)
    }

    constructor (timings: Timings, doorNo: int, cache: Cards.CredentialCache, visitors: Visitors.VisitorStore)
      ensures this.timings == timings && this.doorNo == doorNo && this.cache == cache && this.visitors == visitors
      ensures State() == CLOSED
    {
      this.timings, this.doorNo, this.cache, this.visitors := timings, doorNo, cache, visitors;
      doorMode, relayOffAt, relayOn := Normal, None, false;
      events, eventSerial, eventsDropped := [], 0, 0;
      pinBuffer, pinLastKeyAt := "", None;
      pinFailures, pinFailureWindowStart, pinLockedUntil := 0, 0, None;
      lastCardKey, lastCardAt, lastExitAt := None, None, None;
    }

    // ---- Relay ----

    method PulseDoor(at: int)
      modifies this`relayOn, this`relayOffAt
      ensures Door() == Pulse(old(Door()), at, timings.doorOpenMs)
    {
      relayOn := true;
      relayOffAt := Some(at + timings.doorOpenMs);
    }

    method SetDoorMode(mode: Mode)
      modifies this`doorMode, this`relayOn, this`relayOffAt
      ensures Door() == SetMode(mode)
    {
      doorMode := mode;
      relayOffAt := None;
      relayOn := mode == RemainOpen;
    }

    /** A mode from a previous run is taken up again when it holds the door one way. */
    method RestoreDoorMode(mode: Mode)
      modifies this`doorMode, this`relayOn, this`relayOffAt
      ensures Door() == if mode == Normal then old(Door()) else SetMode(mode)
    {
      if mode == RemainOpen || mode == RemainClosed {
        SetDoorMode(mode);
      }
    }

    method ApplyDoorCommand(command: int, door: Option<int>, at: int) returns (applied: bool)
      modifies this`doorMode, this`relayOn, this`relayOffAt
      ensures applied <==> 1 <= command <= 5 && (door.Some? ==> door.value == doorNo)
      ensures applied ==> State() == Next(old(State()), timings, Command(command, at))
      ensures !applied ==> State() == old(State())
    {
      if door.Some? && door.value != doorNo {
        return false;
      }
      match command {
        case 1 => if doorMode != RemainOpen { PulseDoor(at); }
        case 2 => if doorMode != RemainOpen { relayOffAt := None; relayOn := false; }
        case 3 => SetDoorMode(RemainOpen);
        case 4 => SetDoorMode(RemainClosed);
        case 5 => SetDoorMode(Normal);
        case _ => return false;
      }
      return true;
    }

    method Tick(at: int)
      modifies this`relayOn, this`relayOffAt
      ensures State() == Next(old(State()), timings, Service(at))
    {
      if relayOffAt.Some? && doorMode != RemainOpen && at - relayOffAt.value >= 0 {
        relayOffAt := None;
        relayOn := false;
      }
    }

    // ---- Events ----

    method RecordEvent(e: Events.Event)
      modifies this`events, this`eventSerial, this`eventsDropped
      ensures Queue() == Events.Record(old(Queue()), e)
    {
      eventSerial := eventSerial + 1;
      if |events| >= Events.RING {
        events := events[1..];
        eventsDropped := eventsDropped + 1;
      }
      events := events + [e.(serial := eventSerial)];
    }

    method TakeEventBatch() returns (batch: seq<Events.Event>)
      ensures batch == Events.Take(Queue())
    {
      return if |events| <= Events.BATCH then events else events[..Events.BATCH];
    }

    method DropEvents(batch: seq<Events.Event>)
      modifies this`events
      ensures Queue() == Events.Forget(old(Queue()), batch)
    {
      if batch == [] {
        return;
      }
      events := Newer(events, batch[|batch| - 1].serial);
    }

    static method Newer(queued: seq<Events.Event>, last: nat) returns (kept: seq<Events.Event>)
      ensures kept == Events.NewerThan(queued, last)
    {
      kept := [];
      for i := 0 to |queued|
        invariant kept + Events.NewerThan(queued[i..], last) == Events.NewerThan(queued, last)
      {
        Events.NewerThanFirst(queued, i, last);
        if queued[i].serial > last {
          kept := kept + [queued[i]];
        }
      }
    }

    // ---- Decisions ----

    method DecideCard(cardNo: string, now: int) returns (d: Decision)
      requires cache.Valid()
      ensures d == GateModel.DecideCard(doorMode, Around(now), cardNo)
    {
      if doorMode == RemainClosed { return Decision(false, "door_remain_closed", None); }
      if !cache.ready { return Decision(false, "cache_not_ready", None); }
      var found, validUntil := cache.Lookup(cardNo);
      if !found { return Decision(false, "unknown_credential", None); }
      if validUntil != 0 {
        if now == 0 { return Decision(false, "clock_not_set", None); }
        if validUntil <= now { return Decision(false, "credential_expired", None); }
      }
      return Decision(true, "authorised", None);
    }

    method DecidePin(pin: string, now: int) returns (d: Decision)
      ensures d == GateModel.DecidePin(doorMode, Around(now), pin)
    {
      if doorMode == RemainClosed { return Decision(false, "door_remain_closed", None); }
      if now == 0 { return Decision(false, "clock_not_set", None); }
      var m := visitors.Matching(pin, now);
      return Decision(m.reason == "authorised", m.reason, m.employeeNo);
    }

    // ---- Cards, PINs and the exit button ----

    /** What an admitted card or PIN, the exit button and the open command do to the door. */
    method OpenDoor(at: int)
      modifies this`relayOn, this`relayOffAt
      ensures Door() == PulseUnlessHeld(old(Door()), at, timings.doorOpenMs)
    {
      if doorMode != RemainOpen { PulseDoor(at); }
    }

    /** Remembers a card, decides about it, opens for it and reports it. */
    method ActOnCard(cardNo: string, at: int, now: int)
      requires cache.Valid()
      modifies this`lastCardKey, this`lastCardAt, this`relayOn, this`relayOffAt, this`events, this`eventSerial, this`eventsDropped
      ensures lastCardKey == Some(CardNumberKey(cardNo)) && lastCardAt == Some(at)
      ensures var d := GateModel.DecideCard(doorMode, Around(now), cardNo);
        && Door() == (if d.granted then PulseUnlessHeld(old(Door()), at, timings.doorOpenMs) else old(Door()))
        && Queue() == Events.Record(old(Queue()), EventOf(Events.Card, now, d.granted, d.granted, Some(cardNo), None, d.reason))
    {
      lastCardKey, lastCardAt := Some(CardNumberKey(cardNo)), Some(at);
      var decision := DecideCard(cardNo, now);
      if decision.granted {
        OpenDoor(at);
      }
      RecordEvent(EventOf(Events.Card, now, decision.granted, decision.granted, Some(cardNo), None, decision.reason));
    }

    method HandleCard(cardNo: string, at: int, now: int)
      requires cache.Valid()
      modifies this`lastCardKey, this`lastCardAt, this`relayOn, this`relayOffAt, this`events, this`eventSerial, this`eventsDropped
      ensures State() == CardRead(old(State()), timings, cardNo, at, Around(now))
    {
      var key := CardNumberKey(cardNo);
      if key != "" && Some(key) == lastCardKey && lastCardAt.Some? && at - lastCardAt.value < timings.cardCooldownMs {
        return;
      }
      ghost var g, env := State(), Around(now);
      ActOnCard(cardNo, at, now);
      CardReadIs(g, timings, cardNo, at, env, Door(), Queue());
    }

    /** Counts a PIN that was looked at, and locks the pad at the limit. */
    method CountPin(granted: bool, at: int)
      requires !PinLock.Locked(Pad(), at)
      modifies this`pinFailures, this`pinFailureWindowStart, this`pinLockedUntil
      ensures Pad() == PinLock.Submit(old(Pad()), timings.pins, PinLock.Attempt(at, granted))
    {
      pinLockedUntil := None;
      if granted {
        pinFailures := 0;
      } else {
        if pinFailures == 0 || at - pinFailureWindowStart > timings.pins.windowMs {
          pinFailures := 0;
          pinFailureWindowStart := at;
        }
        pinFailures := pinFailures + 1;
        if pinFailures >= timings.pins.maxAttempts {
          pinLockedUntil := Some(at + timings.pins.lockoutMs);
          pinFailures := 0;
        }
      }
    }

    /** Decides about a PIN, counts it, opens for it and reports it. */
    method ActOnPin(pin: string, at: int, now: int)
      requires !PinLock.Locked(Pad(), at)
      modifies this`relayOn, this`relayOffAt, this`events, this`eventSerial, this`eventsDropped,
               this`pinFailures, this`pinFailureWindowStart, this`pinLockedUntil
      ensures var d := GateModel.DecidePin(doorMode, Around(now), pin);
        && Pad() == PinLock.Submit(old(Pad()), timings.pins, PinLock.Attempt(at, d.granted))
        && Door() == (if d.granted then PulseUnlessHeld(old(Door()), at, timings.doorOpenMs) else old(Door()))
        && Queue() == Events.Record(old(Queue()), EventOf(Events.Pin, now, d.granted, d.granted, None, d.employeeNo, d.reason))
    {
      var decision := DecidePin(pin, now);
      CountPin(decision.granted, at);
      if decision.granted {
        OpenDoor(at);
      }
      RecordEvent(EventOf(Events.Pin, now, decision.granted, decision.granted, None, decision.employeeNo, decision.reason));
    }

    method HandlePin(pin: string, at: int, now: int)
      modifies this`relayOn, this`relayOffAt, this`events, this`eventSerial, this`eventsDropped,
               this`pinFailures, this`pinFailureWindowStart, this`pinLockedUntil
      ensures State() == PinSubmitted(old(State()), timings, pin, at, Around(now))
    {
      if pinLockedUntil.Some? && at - pinLockedUntil.value < 0 {
        RecordEvent(EventOf(Events.Pin, now, false, false, None, None, "too_many_attempts"));
        return;
      }
      ghost var g, env := State(), Around(now);
      ActOnPin(pin, at, now);
      PinSubmittedIs(g, timings, pin, at, env, Door(), Queue());
    }

    /** Keys: 0 to 9, 10 for '*', 11 for '#'. */
    method HandleKey(key: nat, at: int, now: int)
      modifies this
      ensures State() == Next(old(State()), timings, Key(key, at, Around(now)))
    {
      if pinBuffer != "" && pinLastKeyAt.Some? && at - pinLastKeyAt.value > timings.pinTimeoutMs {
        pinBuffer := "";
      }
      pinLastKeyAt := Some(at);
      if key <= 9 {
        if |pinBuffer| < MAX_PIN {
          pinBuffer := pinBuffer + Decimal(key);
        }
      } else if key == 10 {
        pinBuffer := "";
      } else if key == 11 {
        var pin := pinBuffer;
        pinBuffer := "";
        if pin != "" {
          HandlePin(pin, at, now);
        }
      }
    }

    /** Opens in every mode, for life safety, and reports it. */
    method AcceptExit(at: int, now: int)
      modifies this`lastExitAt, this`relayOn, this`relayOffAt, this`events, this`eventSerial, this`eventsDropped
      ensures lastExitAt == Some(at) && Door() == PulseUnlessHeld(old(Door()), at, timings.doorOpenMs)
      ensures Queue() == Events.Record(old(Queue()), EventOf(Events.Exit, now, true, true, None, None, "exit_button"))
    {
      lastExitAt := Some(at);
      OpenDoor(at);
      RecordEvent(EventOf(Events.Exit, now, true, true, None, None, "exit_button"));
    }

    method PressExit(at: int, now: int)
      modifies this
      ensures State() == Next(old(State()), timings, Exit(at, Around(now)))
    {
      if lastExitAt.Some? && at - lastExitAt.value < timings.exitDebounceMs {
        return;
      }
      AcceptExit(at, now);
    }
  }
}
