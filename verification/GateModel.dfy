/** What the Pi's gate does with each input, as a function of its state. */
module GateModel {
  import opened Base
  import opened Text
  import opened CardNumber
  import PinLock
  import Events
  import Visitors
  import Cards

  datatype Mode = Normal | RemainOpen | RemainClosed

  datatype Timings = Timings(doorOpenMs: nat, cardCooldownMs: nat, pinTimeoutMs: nat, exitDebounceMs: nat, pins: PinLock.Limits)

  const DEFAULT_TIMINGS := Timings(3000, 1500, 15000, 50, PinLock.DEFAULTS)

  const MAX_PIN: nat := 12

  datatype Door = Door(mode: Mode, relayOn: bool, relayOffAt: Option<int>)

  datatype Gate = Gate(door: Door, pad: PinLock.Pad, typed: string, lastKeyAt: Option<int>,
                       lastCardKey: Option<string>, lastCardAt: Option<int>, lastExitAt: Option<int>,
                       queue: Events.Queue)

  const CLOSED := Gate(Door(Normal, false, None), PinLock.FRESH, "", None, None, None, None, Events.EMPTY)

  /** What a decision looks at besides the gate: the cards, the visitor passes and the wall clock in seconds. */
  datatype Env = Env(cards: Cards.Store, ready: bool, passes: seq<Visitors.Pass>, now: int)

  datatype Input =
    | Card(cardNo: string, at: int, env: Env)
    | Key(key: nat, at: int, env: Env)
    | Exit(at: int, env: Env)
    | Command(command: int, at: int)
    | Service(at: int)

  datatype Decision = Decision(granted: bool, reason: string, employeeNo: Option<string>)

  // ---- Decisions ----

  function DecideCard(mode: Mode, env: Env, cardNo: string): Decision {
    var key := CardNumberKey(cardNo);
    if mode == RemainClosed then Decision(false, "door_remain_closed", None)
    else if !env.ready then Decision(false, "cache_not_ready", None)
    else if key == "" || key !in env.cards then Decision(false, "unknown_credential", None)
    else if env.cards[key] != 0 && env.now == 0 then Decision(false, "clock_not_set", None)
    else if env.cards[key] != 0 && env.cards[key] <= env.now then Decision(false, "credential_expired", None)
    else Decision(true, "authorised", None)
  }

  function DecidePin(mode: Mode, env: Env, pin: string): Decision {
    if mode == RemainClosed then Decision(false, "door_remain_closed", None)
    else if env.now == 0 then Decision(false, "clock_not_set", None)
    else
      var m := Visitors.MatchPin(env.passes, pin, env.now);
      Decision(m.reason == "authorised", m.reason, m.employeeNo)
  }

  // ---- The door ----

  function Pulse(d: Door, at: int, openMs: nat): Door {
    Door(d.mode, true, Some(at + openMs))
  }

  function PulseUnlessHeld(d: Door, at: int, openMs: nat): Door {
    if d.mode == RemainOpen then d else Pulse(d, at, openMs)
  }

  function SetMode(mode: Mode): Door {
    Door(mode, mode == RemainOpen, None)
  }

  function Commanded(d: Door, command: int, at: int, openMs: nat): Door {
    match command
    case 1 => PulseUnlessHeld(d, at, openMs)
    case 2 => if d.mode == RemainOpen then d else Door(d.mode, false, None)
    case 3 => SetMode(RemainOpen)
    case 4 => SetMode(RemainClosed)
    case 5 => SetMode(Normal)
    case _ => d
  }

  function Serviced(d: Door, at: int): Door {
    if d.relayOffAt.Some? && d.mode != RemainOpen && at - d.relayOffAt.value >= 0 then Door(d.mode, false, None) else d
  }

  // ---- Cards, PINs and the exit button ----

  function EventOf(kind: Events.Kind, now: int, granted: bool, doorOpened: bool, cardNo: Option<string>,
                   employeeNo: Option<string>, reason: string): Events.Event {
    Events.Event(0, now, kind, granted, doorOpened, cardNo, employeeNo, reason)
  }

  predicate CoolingDown(g: Gate, t: Timings, cardNo: string, at: int) {
    CardNumberKey(cardNo) != "" && Some(CardNumberKey(cardNo)) == g.lastCardKey
    && g.lastCardAt.Some? && at - g.lastCardAt.value < t.cardCooldownMs
  }

  function CardRead(g: Gate, t: Timings, cardNo: string, at: int, env: Env): Gate {
    if CoolingDown(g, t, cardNo, at) then g
    else
      var decision := DecideCard(g.door.mode, env, cardNo);
      g.(lastCardKey := Some(CardNumberKey(cardNo)), lastCardAt := Some(at),
         door := if decision.granted then PulseUnlessHeld(g.door, at, t.doorOpenMs) else g.door,
         queue := Events.Record(g.queue, EventOf(Events.Card, env.now, decision.granted, decision.granted, Some(cardNo), None, decision.reason)))
  }

  function PinSubmitted(g: Gate, t: Timings, pin: string, at: int, env: Env): Gate {
    if PinLock.Locked(g.pad, at) then
      g.(queue := Events.Record(g.queue, EventOf(Events.Pin, env.now, false, false, None, None, "too_many_attempts")))
    else
      var decision := DecidePin(g.door.mode, env, pin);
      g.(pad := PinLock.Submit(g.pad, t.pins, PinLock.Attempt(at, decision.granted)),
         door := if decision.granted then PulseUnlessHeld(g.door, at, t.doorOpenMs) else g.door,
         queue := Events.Record(g.queue, EventOf(Events.Pin, env.now, decision.granted, decision.granted, None, decision.employeeNo, decision.reason)))
  }

  /** What is on the pad before a key: nothing, if the last key is too long ago. */
  function TypedBefore(g: Gate, t: Timings, at: int): string {
    if g.typed != "" && g.lastKeyAt.Some? && at - g.lastKeyAt.value > t.pinTimeoutMs then "" else g.typed
  }

  function KeyPressed(g: Gate, t: Timings, key: nat, at: int, env: Env): Gate {
    var typed := TypedBefore(g, t, at);
    var h := g.(lastKeyAt := Some(at));
    if key <= 9 then h.(typed := if |typed| < MAX_PIN then typed + Decimal(key) else typed)
    else if key == 10 then h.(typed := "")
    else if key == 11 then
      if typed == "" then h.(typed := "") else PinSubmitted(h.(typed := ""), t, typed, at, env)
    else h.(typed := typed)
  }

  predicate Debounced(g: Gate, t: Timings, at: int) {
    g.lastExitAt.Some? && at - g.lastExitAt.value < t.exitDebounceMs
  }

  function ExitPressed(g: Gate, t: Timings, at: int, env: Env): Gate {
    if Debounced(g, t, at) then g
    else
      g.(lastExitAt := Some(at), door := PulseUnlessHeld(g.door, at, t.doorOpenMs),
         queue := Events.Record(g.queue, EventOf(Events.Exit, env.now, true, true, None, None, "exit_button")))
  }

  function Next(g: Gate, t: Timings, input: Input): Gate {
    match input
    case Card(cardNo, at, env) => CardRead(g, t, cardNo, at, env)
    case Key(key, at, env) => KeyPressed(g, t, key, at, env)
    case Exit(at, env) => ExitPressed(g, t, at, env)
    case Command(command, at) => g.(door := Commanded(g.door, command, at, t.doorOpenMs))
    case Service(at) => g.(door := Serviced(g.door, at))
  }

  function After(g: Gate, t: Timings, inputs: seq<Input>): Gate {
    if inputs == [] then g else Next(After(g, t, inputs[..|inputs| - 1]), t, inputs[|inputs| - 1])
  }

  // ---- The relay ----

  /** The relay is energised exactly when the door is held open or a pulse is running. */
  predicate RelayConsistent(d: Door) {
    && (d.relayOn <==> d.mode == RemainOpen || d.relayOffAt.Some?)
    && (d.mode == RemainOpen ==> d.relayOffAt.None?)
  }

  lemma NextKeepsRelay(g: Gate, t: Timings, input: Input)
    requires RelayConsistent(g.door)
    ensures RelayConsistent(Next(g, t, input).door)
  {
  }

  lemma {:induction false} RelayIsConsistent(t: Timings, inputs: seq<Input>)
    ensures RelayConsistent(After(CLOSED, t, inputs).door)
  {
    if inputs != [] {
      RelayIsConsistent(t, inputs[..|inputs| - 1]);
      NextKeepsRelay(After(CLOSED, t, inputs[..|inputs| - 1]), t, inputs[|inputs| - 1]);
    }
  }

  function TimeOf(input: Input): int {
    match input
    case Card(_, at, _) => at
    case Key(_, at, _) => at
    case Exit(at, _) => at
    case Command(_, at) => at
    case Service(at) => at
  }

  predicate Timely(inputs: seq<Input>) {
    forall i, j :: 0 <= i < j < |inputs| ==> TimeOf(inputs[i]) <= TimeOf(inputs[j])
  }

  /** The inputs that may open the door: an admitted card or PIN, an accepted press of the exit button, an open command. */
  predicate Opens(g: Gate, t: Timings, input: Input) {
    g.door.mode != RemainOpen &&
    match input
    case Card(cardNo, at, env) => !CoolingDown(g, t, cardNo, at) && DecideCard(g.door.mode, env, cardNo).granted
    case Key(key, at, env) =>
      key == 11 && TypedBefore(g, t, at) != "" && !PinLock.Locked(g.pad, at)
      && DecidePin(g.door.mode, env, TypedBefore(g, t, at)).granted
    case Exit(at, env) => !Debounced(g, t, at)
    case Command(command, _) => command == 1
    case Service(_) => false
  }

  /** Input `k` of the run opened the door for a pulse that ends at `off`. */
  predicate IsCause(t: Timings, inputs: seq<Input>, k: nat, off: int)
    requires k < |inputs|
  {
    Opens(After(CLOSED, t, inputs[..k]), t, inputs[k]) && off == TimeOf(inputs[k]) + t.doorOpenMs
  }

  /** The pulse that is running was started by an input of the run, and ends one opening time after it. */
  ghost predicate PulseHasCause(t: Timings, inputs: seq<Input>) {
    var d := After(CLOSED, t, inputs).door;
    d.relayOffAt.Some? ==> exists k: nat :: k < |inputs| && IsCause(t, inputs, k, d.relayOffAt.value)
  }

  lemma OneStepCause(g: Gate, t: Timings, input: Input)
    ensures var d, d' := g.door, Next(g, t, input).door;
      d'.relayOffAt.Some? && d'.relayOffAt != d.relayOffAt ==>
        Opens(g, t, input) && d'.relayOffAt.value == TimeOf(input) + t.doorOpenMs
  {
  }

  lemma {:induction false} CauseStays(t: Timings, inputs: seq<Input>, n: nat, k: nat, off: int)
    requires k < n < |inputs| && IsCause(t, inputs[..n], k, off)
    ensures IsCause(t, inputs, k, off)
  {
    assert inputs[..n][..k] == inputs[..k] && inputs[..n][k] == inputs[k];
  }

  lemma {:induction false} PulsesHaveCauses(t: Timings, inputs: seq<Input>)
    ensures PulseHasCause(t, inputs)
  {
    if inputs != [] {
      var n: nat := |inputs| - 1;
      PulsesHaveCauses(t, inputs[..n]);
      var g := After(CLOSED, t, inputs[..n]);
      OneStepCause(g, t, inputs[n]);
      var off := Next(g, t, inputs[n]).door.relayOffAt;
      if off.Some? {
        if off == g.door.relayOffAt {
          var k: nat :| k < n && IsCause(t, inputs[..n], k, off.value);
          CauseStays(t, inputs, n, k, off.value);
        } else {
          assert IsCause(t, inputs, n, off.value);
        }
      }
    }
  }

  /**
   * Over every run from a closed gate: after a service step, a relay that is on outside "remain
   * open" was switched on by an opening input less than one opening time before.
   */
  lemma RelayOnOnlyForRecentCause(t: Timings, inputs: seq<Input>)
    requires inputs != [] && inputs[|inputs| - 1].Service?
    requires var d := After(CLOSED, t, inputs).door; d.relayOn && d.mode != RemainOpen
    ensures exists k :: 0 <= k < |inputs| && Opens(After(CLOSED, t, inputs[..k]), t, inputs[k])
                        && TimeOf(inputs[|inputs| - 1]) - TimeOf(inputs[k]) < t.doorOpenMs
  {
    RelayIsConsistent(t, inputs);
    PulsesHaveCauses(t, inputs);
    var d := After(CLOSED, t, inputs).door;
    var k: nat :| k < |inputs| && IsCause(t, inputs, k, d.relayOffAt.value);
    assert d == Serviced(After(CLOSED, t, inputs[..|inputs| - 1]).door, TimeOf(inputs[|inputs| - 1]));
  }

  /** Nothing but an opening input, or the command that holds the door open, switches the relay on. */
  lemma OnlyOpeningsEnergise(g: Gate, t: Timings, input: Input)
    requires RelayConsistent(g.door) && !g.door.relayOn
    ensures Next(g, t, input).door.relayOn <==> Opens(g, t, input) || (input.Command? && input.command == 3)
  {
  }

  /** In "remain closed" only the exit button and the portal's commands can switch the relay on. */
  lemma RemainClosedHoldsOutCredentials(g: Gate, t: Timings, input: Input)
    requires RelayConsistent(g.door) && g.door.mode == RemainClosed && !g.door.relayOn && Next(g, t, input).door.relayOn
    ensures input.Exit? || (input.Command? && (input.command == 1 || input.command == 3))
  {
    OnlyOpeningsEnergise(g, t, input);
  }

  /** An accepted press of the exit button leaves the relay on, in every mode. */
  lemma ExitAlwaysOpens(g: Gate, t: Timings, at: int, env: Env)
    requires RelayConsistent(g.door) && !Debounced(g, t, at)
    ensures Next(g, t, Exit(at, env)).door.relayOn
    ensures g.door.mode != RemainOpen ==> Next(g, t, Exit(at, env)).door.relayOffAt == Some(at + t.doorOpenMs)
  {
  }

  /** A card opens exactly when the door is not held either way, the cache is warm, and the card is there and not ended. */
  lemma CardOpensIff(g: Gate, t: Timings, cardNo: string, at: int, env: Env)
    requires "" !in env.cards
    ensures Opens(g, t, Card(cardNo, at, env)) <==>
      && g.door.mode == Normal && !CoolingDown(g, t, cardNo, at) && env.ready
      && CardNumberKey(cardNo) in env.cards
      && (env.cards[CardNumberKey(cardNo)] == 0 || (env.now != 0 && env.now < env.cards[CardNumberKey(cardNo)]))
  {
  }

  /** A PIN opens exactly inside the window of a pass that has it, while the pad is not locked. */
  lemma PinOpensIff(g: Gate, t: Timings, key: nat, at: int, env: Env)
    ensures Opens(g, t, Key(key, at, env)) <==>
      && g.door.mode == Normal && key == 11 && TypedBefore(g, t, at) != "" && !PinLock.Locked(g.pad, at) && env.now != 0
      && exists i :: 0 <= i < |env.passes| && Visitors.Admits(env.passes[i], TypedBefore(g, t, at), env.now)
  {
    Visitors.AdmittedInsideWindow(env.passes, TypedBefore(g, t, at), env.now, Visitors.UNKNOWN);
  }

  // ---- The keypad lock over runs of the gate ----

  predicate Submits(g: Gate, t: Timings, input: Input) {
    input.Key? && input.key == 11 && TypedBefore(g, t, input.at) != ""
  }

  /** The PINs submitted in a run of the gate. */
  function Attempts(t: Timings, inputs: seq<Input>): seq<PinLock.Attempt> {
    if inputs == [] then []
    else
      var n := |inputs| - 1;
      var g, front := After(CLOSED, t, inputs[..n]), Attempts(t, inputs[..n]);
      if Submits(g, t, inputs[n])
      then front + [PinLock.Attempt(inputs[n].at, DecidePin(g.door.mode, inputs[n].env, TypedBefore(g, t, inputs[n].at)).granted)]
      else front
  }

  lemma {:induction false} PadAfter(t: Timings, inputs: seq<Input>)
    ensures After(CLOSED, t, inputs).pad == PinLock.After(PinLock.FRESH, t.pins, Attempts(t, inputs))
  {
    if inputs != [] {
      var n := |inputs| - 1;
      PadAfter(t, inputs[..n]);
      var g := After(CLOSED, t, inputs[..n]);
      if Submits(g, t, inputs[n]) {
        PinLock.AfterMore(PinLock.FRESH, t.pins, Attempts(t, inputs[..n]),
                PinLock.Attempt(inputs[n].at, DecidePin(g.door.mode, inputs[n].env, TypedBefore(g, t, inputs[n].at)).granted));
      }
    }
  }

  lemma {:induction false} AttemptsInOrder(t: Timings, inputs: seq<Input>)
    requires Timely(inputs)
    ensures PinLock.Timely(Attempts(t, inputs))
    ensures Attempts(t, inputs) != [] ==> inputs != [] && Attempts(t, inputs)[|Attempts(t, inputs)| - 1].at <= TimeOf(inputs[|inputs| - 1])
  {
    if inputs != [] {
      var n := |inputs| - 1;
      AttemptsInOrder(t, inputs[..n]);
    }
  }

  /** In every timely run of the gate, 60 seconds without an admitted PIN see at most eight PINs tried and denied. */
  lemma AtMostEightDenied(inputs: seq<Input>, from: int)
    requires Timely(inputs)
    requires PinLock.NoGrantIn(PinLock.FRESH, PinLock.DEFAULTS, Attempts(DEFAULT_TIMINGS, inputs), from, 60000)
    ensures PinLock.DeniedIn(PinLock.FRESH, PinLock.DEFAULTS, Attempts(DEFAULT_TIMINGS, inputs), from, 60000) <= 8
  {
    AttemptsInOrder(DEFAULT_TIMINGS, inputs);
    PinLock.EightByDefault(Attempts(DEFAULT_TIMINGS, inputs), from);
  }

  // ---- What the events tell ----

  /** Two typed PINs that are decided alike leave the same queue and the same door: the digits go nowhere. */
  lemma TypedPinStaysHere(g: Gate, t: Timings, one: string, other: string, at: int, env: Env)
    requires one != "" && other != "" && DecidePin(g.door.mode, env, one) == DecidePin(g.door.mode, env, other)
    requires TypedBefore(g.(typed := one), t, at) == one && TypedBefore(g.(typed := other), t, at) == other
    ensures Next(g.(typed := one), t, Key(11, at, env)) == Next(g.(typed := other), t, Key(11, at, env))
  {
  }

  /** The inputs that are not ignored: no cooldown, no debounce, and a PIN only when something was typed. */
  predicate Decides(g: Gate, t: Timings, input: Input) {
    match input
    case Card(cardNo, at, _) => !CoolingDown(g, t, cardNo, at)
    case Key(key, at, _) => key == 11 && TypedBefore(g, t, at) != ""
    case Exit(at, _) => !Debounced(g, t, at)
    case Command(_, _) => false
    case Service(_) => false
  }

  /** What is decided: a card or PIN is admitted or not, a press of the exit button always is. */
  predicate Admits(g: Gate, t: Timings, input: Input) {
    match input
    case Card(cardNo, _, env) => DecideCard(g.door.mode, env, cardNo).granted
    case Key(_, at, env) => !PinLock.Locked(g.pad, at) && DecidePin(g.door.mode, env, TypedBefore(g, t, at)).granted
    case _ => true
  }

  /** The queue with this event more, under the next serial; a full queue has given up its oldest. */
  ghost predicate Reported(q: Events.Queue, q': Events.Queue, e: Events.Event) {
    && q'.lastSerial == q.lastSerial + 1 && e.serial == q'.lastSerial
    && q'.events == (if |q.events| >= Events.RING then q.events[1..] else q.events) + [e]
  }

  /** What the event says: who was read or typed what and when, whether the door was opened, and why. */
  ghost predicate Tells(g: Gate, t: Timings, input: Input, e: Events.Event) {
    && e.granted == e.doorOpened == Admits(g, t, input)
    && match input
       case Card(cardNo, _, env) =>
         e.kind == Events.Card && e.at == env.now && e.cardNo == Some(cardNo) && e.employeeNo.None? && CardReason(g, env, cardNo, e.reason)
       case Key(_, at, env) =>
         e.kind == Events.Pin && e.at == env.now && e.cardNo.None? && PinReason(g, env, TypedBefore(g, t, at), at, e.employeeNo, e.reason)
       case Exit(_, env) =>
         e.kind == Events.Exit && e.at == env.now && e.cardNo.None? && e.employeeNo.None? && e.reason == "exit_button"
       case _ => false
  }

  /** The first of these that applies, in this order. */
  ghost predicate CardReason(g: Gate, env: Env, cardNo: string, reason: string) {
    var key := CardNumberKey(cardNo);
    var held := key != "" && key in env.cards;
    && (reason == "door_remain_closed" <==> g.door.mode == RemainClosed)
    && (reason == "cache_not_ready" <==> g.door.mode != RemainClosed && !env.ready)
    && (reason == "unknown_credential" <==> g.door.mode != RemainClosed && env.ready && !held)
    && (reason == "clock_not_set" <==> g.door.mode != RemainClosed && env.ready && held && env.cards[key] != 0 && env.now == 0)
    && (reason == "credential_expired" <==>
          g.door.mode != RemainClosed && env.ready && held && env.cards[key] != 0 && env.now != 0 && env.cards[key] <= env.now)
    && (reason == "authorised" <==>
          g.door.mode != RemainClosed && env.ready && held && (env.cards[key] == 0 || (env.now != 0 && env.now < env.cards[key])))
  }

  ghost predicate PinReason(g: Gate, env: Env, pin: string, at: int, employeeNo: Option<string>, reason: string) {
    var locked, closed, unset := PinLock.Locked(g.pad, at), g.door.mode == RemainClosed, env.now == 0;
    && (reason == "too_many_attempts" <==> locked)
    && (reason == "door_remain_closed" <==> !locked && closed)
    && (reason == "clock_not_set" <==> !locked && !closed && unset)
    && (locked || closed || unset ==> employeeNo.None?)
    && (!locked && !closed && !unset ==> Visitors.Answers(env.passes, pin, env.now, Visitors.Match(employeeNo, reason)))
  }

  lemma RecordReports(g: Gate, t: Timings, input: Input, e: Events.Event)
    requires Tells(g, t, input, e)
    ensures var q' := Events.Record(g.queue, e);
      exists told :: Tells(g, t, input, told) && Reported(g.queue, q', told)
  {
    var q' := Events.Record(g.queue, e);
    var told := e.(serial := q'.lastSerial);
    assert Tells(g, t, input, told) && Reported(g.queue, q', told);
  }

  /**
   * In every mode, each input that is not ignored leaves exactly one event, which tells who it was, the
   * decision and its reason, and any other input leaves none. The flag tells whether the door was
   * opened, except exactly when someone is admitted at a door that is held open already.
   */
  lemma EventsMatchTheDoor(g: Gate, t: Timings, input: Input)
    ensures Decides(g, t, input) ==> exists e :: Tells(g, t, input, e) && Reported(g.queue, Next(g, t, input).queue, e)
    ensures !Decides(g, t, input) ==> Next(g, t, input).queue == g.queue
    ensures Decides(g, t, input) ==>
      ((Admits(g, t, input) <==> Opens(g, t, input)) <==> !(Admits(g, t, input) && g.door.mode == RemainOpen))
    ensures Opens(g, t, input) ==> Decides(g, t, input) || input.Command?
  {
    if Decides(g, t, input) { DecisionIsTold(g, t, input); }
  }

  lemma DecisionIsTold(g: Gate, t: Timings, input: Input)
    requires Decides(g, t, input)
    ensures exists e :: Tells(g, t, input, e) && Reported(g.queue, Next(g, t, input).queue, e)
  {
    match input
    case Card(cardNo, at, env) =>
      var d := DecideCard(g.door.mode, env, cardNo);
      RecordReports(g, t, input, EventOf(Events.Card, env.now, d.granted, d.granted, Some(cardNo), None, d.reason));
    case Key(key, at, env) =>
      PinIsTold(g, t, input);
    case Exit(at, env) =>
      RecordReports(g, t, input, EventOf(Events.Exit, env.now, true, true, None, None, "exit_button"));
  }

  lemma PinIsTold(g: Gate, t: Timings, input: Input)
    requires Decides(g, t, input) && input.Key?
    ensures exists e :: Tells(g, t, input, e) && Reported(g.queue, Next(g, t, input).queue, e)
  {
    var env, pin := input.env, TypedBefore(g, t, input.at);
    if PinLock.Locked(g.pad, input.at) {
      RecordReports(g, t, input, EventOf(Events.Pin, env.now, false, false, None, None, "too_many_attempts"));
    } else {
      var d := DecidePin(g.door.mode, env, pin);
      Visitors.MatchAnswers(env.passes, pin, env.now, Visitors.UNKNOWN);
      RecordReports(g, t, input, EventOf(Events.Pin, env.now, d.granted, d.granted, None, d.employeeNo, d.reason));
    }
  }
}
