/** What the Pi's gate does over whole runs, told from the inputs alone: commands, pulses, ignored cards. */
module GateRuns {
  import opened Base
  import opened Text
  import opened CardNumber
  import opened GateModel
  import PinLock
  import Visitors

  /** The portal's commands that say how the door stands: 3 remains open, 4 remains closed, 5 resumes. */
  predicate IsOrder(input: Input) {
    input.Command? && 3 <= input.command <= 5
  }

  /** Input `k` is the last order of the run. */
  ghost predicate LastOrder(inputs: seq<Input>, k: nat) {
    k < |inputs| && IsOrder(inputs[k]) && forall i :: k < i < |inputs| ==> !IsOrder(inputs[i])
  }

  ghost predicate NoOrder(inputs: seq<Input>) {
    forall i :: 0 <= i < |inputs| ==> !IsOrder(inputs[i])
  }

  // ---- The mode of the door ----

  lemma OnlyOrdersChangeMode(g: Gate, t: Timings, input: Input)
    requires !IsOrder(input)
    ensures Next(g, t, input).door.mode == g.door.mode
  {
  }

  lemma {:induction false} ModeStays(t: Timings, inputs: seq<Input>, k: nat)
    requires LastOrder(inputs, k)
    ensures After(CLOSED, t, inputs).door.mode == Next(After(CLOSED, t, inputs[..k]), t, inputs[k]).door.mode
  {
    var n: nat := |inputs| - 1;
    if k < n {
      assert inputs[..n][..k] == inputs[..k];
      ModeStays(t, inputs[..n], k);
      OnlyOrdersChangeMode(After(CLOSED, t, inputs[..n]), t, inputs[n]);
    }
  }

  lemma {:induction false} NormalWithoutOrder(t: Timings, inputs: seq<Input>)
    requires NoOrder(inputs)
    ensures After(CLOSED, t, inputs).door.mode == Normal
  {
    if inputs != [] {
      var n := |inputs| - 1;
      NormalWithoutOrder(t, inputs[..n]);
      OnlyOrdersChangeMode(After(CLOSED, t, inputs[..n]), t, inputs[n]);
    }
  }

  lemma {:induction false} OrderOrNone(inputs: seq<Input>) returns (k: nat)
    ensures LastOrder(inputs, k) || NoOrder(inputs)
  {
    if inputs == [] {
      k := 0;
    } else {
      var n: nat := |inputs| - 1;
      if IsOrder(inputs[n]) {
        k := n;
      } else {
        k := OrderOrNone(inputs[..n]);
        if NoOrder(inputs[..n]) { assert forall i :: 0 <= i < n ==> inputs[i] == inputs[..n][i]; }
        if LastOrder(inputs[..n], k) { assert forall i :: 0 <= i < n ==> inputs[i] == inputs[..n][i]; }
      }
    }
  }

  // ---- What each command leaves, until the next order ----

  /**
   * After "remain closed", and whatever comes between but an order, no card and no PIN opens the door or
   * is admitted.
   */
  lemma RemainsClosed(t: Timings, inputs: seq<Input>, k: nat, input: Input)
    requires LastOrder(inputs, k) && inputs[k].command == 4 && (input.Card? || input.Key?)
    ensures var g := After(CLOSED, t, inputs); !Opens(g, t, input) && !Admits(g, t, input)
  {
    ModeStays(t, inputs, k);
  }

  /** After "remain open", and whatever comes between but an order, the relay is on. */
  lemma RemainsOpen(t: Timings, inputs: seq<Input>, k: nat)
    requires LastOrder(inputs, k) && inputs[k].command == 3
    ensures After(CLOSED, t, inputs).door.relayOn
  {
    ModeStays(t, inputs, k);
    RelayIsConsistent(t, inputs);
  }

  /** Before any order and after "resume", a card opens exactly under its own conditions, and a PIN under its own. */
  lemma OpensOnItsOwnTerms(t: Timings, inputs: seq<Input>, k: nat, input: Input)
    requires NoOrder(inputs) || (LastOrder(inputs, k) && inputs[k].command == 5)
    ensures var g := After(CLOSED, t, inputs);
      && (input.Card? && "" !in input.env.cards ==>
            (Opens(g, t, input) <==>
             && !CoolingDown(g, t, input.cardNo, input.at) && input.env.ready
             && CardNumberKey(input.cardNo) in input.env.cards
             && var until := input.env.cards[CardNumberKey(input.cardNo)];
                until == 0 || (input.env.now != 0 && input.env.now < until)))
      && (input.Key? ==>
            (Opens(g, t, input) <==>
             var pin := TypedBefore(g, t, input.at);
             && input.key == 11 && pin != "" && !PinLock.Locked(g.pad, input.at) && input.env.now != 0
             && exists i :: 0 <= i < |input.env.passes| && Visitors.Admits(input.env.passes[i], pin, input.env.now)))
  {
    var g := After(CLOSED, t, inputs);
    if NoOrder(inputs) { NormalWithoutOrder(t, inputs); } else { ModeStays(t, inputs, k); }
    if input.Card? && "" !in input.env.cards { CardOpensIff(g, t, input.cardNo, input.at, input.env); }
    if input.Key? { PinOpensIff(g, t, input.key, input.at, input.env); }
  }

  /** After "open" the relay is on; after "close" it is off unless held open; a number that is no command does nothing. */
  lemma CommandsOnce(t: Timings, inputs: seq<Input>, command: int, at: int)
    ensures var g := After(CLOSED, t, inputs);
      var h := Next(g, t, Command(command, at));
      && (command == 1 ==> h.door.relayOn)
      && (command == 2 ==> (h.door.relayOn <==> g.door.mode == RemainOpen))
      && (command == 4 || command == 5 ==> !h.door.relayOn)
      && (!(1 <= command <= 5) ==> h == g)
      && h.(door := g.door) == g
  {
    RelayIsConsistent(t, inputs);
  }

  // ---- How long the relay is on ----

  /** The commands that put an end to a pulse. */
  predicate Cuts(input: Input) {
    input.Command? && 2 <= input.command <= 5
  }

  /** Input `k` opened the door, no command has cut the pulse since, and at `now` its time is not over. */
  ghost predicate RunningPulse(t: Timings, inputs: seq<Input>, k: nat, now: int) {
    && k < |inputs| && Opens(After(CLOSED, t, inputs[..k]), t, inputs[k])
    && (forall i :: k < i < |inputs| ==> !Cuts(inputs[i]))
    && now < TimeOf(inputs[k]) + t.doorOpenMs
  }

  ghost predicate RunsAtEnd(t: Timings, inputs: seq<Input>, k: nat) {
    inputs != [] && RunningPulse(t, inputs, k, TimeOf(inputs[|inputs| - 1]))
  }

  lemma CutsLeaveNoPulse(g: Gate, t: Timings, input: Input)
    requires RelayConsistent(g.door) && Cuts(input)
    ensures Next(g, t, input).door.relayOffAt.None?
  {
  }

  /** A pulse that is running comes from an opening that no command has cut since. */
  lemma {:induction false} PulseComesFrom(t: Timings, inputs: seq<Input>) returns (k: nat)
    requires After(CLOSED, t, inputs).door.relayOffAt.Some?
    ensures RunningPulse(t, inputs, k, After(CLOSED, t, inputs).door.relayOffAt.value - 1)
    ensures After(CLOSED, t, inputs).door.relayOffAt.value == TimeOf(inputs[k]) + t.doorOpenMs
  {
    var n: nat := |inputs| - 1;
    var g := After(CLOSED, t, inputs[..n]);
    RelayIsConsistent(t, inputs[..n]);
    OneStepCause(g, t, inputs[n]);
    if Cuts(inputs[n]) { CutsLeaveNoPulse(g, t, inputs[n]); }
    if g.door.relayOffAt == After(CLOSED, t, inputs).door.relayOffAt {
      k := PulseComesFrom(t, inputs[..n]);
      assert inputs[..n][..k] == inputs[..k] && inputs[..n][k] == inputs[k];
      assert forall i :: k < i < n ==> inputs[..n][i] == inputs[i];
    } else {
      k := n;
    }
  }

  lemma OpeningStarts(g: Gate, t: Timings, input: Input)
    requires Opens(g, t, input)
    ensures Next(g, t, input).door.relayOffAt == Some(TimeOf(input) + t.doorOpenMs)
  {
  }

  /** Without a cut, and before its time is over, an input leaves a pulse that ends no earlier. */
  lemma PulseIsKept(g: Gate, t: Timings, input: Input, off: int)
    requires g.door.relayOffAt.Some? && g.door.relayOffAt.value >= off
    requires !Cuts(input) && off <= TimeOf(input) + t.doorOpenMs && (input.Service? ==> input.at < off)
    ensures var d := Next(g, t, input).door; d.relayOffAt.Some? && d.relayOffAt.value >= off
  {
  }

  /** In time order, a pulse that no command cuts runs for its whole time. */
  lemma {:induction false} PulseLasts(t: Timings, inputs: seq<Input>, k: nat)
    requires Timely(inputs) && inputs != [] && RunningPulse(t, inputs, k, TimeOf(inputs[|inputs| - 1]))
    ensures var off := After(CLOSED, t, inputs).door.relayOffAt; off.Some? && off.value >= TimeOf(inputs[k]) + t.doorOpenMs
  {
    var n: nat := |inputs| - 1;
    var g := After(CLOSED, t, inputs[..n]);
    if k == n {
      OpeningStarts(g, t, inputs[n]);
    } else {
      assert inputs[..n][..k] == inputs[..k] && inputs[..n][k] == inputs[k];
      assert forall i :: k < i < n ==> inputs[..n][i] == inputs[i];
      PulseLasts(t, inputs[..n], k);
      PulseIsKept(g, t, inputs[n], TimeOf(inputs[k]) + t.doorOpenMs);
    }
  }

  /**
   * After a service step of any run in time order the relay is on exactly when the last order was
   * "remain open", or an input less than one opening time ago opened the door and no command since has
   * cut its pulse: a pulse ends neither late nor early.
   */
  lemma RelayOnIff(t: Timings, inputs: seq<Input>)
    requires Timely(inputs) && inputs != [] && inputs[|inputs| - 1].Service?
    ensures After(CLOSED, t, inputs).door.relayOn <==>
      || (exists k: nat :: LastOrder(inputs, k) && inputs[k].command == 3)
      || (exists k: nat :: RunsAtEnd(t, inputs, k))
  {
    var now := TimeOf(inputs[|inputs| - 1]);
    var d := After(CLOSED, t, inputs).door;
    RelayIsConsistent(t, inputs);
    if k: nat :| LastOrder(inputs, k) && inputs[k].command == 3 {
      RemainsOpen(t, inputs, k);
    }
    if k: nat :| RunsAtEnd(t, inputs, k) {
      PulseLasts(t, inputs, k);
    }
    if d.mode == RemainOpen {
      HeldIsOrdered(t, inputs);
    } else if d.relayOn {
      var k := PulseComesFrom(t, inputs);
      ServiceLeavesLater(After(CLOSED, t, inputs[..|inputs| - 1]).door, now);
      assert RunsAtEnd(t, inputs, k);
    }
  }

  lemma ServiceLeavesLater(d: Door, at: int)
    ensures var d' := Serviced(d, at); d'.mode != RemainOpen && d'.relayOffAt.Some? ==> at < d'.relayOffAt.value
  {
  }

  lemma HeldIsOrdered(t: Timings, inputs: seq<Input>)
    requires After(CLOSED, t, inputs).door.mode == RemainOpen
    ensures exists k: nat :: LastOrder(inputs, k) && inputs[k].command == 3
  {
    var k := OrderOrNone(inputs);
    if NoOrder(inputs) { NormalWithoutOrder(t, inputs); } else { ModeStays(t, inputs, k); }
  }

  // ---- Cards and presses that are ignored ----

  /** A card, or a press of the exit button, that is not ignored. */
  predicate Heeded(t: Timings, inputs: seq<Input>, i: nat, card: bool)
    requires i < |inputs|
  {
    (if card then inputs[i].Card? else inputs[i].Exit?) && Decides(After(CLOSED, t, inputs[..i]), t, inputs[i])
  }

  /** Input `k` is the last card, or the last press, of the run that was not ignored. */
  ghost predicate LastHeeded(t: Timings, inputs: seq<Input>, k: nat, card: bool) {
    k < |inputs| && Heeded(t, inputs, k, card) && forall i :: k < i < |inputs| ==> !Heeded(t, inputs, i, card)
  }

  lemma {:induction false} HeededInFront(t: Timings, inputs: seq<Input>, n: nat, i: nat, card: bool)
    requires i < n <= |inputs|
    ensures Heeded(t, inputs[..n], i, card) == Heeded(t, inputs, i, card) && inputs[..n][i] == inputs[i]
  {
    assert inputs[..n][..i] == inputs[..i];
  }

  lemma {:induction false} LastOfFront(t: Timings, inputs: seq<Input>, n: nat, k: nat, card: bool)
    requires |inputs| == n + 1 && !Heeded(t, inputs, n, card)
    ensures LastHeeded(t, inputs, k, card) <==> LastHeeded(t, inputs[..n], k, card)
    ensures k < n ==> inputs[..n][k] == inputs[k]
  {
    forall i: nat | i < n ensures Heeded(t, inputs[..n], i, card) == Heeded(t, inputs, i, card) {
      HeededInFront(t, inputs, n, i, card);
    }
  }

  lemma StepRemembers(g: Gate, t: Timings, input: Input)
    ensures var h := Next(g, t, input);
      && (h.lastCardKey, h.lastCardAt) == (if input.Card? && Decides(g, t, input)
            then (Some(CardNumberKey(input.cardNo)), Some(input.at)) else (g.lastCardKey, g.lastCardAt))
      && h.lastExitAt == (if input.Exit? && Decides(g, t, input) then Some(input.at) else g.lastExitAt)
  {
  }

  /** When the gate last took notice of a card, or of a press. */
  function Noticed(g: Gate, card: bool): Option<int> {
    if card then g.lastCardAt else g.lastExitAt
  }

  ghost predicate Remembers(g: Gate, input: Input, card: bool) {
    if card then input.Card? && g.lastCardKey == Some(CardNumberKey(input.cardNo)) && g.lastCardAt == Some(input.at)
    else input.Exit? && g.lastExitAt == Some(input.at)
  }

  /** The gate remembers exactly the last card, and the last press, that it did not ignore. */
  lemma {:induction false} RemembersLast(t: Timings, inputs: seq<Input>, card: bool) returns (k: nat)
    ensures Noticed(After(CLOSED, t, inputs), card).Some? ==> LastHeeded(t, inputs, k, card)
    ensures LastHeeded(t, inputs, k, card) ==> Remembers(After(CLOSED, t, inputs), inputs[k], card)
    ensures forall i: nat :: LastHeeded(t, inputs, i, card) ==> i == k
  {
    k := 0;
    if inputs != [] {
      var n: nat := |inputs| - 1;
      StepRemembers(After(CLOSED, t, inputs[..n]), t, inputs[n]);
      if Heeded(t, inputs, n, card) {
        k := n;
      } else {
        k := RemembersLast(t, inputs[..n], card);
        forall i: nat ensures LastHeeded(t, inputs, i, card) <==> LastHeeded(t, inputs[..n], i, card) {
          LastOfFront(t, inputs, n, i, card);
        }
        LastOfFront(t, inputs, n, k, card);
      }
    }
  }

  /**
   * In every run a card is ignored exactly when its number is that of the last card that was not, and less
   * than the cooldown has passed since; a text without a number is never ignored.
   */
  lemma CardIgnoredIff(t: Timings, inputs: seq<Input>, cardNo: string, at: int, env: Env)
    ensures !Decides(After(CLOSED, t, inputs), t, Card(cardNo, at, env)) <==>
      && CardNumberKey(cardNo) != ""
      && exists k: nat :: LastHeeded(t, inputs, k, true)
           && CardNumberKey(inputs[k].cardNo) == CardNumberKey(cardNo) && at < inputs[k].at + t.cardCooldownMs
  {
    var k := RemembersLast(t, inputs, true);
  }

  /** In every run a press of the exit button is ignored exactly when the last one that was not is too recent. */
  lemma PressIgnoredIff(t: Timings, inputs: seq<Input>, at: int, env: Env)
    ensures !Decides(After(CLOSED, t, inputs), t, Exit(at, env)) <==>
      exists k: nat :: LastHeeded(t, inputs, k, false) && at < inputs[k].at + t.exitDebounceMs
  {
    var k := RemembersLast(t, inputs, false);
  }
}
