/** The sketch's door: the same machine as the Pi's, timed by a millisecond counter that wraps at 2^32. */
module EspDoor {
  import opened Base
  import opened GateModel

  const OPEN_MS: nat := 3000

  /** Consecutive turns of the loop must start closer together than this. */
  const MAX_GAP: int := 0x8000_0000 - 3001

  /** `offAt` is a counter value; 0 means that no pulse is running. */
  datatype Esp = Esp(mode: Mode, relayOn: bool, offAt: nat)

  const ESP_CLOSED := Esp(Normal, false, 0)

  /** What `millis()` reads at a true time. */
  function Millis(t: int): nat {
    t % U32
  }

  /** `(int32_t)(a - b) >= 0` on counter values. */
  predicate Reached(a: nat, b: nat) {
    (a - b) % U32 < I32_HALF
  }

  function EspPulse(e: Esp, millis: nat): Esp {
    var off := (millis + OPEN_MS) % U32;
    Esp(e.mode, true, if off == 0 then 1 else off)
  }

  function EspCheck(e: Esp, millis: nat): Esp {
    if e.offAt != 0 && e.mode != RemainOpen && Reached(millis, e.offAt) then Esp(e.mode, false, 0) else e
  }

  /** What can happen to the door in a turn of the loop. */
  datatype Op = Open(at: int) | Shut | Switch(mode: Mode)

  function EspOp(e: Esp, op: Op): Esp {
    match op
    case Open(at) => if e.mode == RemainOpen then e else EspPulse(e, Millis(at))
    case Shut => if e.mode == RemainOpen then e else Esp(e.mode, false, 0)
    case Switch(mode) => Esp(mode, mode == RemainOpen, 0)
  }

  function EspOps(e: Esp, ops: seq<Op>): Esp {
    if ops == [] then e else EspOp(EspOps(e, ops[..|ops| - 1]), ops[|ops| - 1])
  }

  /** One turn: the clock is read, then the reader, the button and the commands act, then the pulse is checked. */
  datatype Turn = Turn(now: int, ops: seq<Op>)

  function EspTurns(turns: seq<Turn>): Esp {
    if turns == [] then ESP_CLOSED
    else
      var last := turns[|turns| - 1];
      EspCheck(EspOps(EspTurns(turns[..|turns| - 1]), last.ops), Millis(last.now))
  }

  class EspGate {
    var doorMode: Mode
    var relayOn: bool
    var relayOffAt: nat

    ghost function State(): Esp
      reads this
    {
      Esp(doorMode, relayOn, relayOffAt)
    }

    constructor ()
      ensures State() == ESP_CLOSED
    {
      doorMode, relayOn, relayOffAt := Normal, false, 0;
    }

    method PulseDoor(millis: nat)
      modifies this`relayOn, this`relayOffAt
      ensures State() == EspPulse(old(State()), millis)
    {
      relayOn := true;
      relayOffAt := (millis + OPEN_MS) % U32;
      if relayOffAt == 0 { relayOffAt := 1; }
    }

    method SetDoorMode(mode: Mode)
      modifies this
      ensures State() == EspOp(old(State()), Switch(mode))
    {
      doorMode := mode;
      relayOffAt := 0;
      relayOn := mode == RemainOpen;
    }

    method CloseNow()
      modifies this`relayOn, this`relayOffAt
      ensures State() == EspOp(old(State()), Shut)
    {
      if doorMode != RemainOpen {
        relayOffAt := 0;
        relayOn := false;
      }
    }

    method CheckPulse(millis: nat)
      modifies this`relayOn, this`relayOffAt
      ensures State() == EspCheck(old(State()), millis)
    {
      if relayOffAt != 0 && doorMode != RemainOpen && Reached(millis, relayOffAt) {
        relayOffAt := 0;
        relayOn := false;
      }
    }
  }

  // ---- The same door on a clock that does not wrap ----

  /** A pulse whose end would read as 0 lasts one millisecond longer. */
  function OpenFor(at: int): nat {
    if (at + OPEN_MS) % U32 == 0 then OPEN_MS + 1 else OPEN_MS
  }

  function DoorOp(d: Door, op: Op): Door {
    match op
    case Open(at) => PulseUnlessHeld(d, at, OpenFor(at))
    case Shut => Commanded(d, 2, 0, 0)
    case Switch(mode) => SetMode(mode)
  }

  function DoorOps(d: Door, ops: seq<Op>): Door {
    if ops == [] then d else DoorOp(DoorOps(d, ops[..|ops| - 1]), ops[|ops| - 1])
  }

  function DoorTurns(turns: seq<Turn>): Door {
    if turns == [] then CLOSED.door
    else
      var last := turns[|turns| - 1];
      Serviced(DoorOps(DoorTurns(turns[..|turns| - 1]), last.ops), last.now)
  }

  ghost predicate Shows(e: Esp, d: Door) {
    && e.mode == d.mode && e.relayOn == d.relayOn
    && (d.relayOffAt.None? <==> e.offAt == 0)
    && (d.relayOffAt.Some? ==> e.offAt == d.relayOffAt.value % U32)
  }

  /** A turn's operations happen after its clock reading, and before the gap is over. */
  ghost predicate TurnInTime(turn: Turn) {
    forall i :: 0 <= i < |turn.ops| && turn.ops[i].Open? ==> turn.now <= turn.ops[i].at < turn.now + MAX_GAP
  }

  ghost predicate InTime(turns: seq<Turn>) {
    && (forall i :: 0 <= i < |turns| ==> TurnInTime(turns[i]))
    && (forall i :: 0 < i < |turns| ==> turns[i - 1].now <= turns[i].now < turns[i - 1].now + MAX_GAP)
  }

  lemma {:induction false} OpsShow(e: Esp, d: Door, ops: seq<Op>)
    requires Shows(e, d)
    ensures Shows(EspOps(e, ops), DoorOps(d, ops))
  {
    if ops != [] {
      OpsShow(e, d, ops[..|ops| - 1]);
      OpShows(EspOps(e, ops[..|ops| - 1]), DoorOps(d, ops[..|ops| - 1]), ops[|ops| - 1]);
    }
  }

  lemma OpShows(e: Esp, d: Door, op: Op)
    requires Shows(e, d)
    ensures Shows(EspOp(e, op), DoorOp(d, op))
  {
    if op.Open? && d.mode != RemainOpen {
      WrappedSum(op.at, OPEN_MS);
      if (op.at + OPEN_MS) % U32 == 0 {
        AfterZero(op.at + OPEN_MS);
      }
    }
  }

  lemma WrappedSum(a: int, b: int)
    ensures (a % U32 + b) % U32 == (a + b) % U32
  {
    SameWrap(a % U32 + b, a / U32);
  }

  lemma AfterZero(a: int)
    requires a % U32 == 0
    ensures (a + 1) % U32 == 1
  {
    SameWrap(1, a / U32);
  }

  lemma SameWrap(a: int, turns: int)
    ensures (a + U32 * turns) % U32 == a % U32
  {
  }

  /** A pulse that is running ends after the last check, and not long after the latest opening. */
  ghost predicate EndsNear(d: Door, checked: int, latest: int) {
    d.relayOffAt.Some? ==> checked < d.relayOffAt.value <= latest + OPEN_MS + 1
  }

  lemma {:induction false} OpsEndNear(d: Door, ops: seq<Op>, checked: int, now: int)
    requires EndsNear(d, checked, now + MAX_GAP) && checked <= now
    requires forall i :: 0 <= i < |ops| && ops[i].Open? ==> now <= ops[i].at < now + MAX_GAP
    ensures EndsNear(DoorOps(d, ops), checked, now + MAX_GAP)
  {
    if ops != [] {
      OpsEndNear(d, ops[..|ops| - 1], checked, now);
    }
  }

  /** Comparing counter values compares times that are less than half the counter apart. */
  lemma ReachedIsLater(now: int, x: int)
    requires -I32_HALF <= now - x < I32_HALF
    ensures Reached(Millis(now), x % U32) <==> now >= x
  {
    var a, b := now / U32, x / U32;
    assert Millis(now) - x % U32 == (now - x) + U32 * (b - a);
    assert (Millis(now) - x % U32) % U32 == (now - x) % U32;
  }

  /** While turns come often enough, the wrapping counter times the door as a clock that never wraps would. */
  lemma {:induction false} TurnsRefine(turns: seq<Turn>)
    requires InTime(turns)
    ensures Shows(EspTurns(turns), DoorTurns(turns))
    ensures turns != [] ==> EndsNear(DoorTurns(turns), turns[|turns| - 1].now, turns[|turns| - 1].now + MAX_GAP)
    ensures DoorTurns(turns).mode == RemainOpen ==> DoorTurns(turns).relayOffAt.None?
    ensures turns == [] ==> DoorTurns(turns).relayOffAt.None?
  {
    if turns != [] {
      var n := |turns| - 1;
      var front, last := turns[..n], turns[n];
      TurnsRefine(front);
      var checked := if n == 0 then last.now - 1 else turns[n - 1].now;
      if n > 0 { assert front[n - 1] == turns[n - 1]; }
      OpsShow(EspTurns(front), DoorTurns(front), last.ops);
      assert TurnInTime(last);
      OpsEndNear(DoorTurns(front), last.ops, checked, last.now);
      HeldHasNoPulse(DoorTurns(front), last.ops);
      CheckShows(EspOps(EspTurns(front), last.ops), DoorOps(DoorTurns(front), last.ops), checked, last.now);
    }
  }

  lemma {:induction false} HeldHasNoPulse(d: Door, ops: seq<Op>)
    requires d.mode == RemainOpen ==> d.relayOffAt.None?
    ensures DoorOps(d, ops).mode == RemainOpen ==> DoorOps(d, ops).relayOffAt.None?
  {
    if ops != [] {
      HeldHasNoPulse(d, ops[..|ops| - 1]);
    }
  }

  lemma CheckShows(e: Esp, d: Door, checked: int, now: int)
    requires Shows(e, d) && EndsNear(d, checked, now + MAX_GAP) && checked <= now < checked + MAX_GAP
    requires d.mode == RemainOpen ==> d.relayOffAt.None?
    ensures Shows(EspCheck(e, Millis(now)), Serviced(d, now))
    ensures EndsNear(Serviced(d, now), now, now + MAX_GAP)
  {
    if d.relayOffAt.Some? {
      ReachedIsLater(now, d.relayOffAt.value);
    }
  }

  /** An opening that a pulse with this end can have come from. */
  ghost predicate OpenedAt(turns: seq<Turn>, off: int) {
    exists k, i :: 0 <= k < |turns| && 0 <= i < |turns[k].ops| && turns[k].ops[i].Open?
                   && off == turns[k].ops[i].at + OpenFor(turns[k].ops[i].at)
  }

  lemma {:induction false} OpsHaveCause(d: Door, ops: seq<Op>)
    ensures DoorOps(d, ops).relayOffAt.Some? ==>
      DoorOps(d, ops).relayOffAt == d.relayOffAt
      || exists i :: 0 <= i < |ops| && ops[i].Open? && DoorOps(d, ops).relayOffAt.value == ops[i].at + OpenFor(ops[i].at)
  {
    if ops != [] {
      var n := |ops| - 1;
      OpsHaveCause(d, ops[..n]);
      var r := DoorOps(d, ops).relayOffAt;
      if r.Some? && r == DoorOps(d, ops[..n]).relayOffAt && r != d.relayOffAt {
        var i :| 0 <= i < n && ops[..n][i].Open? && r.value == ops[..n][i].at + OpenFor(ops[..n][i].at);
        assert ops[i].Open?;
      }
    }
  }

  lemma {:induction false} TurnsHaveCause(turns: seq<Turn>)
    ensures DoorTurns(turns).relayOffAt.Some? ==> OpenedAt(turns, DoorTurns(turns).relayOffAt.value)
  {
    if turns != [] {
      var n := |turns| - 1;
      TurnsHaveCause(turns[..n]);
      var before := DoorTurns(turns[..n]);
      OpsHaveCause(before, turns[n].ops);
      var r := DoorTurns(turns).relayOffAt;
      if r.Some? && r == before.relayOffAt {
        var k, i :| 0 <= k < n && 0 <= i < |turns[..n][k].ops| && turns[..n][k].ops[i].Open?
                    && r.value == turns[..n][k].ops[i].at + OpenFor(turns[..n][k].ops[i].at);
        assert turns[k] == turns[..n][k];
      }
    }
  }

  lemma {:induction false} TurnsKeepRelay(turns: seq<Turn>)
    ensures RelayConsistent(DoorTurns(turns))
  {
    if turns != [] {
      TurnsKeepRelay(turns[..|turns| - 1]);
      OpsKeepRelay(DoorTurns(turns[..|turns| - 1]), turns[|turns| - 1].ops);
    }
  }

  lemma {:induction false} OpsKeepRelay(d: Door, ops: seq<Op>)
    requires RelayConsistent(d)
    ensures RelayConsistent(DoorOps(d, ops))
  {
    if ops != [] {
      OpsKeepRelay(d, ops[..|ops| - 1]);
    }
  }

  /**
   * After a turn of the sketch's loop, a relay that is on outside "remain open" was opened at most
   * 3000 ms before the turn read its clock: the rounded-up end can cost one millisecond, no more.
   */
  lemma EspRelayOnOnlyForRecentCause(turns: seq<Turn>)
    requires turns != [] && InTime(turns)
    requires EspTurns(turns).relayOn && EspTurns(turns).mode != RemainOpen
    ensures exists k, i :: 0 <= k < |turns| && 0 <= i < |turns[k].ops| && turns[k].ops[i].Open?
                           && turns[|turns| - 1].now - turns[k].ops[i].at <= 3000
  {
    TurnsRefine(turns);
    TurnsKeepRelay(turns);
    TurnsHaveCause(turns);
  }
}
