/** The sketch's keypad lockout on a 32-bit millisecond clock, where zero also means "not locked". */
module EspPin {
  import opened Base
  import opened PinLock

  const MINUTE: int := 60000

  function Wrap(x: int): nat {
    x % U32
  }

  /** `(int32_t)(a - b) < 0`: `a` is before `b` on the wrapping clock. */
  predicate Before(a: int, b: int) {
    Wrap(a - b) >= I32_HALF
  }

  datatype EspPad = EspPad(failures: nat, windowStart: nat, lockedUntil: nat)

  predicate EspLocked(e: EspPad, millis: nat) {
    e.lockedUntil != 0 && Before(millis, e.lockedUntil)
  }

  function EspOutcome(e: EspPad, millis: nat, accepted: bool): Outcome {
    if EspLocked(e, millis) then Refused else if accepted then Granted else Denied
  }

  function EspSubmit(e: EspPad, millis: nat, accepted: bool): EspPad {
    if EspLocked(e, millis) then e
    else if accepted then EspPad(0, e.windowStart, 0)
    else
      var restart := e.failures == 0 || Wrap(millis - e.windowStart) > MINUTE;
      var failures, start := (if restart then 0 else e.failures) + 1, if restart then millis else e.windowStart;
      var until := Wrap(millis + MINUTE);
      if failures >= 5 then EspPad(0, start, if until == 0 then 1 else until) else EspPad(failures, start, 0)
  }

  class Keypad {
    var pinFailures: nat
    var pinFailureWindowStart: nat
    var pinLockedUntil: nat

    ghost function State(): EspPad
      reads this
    {
      EspPad(pinFailures, pinFailureWindowStart, pinLockedUntil)
    }

    constructor ()
      ensures State() == EspPad(0, 0, 0)
    {
      pinFailures, pinFailureWindowStart, pinLockedUntil := 0, 0, 0;
    }

    /** One submitted PIN; `accepted` is what the decision would be if it were taken. */
    method HandlePin(accepted: bool, nowMs: nat) returns (outcome: Outcome)
      modifies this
      ensures outcome == EspOutcome(old(State()), nowMs, accepted)
      ensures State() == EspSubmit(old(State()), nowMs, accepted)
    {
      if pinLockedUntil != 0 && Before(nowMs, pinLockedUntil) {
        return Refused;
      }
      pinLockedUntil := 0;
      if accepted {
        pinFailures := 0;
        return Granted;
      }
      if pinFailures == 0 || Wrap(nowMs - pinFailureWindowStart) > MINUTE {
        pinFailures := 0;
        pinFailureWindowStart := nowMs;
      }
      pinFailures := pinFailures + 1;
      if pinFailures >= 5 {
        pinLockedUntil := Wrap(nowMs + MINUTE);
        if pinLockedUntil == 0 { pinLockedUntil := 1; }
        pinFailures := 0;
      }
      return Denied;
    }
  }

  // ---- Runs ----

  function EspOutcomes(e: EspPad, run: seq<Attempt>): (o: seq<Outcome>)
    ensures |o| == |run|
    decreases |run|
  {
    if run == [] then []
    else
      var now := Wrap(run[0].at);
      [EspOutcome(e, now, run[0].accepted)] + EspOutcomes(EspSubmit(e, now, run[0].accepted), run[1..])
  }

  lemma {:induction false} EspStartDoesNotMatter(e: EspPad, f: EspPad, run: seq<Attempt>)
    requires e.failures == 0 == f.failures && e.lockedUntil == f.lockedUntil
    ensures EspOutcomes(e, run) == EspOutcomes(f, run)
    decreases |run|
  {
    if run != [] {
      var now := Wrap(run[0].at);
      var next, other := EspSubmit(e, now, run[0].accepted), EspSubmit(f, now, run[0].accepted);
      if next != other { EspStartDoesNotMatter(next, other, run[1..]); }
    }
  }

  /** On the sketch too a granted PIN is a fresh start, whatever its clock reads and however long after. */
  lemma {:induction false} EspGrantIsFreshStart(e: EspPad, millis: nat, run: seq<Attempt>)
    requires !EspLocked(e, millis)
    ensures EspOutcomes(EspSubmit(e, millis, true), run) == EspOutcomes(EspPad(0, 0, 0), run)
  {
    EspStartDoesNotMatter(EspSubmit(e, millis, true), EspPad(0, 0, 0), run);
  }

  /** No two submissions are so far apart that the clock cannot tell. */
  predicate Paced(run: seq<Attempt>, last: int)
    decreases |run|
  {
    run == [] || (last <= run[0].at < last + I32_HALF - MINUTE && Paced(run[1..], run[0].at))
  }

  /** When a lock ends on the sketch: one millisecond later where the clock would read zero. */
  function Ends(until: int): nat {
    if Wrap(until) == 0 then 1 else Wrap(until)
  }

  /** A submission in the very millisecond in which a lock ends and the clock reads zero. */
  predicate OnZero(p: Pad, at: int) {
    p.lockedUntil == Some(at) && Wrap(at) == 0
  }

  /** The 32-bit pad stands for the unbounded one, as it was left by a submission at `last`. */
  ghost predicate Stands(e: EspPad, p: Pad, last: int) {
    && e.failures == p.failures
    && (p.failures > 0 ==> e.windowStart == Wrap(p.windowStart) && last - MINUTE <= p.windowStart <= last)
    && (p.lockedUntil.None? <==> e.lockedUntil == 0)
    && (p.lockedUntil.Some? ==>
          var u := p.lockedUntil.value;
          e.lockedUntil == Ends(u) && u - MINUTE <= last && (last < u || OnZero(p, last)) && p.failures == 0)
  }

  lemma {:induction false} WrapOfDifference(a: int, b: int)
    ensures Wrap(Wrap(a) - Wrap(b)) == Wrap(a - b)
  {
    var q := a / U32 - b / U32;
    assert a - b == q * U32 + (Wrap(a) - Wrap(b));
    WrapShift(q, Wrap(a) - Wrap(b));
  }

  lemma {:induction false} WrapShift(q: int, r: int)
    ensures Wrap(q * U32 + r) == Wrap(r)
  {
  }

  lemma {:induction false} WrapOfSum(a: int)
    ensures Wrap(Wrap(a) + MINUTE) == Wrap(a + MINUTE)
  {
    assert a + MINUTE == a / U32 * U32 + (Wrap(a) + MINUTE);
    WrapShift(a / U32, Wrap(a) + MINUTE);
  }

  lemma {:induction false} AfterZero(until: int)
    requires Wrap(until) == 0
    ensures Wrap(until + 1) == 1
  {
    assert until + 1 == until / U32 * U32 + 1;
    WrapShift(until / U32, 1);
  }

  /** The sketch is locked when the unbounded pad is, and in one millisecond more. */
  lemma {:induction false} SameLock(e: EspPad, p: Pad, last: int, at: int)
    requires Stands(e, p, last) && last <= at < last + I32_HALF - MINUTE
    ensures EspLocked(e, Wrap(at)) <==> Locked(p, at) || OnZero(p, at)
  {
    if p.lockedUntil.Some? {
      var u := p.lockedUntil.value;
      var end := if Wrap(u) == 0 then u + 1 else u;
      if Wrap(u) == 0 { AfterZero(u); }
      WrapOfDifference(at, end);
    }
  }

  lemma {:induction false} SubmitStands(e: EspPad, p: Pad, last: int, a: Attempt)
    requires Stands(e, p, last) && last <= a.at < last + I32_HALF - MINUTE && !OnZero(p, a.at)
    ensures Stands(EspSubmit(e, Wrap(a.at), a.accepted), Submit(p, DEFAULTS, a), a.at)
    ensures EspOutcome(e, Wrap(a.at), a.accepted) == OutcomeOf(p, a)
  {
    SameLock(e, p, last, a.at);
    WrapOfDifference(a.at, p.windowStart);
    WrapOfSum(a.at);
  }

  lemma {:induction false} ZeroIsRefused(e: EspPad, p: Pad, last: int, a: Attempt)
    requires Stands(e, p, last) && last <= a.at < last + I32_HALF - MINUTE && OnZero(p, a.at)
    ensures EspSubmit(e, Wrap(a.at), a.accepted) == e && Stands(e, p, a.at)
    ensures EspOutcome(e, Wrap(a.at), a.accepted) == Refused != OutcomeOf(p, a)
  {
    SameLock(e, p, last, a.at);
  }

  // ---- When the sketch decides as the unbounded lock does ----

  predicate NeverOnZero(p: Pad, run: seq<Attempt>)
    decreases |run|
  {
    run == [] || (!OnZero(p, run[0].at) && NeverOnZero(Submit(p, DEFAULTS, run[0]), run[1..]))
  }

  /**
   * With submissions no further apart than the clock can tell, the sketch decides every PIN as the
   * unbounded lock does exactly when no PIN is submitted in the millisecond in which a lock ends and
   * the clock reads zero, which the sketch takes for "not locked".
   */
  lemma {:induction false} SketchDecidesTheSameIff(e: EspPad, p: Pad, run: seq<Attempt>, last: int)
    requires Stands(e, p, last) && Paced(run, last)
    ensures EspOutcomes(e, run) == Outcomes(p, DEFAULTS, run) <==> NeverOnZero(p, run)
    decreases |run|
  {
    if run != [] {
      var now, esp, pad := Wrap(run[0].at), EspOutcomes(e, run), Outcomes(p, DEFAULTS, run);
      if OnZero(p, run[0].at) {
        ZeroIsRefused(e, p, last, run[0]);
        assert esp[0] != pad[0];
      } else {
        SubmitStands(e, p, last, run[0]);
        SketchDecidesTheSameIff(EspSubmit(e, now, run[0].accepted), Submit(p, DEFAULTS, run[0]), run[1..], run[0].at);
        assert esp[1..] == EspOutcomes(EspSubmit(e, now, run[0].accepted), run[1..]);
        assert pad[1..] == Outcomes(Submit(p, DEFAULTS, run[0]), DEFAULTS, run[1..]);
      }
    }
  }

  lemma {:induction false} FreshPadDecidesTheSameIff(run: seq<Attempt>, last: int)
    requires Paced(run, last)
    ensures EspOutcomes(EspPad(0, 0, 0), run) == Outcomes(FRESH, DEFAULTS, run) <==> NeverOnZero(FRESH, run)
  {
    SketchDecidesTheSameIff(EspPad(0, 0, 0), FRESH, run, last);
  }

  /** Five wrong PINs one minute before the clock reads zero, and any PIN when it does: the sketch refuses to look at it. */
  lemma {:induction false} ZeroIsMissed(at: int, accepted: bool)
    requires Wrap(at + MINUTE) == 0
    ensures var run := Burst(DEFAULTS.maxAttempts, at) + [Attempt(at + MINUTE, accepted)];
      Paced(run, at) && !NeverOnZero(FRESH, run) && EspOutcomes(EspPad(0, 0, 0), run) != Outcomes(FRESH, DEFAULTS, run)
  {
    var last := [Attempt(at + MINUTE, accepted)];
    BurstThenLast(FRESH, at, 5, at, last);
    FreshPadDecidesTheSameIff(Burst(DEFAULTS.maxAttempts, at) + last, at);
  }

  lemma {:induction false} BurstThenLast(p: Pad, start: int, k: nat, at: int, last: seq<Attempt>)
    requires p.failures + k == DEFAULTS.maxAttempts && p.lockedUntil.None? && Wrap(at + MINUTE) == 0
    requires p.failures == 0 || (p.windowStart == start && at == start)
    requires |last| == 1 && last[0].at == at + MINUTE && k > 0
    ensures Paced(Burst(k, at) + last, at) && !NeverOnZero(p, Burst(k, at) + last)
    decreases k
  {
    var run := Burst(k, at) + last;
    assert run[0] == Attempt(at, false) && run[1..] == Burst(k - 1, at) + last;
    if k > 1 {
      BurstThenLast(Submit(p, DEFAULTS, run[0]), at, k - 1, at, last);
    } else {
      assert run[1..] == last && last[1..] == [];
      assert OnZero(Submit(p, DEFAULTS, run[0]), last[0].at);
    }
  }

  // ---- The bound of eight for the sketch itself ----

  /** A run without the submissions that only the sketch refuses. */
  function Heard(p: Pad, run: seq<Attempt>): seq<Attempt>
    decreases |run|
  {
    if run == [] then []
    else if OnZero(p, run[0].at) then Heard(p, run[1..])
    else [run[0]] + Heard(Submit(p, DEFAULTS, run[0]), run[1..])
  }

  /** How many PINs in a half-open span the sketch looks at and denies. */
  function EspDeniedIn(e: EspPad, run: seq<Attempt>, from: int, length: nat): nat
    decreases |run|
  {
    if run == [] then 0
    else
      var now := Wrap(run[0].at);
      var here := if EspOutcome(e, now, run[0].accepted) == Denied && InSpan(run[0].at, from, length) then 1 else 0;
      here + EspDeniedIn(EspSubmit(e, now, run[0].accepted), run[1..], from, length)
  }

  ghost predicate EspNoGrantIn(e: EspPad, run: seq<Attempt>, from: int, length: nat) {
    forall i :: 0 <= i < |run| && InSpan(run[i].at, from, length) ==> EspOutcomes(e, run)[i] != Granted
  }

  lemma {:induction false} EspNoGrantInTail(e: EspPad, run: seq<Attempt>, from: int, length: nat)
    requires run != [] && EspNoGrantIn(e, run, from, length)
    ensures EspNoGrantIn(EspSubmit(e, Wrap(run[0].at), run[0].accepted), run[1..], from, length)
    ensures InSpan(run[0].at, from, length) ==> EspOutcome(e, Wrap(run[0].at), run[0].accepted) != Granted
  {
    var outcomes := EspOutcomes(e, run);
    assert outcomes[0] == EspOutcome(e, Wrap(run[0].at), run[0].accepted);
    forall i | 0 <= i < |run[1..]| && InSpan(run[1..][i].at, from, length) ensures outcomes[1..][i] != Granted {
      assert run[i + 1] == run[1..][i];
    }
  }

  lemma {:induction false} NoGrantInMore(p: Pad, a: Attempt, run: seq<Attempt>, from: int, length: nat)
    requires NoGrantIn(Submit(p, DEFAULTS, a), DEFAULTS, run, from, length)
    requires InSpan(a.at, from, length) ==> OutcomeOf(p, a) != Granted
    ensures NoGrantIn(p, DEFAULTS, [a] + run, from, length)
  {
    var more := [a] + run;
    assert more[1..] == run;
    forall i | 0 <= i < |more| && InSpan(more[i].at, from, length) ensures Outcomes(p, DEFAULTS, more)[i] != Granted {
      assert i > 0 ==> more[i] == run[i - 1];
    }
  }

  /** The sketch denies what the unbounded lock denies of what it hears. */
  lemma {:induction false} SketchHears(e: EspPad, p: Pad, run: seq<Attempt>, last: int, from: int, length: nat)
    requires Stands(e, p, last) && Paced(run, last)
    ensures EspDeniedIn(e, run, from, length) == DeniedIn(p, DEFAULTS, Heard(p, run), from, length)
    ensures EspNoGrantIn(e, run, from, length) ==> NoGrantIn(p, DEFAULTS, Heard(p, run), from, length)
    decreases |run|
  {
    if run != [] {
      var now := Wrap(run[0].at);
      if EspNoGrantIn(e, run, from, length) { EspNoGrantInTail(e, run, from, length); }
      if OnZero(p, run[0].at) {
        ZeroIsRefused(e, p, last, run[0]);
        SketchHears(e, p, run[1..], run[0].at, from, length);
      } else {
        var next := Submit(p, DEFAULTS, run[0]);
        var heard := Heard(next, run[1..]);
        SubmitStands(e, p, last, run[0]);
        SketchHears(EspSubmit(e, now, run[0].accepted), next, run[1..], run[0].at, from, length);
        assert ([run[0]] + heard)[1..] == heard;
        if EspNoGrantIn(e, run, from, length) { NoGrantInMore(p, run[0], heard, from, length); }
      }
    }
  }

  lemma {:induction false} HeardIsTimely(p: Pad, run: seq<Attempt>, last: int)
    requires Paced(run, last)
    ensures Timely(Heard(p, run)) && forall i :: 0 <= i < |Heard(p, run)| ==> last <= Heard(p, run)[i].at
    decreases |run|
  {
    if run != [] {
      if OnZero(p, run[0].at) {
        HeardIsTimely(p, run[1..], run[0].at);
      } else {
        HeardIsTimely(Submit(p, DEFAULTS, run[0]), run[1..], run[0].at);
      }
    }
  }

  /** On the sketch too, no run denies more than eight PINs it looked at in a minute without a granted one. */
  lemma EightOnTheSketch(run: seq<Attempt>, last: int, from: int)
    requires Paced(run, last) && EspNoGrantIn(EspPad(0, 0, 0), run, from, DEFAULTS.windowMs)
    ensures EspDeniedIn(EspPad(0, 0, 0), run, from, DEFAULTS.windowMs) <= 8
  {
    SketchHears(EspPad(0, 0, 0), FRESH, run, last, from, DEFAULTS.windowMs);
    HeardIsTimely(FRESH, run, last);
    EightByDefault(Heard(FRESH, run), from);
  }
}
