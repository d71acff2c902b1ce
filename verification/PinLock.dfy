/** The keypad lockout: wrong PINs are counted in a window, and enough of them lock the keypad. */
module PinLock {
  import opened Base

  datatype Limits = Limits(maxAttempts: nat, windowMs: nat, lockoutMs: nat)

  const DEFAULTS := Limits(5, 60000, 60000)

  datatype Pad = Pad(failures: nat, windowStart: int, lockedUntil: Option<int>)

  const FRESH := Pad(0, 0, None)

  /** Refused: the pad was locked and the PIN was not looked at. */
  datatype Outcome = Refused | Granted | Denied

  /** One submitted PIN: when, and whether it would be accepted if it were looked at. */
  datatype Attempt = Attempt(at: int, accepted: bool)

  predicate Locked(p: Pad, at: int) {
    p.lockedUntil.Some? && at - p.lockedUntil.value < 0
  }

  function OutcomeOf(p: Pad, a: Attempt): Outcome {
    if Locked(p, a.at) then Refused else if a.accepted then Granted else Denied
  }

  function Submit(p: Pad, limits: Limits, a: Attempt): Pad {
    if Locked(p, a.at) then p
    else if a.accepted then p.(failures := 0, lockedUntil := None)
    else
      var restart := p.failures == 0 || a.at - p.windowStart > limits.windowMs;
      var failures := (if restart then 0 else p.failures) + 1;
      var start := if restart then a.at else p.windowStart;
      if failures >= limits.maxAttempts then Pad(0, start, Some(a.at + limits.lockoutMs))
      else Pad(failures, start, None)
  }

  // ---- Runs ----

  predicate Timely(run: seq<Attempt>) {
    forall i, j :: 0 <= i < j < |run| ==> run[i].at <= run[j].at
  }

  function After(p: Pad, limits: Limits, run: seq<Attempt>): Pad
    decreases |run|
  {
    if run == [] then p else After(Submit(p, limits, run[0]), limits, run[1..])
  }

  function Outcomes(p: Pad, limits: Limits, run: seq<Attempt>): (o: seq<Outcome>)
    ensures |o| == |run|
    decreases |run|
  {
    if run == [] then [] else [OutcomeOf(p, run[0])] + Outcomes(Submit(p, limits, run[0]), limits, run[1..])
  }

  predicate InSpan(at: int, from: int, length: nat) {
    from <= at < from + length
  }

  /** How many attempts in a half-open span were looked at and denied. */
  function DeniedIn(p: Pad, limits: Limits, run: seq<Attempt>, from: int, length: nat): nat
    decreases |run|
  {
    if run == [] then 0
    else
      var here := if OutcomeOf(p, run[0]) == Denied && InSpan(run[0].at, from, length) then 1 else 0;
      here + DeniedIn(Submit(p, limits, run[0]), limits, run[1..], from, length)
  }

  ghost predicate NoGrantIn(p: Pad, limits: Limits, run: seq<Attempt>, from: int, length: nat) {
    forall i :: 0 <= i < |run| && InSpan(run[i].at, from, length) ==> Outcomes(p, limits, run)[i] != Granted
  }

  /** A pad the code can be in: fewer failures than lock it, and none while it is locked. */
  predicate Possible(p: Pad, limits: Limits) {
    && (p.failures < limits.maxAttempts || p.failures == 0)
    && (p.lockedUntil.Some? ==> p.failures == 0)
  }

  lemma SubmitKeepsPossible(p: Pad, limits: Limits, a: Attempt)
    requires Possible(p, limits)
    ensures Possible(Submit(p, limits, a), limits)
  {
  }

  /** How many denied PINs lock the pad. */
  function Needed(limits: Limits): nat {
    if limits.maxAttempts == 0 then 1 else limits.maxAttempts
  }

  /** The PINs denied in a time that starts with a whole set of attempts, and has another after each lockout. */
  function Room(n: nat, time: int, lockoutMs: nat): nat
    requires lockoutMs >= 1
    decreases time
  {
    if time <= 0 then 0 else n + Room(n, time - lockoutMs, lockoutMs)
  }

  function Larger(a: int, b: int): int {
    if a < b then b else a
  }

  /** Either whole sets only, or one failure before the span, all but the last of its window, and then whole sets. */
  function Bound(limits: Limits): int
    requires limits.lockoutMs >= 1
  {
    var n := Needed(limits);
    if limits.windowMs == 0 then 0
    else Larger(Room(n, limits.windowMs, limits.lockoutMs), n - 2 + Room(n, limits.windowMs - 1, limits.lockoutMs))
  }

  lemma {:induction false} RoomGrows(n: nat, a: int, b: int, lockoutMs: nat)
    requires lockoutMs >= 1 && a <= b
    ensures Room(n, a, lockoutMs) <= Room(n, b, lockoutMs)
    decreases b
  {
    if a > 0 { RoomGrows(n, a - lockoutMs, b - lockoutMs, lockoutMs); }
  }

  /** With a lockout at least as long as the window, at most two sets less two: 8 with the default limits. */
  lemma LongLockout(limits: Limits)
    requires limits.lockoutMs >= limits.windowMs >= 2
    ensures Bound(limits) == if limits.maxAttempts <= 1 then 1 else 2 * limits.maxAttempts - 2
  {
    var n := Needed(limits);
    assert Room(n, limits.windowMs - limits.lockoutMs, limits.lockoutMs) == 0;
    assert Room(n, limits.windowMs - 1 - limits.lockoutMs, limits.lockoutMs) == 0;
  }

  /** How many more PINs can be denied from `t` on, before the span that began at `from` ends. */
  function Budget(p: Pad, limits: Limits, from: int, t: int): int
    requires limits.lockoutMs >= 1
  {
    var n, w, l := Needed(limits), limits.windowMs, limits.lockoutMs;
    if t >= from + w then 0
    else if p.lockedUntil.Some? then Room(n, from + w - Larger(t, p.lockedUntil.value), l)
    else if p.failures == 0 || t - p.windowStart > w then Room(n, from + w - t, l)
    else if p.windowStart >= from then Room(n, from + w - t, l) - p.failures
    else Larger(Room(n, from + w - t, l) - p.failures, n - 1 - p.failures + Room(n, from - p.windowStart - 1, l))
  }

  lemma BudgetLater(p: Pad, limits: Limits, from: int, t: int, later: int)
    requires limits.lockoutMs >= 1 && Possible(p, limits) && from <= t <= later < from + limits.windowMs
    ensures Budget(p, limits, from, later) <= Budget(p, limits, from, t)
  {
    var n, w, l := Needed(limits), limits.windowMs, limits.lockoutMs;
    RoomGrows(n, from + w - later, from + w - t, l);
    if p.lockedUntil.Some? {
      RoomGrows(n, from + w - Larger(later, p.lockedUntil.value), from + w - Larger(t, p.lockedUntil.value), l);
    } else if p.failures != 0 && t - p.windowStart <= w < later - p.windowStart {
      RoomGrows(n, from + w - later, from - p.windowStart - 1, l);
    }
  }

  lemma BudgetPays(p: Pad, limits: Limits, a: Attempt, from: int)
    requires limits.lockoutMs >= 1 && Possible(p, limits) && from <= a.at < from + limits.windowMs
    requires OutcomeOf(p, a) == Denied
    ensures 1 + Budget(Submit(p, limits, a), limits, from, a.at) <= Budget(p, limits, from, a.at)
  {
    var n, w, l := Needed(limits), limits.windowMs, limits.lockoutMs;
    assert Room(n, from + w - a.at, l) == n + Room(n, from + w - a.at - l, l);
  }

  lemma {:induction false} BudgetIsNeverOwed(p: Pad, limits: Limits, from: int, t: int)
    requires limits.lockoutMs >= 1 && Possible(p, limits)
    ensures Budget(p, limits, from, t) >= 0
  {
  }

  lemma {:induction false} BudgetCovers(p: Pad, limits: Limits, run: seq<Attempt>, from: int, t: int)
    requires Possible(p, limits) && limits.lockoutMs >= 1 && Timely(run)
    requires from <= t && (run != [] ==> t <= run[0].at)
    requires NoGrantIn(p, limits, run, from, limits.windowMs)
    ensures DeniedIn(p, limits, run, from, limits.windowMs) <= Budget(p, limits, from, t)
    decreases |run|
  {
    BudgetIsNeverOwed(p, limits, from, t);
    if run != [] {
      var next := Submit(p, limits, run[0]);
      SubmitKeepsPossible(p, limits, run[0]);
      if InSpan(run[0].at, from, limits.windowMs) {
        assert Outcomes(p, limits, run)[0] != Granted;
        NoGrantInTail(p, limits, run, from, limits.windowMs);
        BudgetCovers(next, limits, run[1..], from, run[0].at);
        BudgetLater(p, limits, from, t, run[0].at);
        if OutcomeOf(p, run[0]) == Denied { BudgetPays(p, limits, run[0], from); }
      } else {
        NothingAfter(p, limits, run, from);
      }
    }
  }

  lemma BudgetIsBound(p: Pad, limits: Limits, from: int)
    requires limits.lockoutMs >= 1 && Possible(p, limits)
    ensures Budget(p, limits, from, from) <= Bound(limits)
  {
    var n, w, l := Needed(limits), limits.windowMs, limits.lockoutMs;
    if p.lockedUntil.Some? {
      RoomGrows(n, from + w - Larger(from, p.lockedUntil.value), w, l);
    } else if w > 0 && p.failures > 0 && from - p.windowStart <= w {
      RoomGrows(n, from - p.windowStart - 1, w - 1, l);
    }
  }

  lemma NoGrantInTail(p: Pad, limits: Limits, run: seq<Attempt>, from: int, length: nat)
    requires run != [] && NoGrantIn(p, limits, run, from, length)
    ensures NoGrantIn(Submit(p, limits, run[0]), limits, run[1..], from, length)
  {
    var outcomes := Outcomes(p, limits, run);
    forall i | 0 <= i < |run[1..]| && InSpan(run[1..][i].at, from, length)
      ensures outcomes[1..][i] != Granted
    {
      assert run[i + 1] == run[1..][i];
    }
  }

  lemma {:induction false} NothingAfter(p: Pad, limits: Limits, run: seq<Attempt>, from: int)
    requires Timely(run) && (run != [] ==> from + limits.windowMs <= run[0].at)
    ensures DeniedIn(p, limits, run, from, limits.windowMs) == 0
    decreases |run|
  {
    if |run| > 1 {
      NothingAfter(Submit(p, limits, run[0]), limits, run[1..], from);
    }
  }

  // ---- Main results ----

  /**
   * Over every run in time order, and for all limits with a lockout, a half-open span as long as the
   * window in which no PIN was granted holds at most `Bound` denied PINs that were looked at.
   */
  lemma {:induction false} AttemptsAreBounded(p: Pad, limits: Limits, run: seq<Attempt>, from: int)
    requires Possible(p, limits) && limits.lockoutMs >= 1 && Timely(run)
    requires NoGrantIn(p, limits, run, from, limits.windowMs)
    ensures DeniedIn(p, limits, run, from, limits.windowMs) <= Bound(limits)
    decreases |run|
  {
    if run != [] && run[0].at < from {
      SubmitKeepsPossible(p, limits, run[0]);
      NoGrantInTail(p, limits, run, from, limits.windowMs);
      AttemptsAreBounded(Submit(p, limits, run[0]), limits, run[1..], from);
    } else {
      BudgetCovers(p, limits, run, from, from);
      BudgetIsBound(p, limits, from);
    }
  }

  lemma EightByDefault(run: seq<Attempt>, from: int)
    requires Timely(run) && NoGrantIn(FRESH, DEFAULTS, run, from, DEFAULTS.windowMs)
    ensures DeniedIn(FRESH, DEFAULTS, run, from, DEFAULTS.windowMs) <= 8
  {
    LongLockout(DEFAULTS);
    AttemptsAreBounded(FRESH, DEFAULTS, run, from);
  }

  /** Without a lockout there is no bound: any number of wrong PINs at once is looked at. */
  lemma {:induction false} NoLockoutNoBound(p: Pad, limits: Limits, k: nat, at: int)
    requires limits.lockoutMs == 0 && limits.windowMs >= 1 && !Locked(p, at)
    ensures DeniedIn(p, limits, Burst(k, at), at, limits.windowMs) == k
    decreases k
  {
    if k > 0 {
      assert Burst(k, at)[1..] == Burst(k - 1, at);
      NoLockoutNoBound(Submit(p, limits, Attempt(at, false)), limits, k - 1, at);
    }
  }

  /** The attempt that reaches the limit locks the pad, and nothing is looked at until the lock ends. */
  lemma {:induction false} NothingEvaluatedWhileLocked(p: Pad, limits: Limits, run: seq<Attempt>, i: nat)
    requires p.lockedUntil.Some? && i < |run|
    requires forall j :: 0 <= j <= i ==> run[j].at < p.lockedUntil.value
    ensures Outcomes(p, limits, run)[i] == Refused && After(p, limits, run[..i + 1]) == p
    decreases |run|
  {
    if i > 0 {
      NothingEvaluatedWhileLocked(p, limits, run[1..], i - 1);
      assert run[..i + 1][1..] == run[1..][..i];
    } else {
      assert run[..1][1..] == [];
    }
  }

  /** A pad locks exactly when a denied PIN is the last one allowed in the window it belongs to. */
  lemma LocksExactlyAtTheLimit(p: Pad, limits: Limits, a: Attempt)
    requires Possible(p, limits) && !Locked(p, a.at)
    ensures Submit(p, limits, a).lockedUntil.Some?
      <==> !a.accepted && (limits.maxAttempts <= 1
           || (p.failures + 1 == limits.maxAttempts && a.at - p.windowStart <= limits.windowMs))
    ensures Submit(p, limits, a).lockedUntil.Some? ==> Submit(p, limits, a).lockedUntil.value == a.at + limits.lockoutMs
  {
  }

  // ---- What ends a count ----

  /** Where a window began does not matter while nothing is counted in it. */
  lemma {:induction false} StartDoesNotMatter(p: Pad, q: Pad, limits: Limits, run: seq<Attempt>)
    requires p.failures == 0 == q.failures && p.lockedUntil == q.lockedUntil
    ensures Outcomes(p, limits, run) == Outcomes(q, limits, run)
    decreases |run|
  {
    if run != [] {
      var next, other := Submit(p, limits, run[0]), Submit(q, limits, run[0]);
      if next != other { StartDoesNotMatter(next, other, limits, run[1..]); }
    }
  }

  /** A granted PIN wipes out every failure before it: whatever comes next is answered as by a fresh pad. */
  lemma {:induction false} GrantIsFreshStart(p: Pad, limits: Limits, at: int, run: seq<Attempt>)
    requires !Locked(p, at)
    ensures Outcomes(Submit(p, limits, Attempt(at, true)), limits, run) == Outcomes(FRESH, limits, run)
  {
    StartDoesNotMatter(Submit(p, limits, Attempt(at, true)), FRESH, limits, run);
  }

  /** A pad whose lock is over, or whose window is over, answers as a fresh one. */
  lemma {:induction false} EndIsFreshStart(p: Pad, limits: Limits, run: seq<Attempt>)
    requires Possible(p, limits) && run != [] && !Locked(p, run[0].at)
    requires p.lockedUntil.Some? || run[0].at - p.windowStart > limits.windowMs
    ensures Outcomes(p, limits, run) == Outcomes(FRESH, limits, run)
  {
    var next, other := Submit(p, limits, run[0]), Submit(FRESH, limits, run[0]);
    if next != other { StartDoesNotMatter(next, other, limits, run[1..]); }
  }

  predicate AllWrong(run: seq<Attempt>, windowMs: nat) {
    forall i :: 0 <= i < |run| ==> !run[i].accepted && run[i].at - run[0].at <= windowMs
  }

  /**
   * Wrong PINs that follow a fresh start within one window of the first are counted one by one: all but
   * the last allowed leave the pad open, and the last locks it for the lockout time from then on.
   */
  lemma {:induction false} WrongPinsLock(p: Pad, limits: Limits, run: seq<Attempt>)
    requires p.failures == 0 && p.lockedUntil.None? && run != []
    requires AllWrong(run, limits.windowMs) && |run| <= Needed(limits)
    ensures After(p, limits, run) ==
      if |run| < Needed(limits) then Pad(|run|, run[0].at, None)
      else Pad(0, run[0].at, Some(run[|run| - 1].at + limits.lockoutMs))
  {
    var n := |run| - 1;
    assert run == run[..n] + [run[n]];
    AfterMore(p, limits, run[..n], run[n]);
    if n > 0 {
      WrongPinsLock(p, limits, run[..n]);
    } else {
      assert run[..n] == [];
    }
  }

  lemma {:induction false} AfterMore(p: Pad, limits: Limits, run: seq<Attempt>, a: Attempt)
    ensures After(p, limits, run + [a]) == Submit(After(p, limits, run), limits, a)
    decreases |run|
  {
    if run == [] {
      assert ([] + [a])[1..] == [];
    } else {
      assert (run + [a])[1..] == run[1..] + [a];
      AfterMore(Submit(p, limits, run[0]), limits, run[1..], a);
    }
  }

  function Burst(k: nat, at: int): seq<Attempt> {
    if k == 0 then [] else [Attempt(at, false)] + Burst(k - 1, at)
  }

  lemma {:induction false} BurstIsTimely(k: nat, at: int)
    ensures |Burst(k, at)| == k && forall i :: 0 <= i < k ==> Burst(k, at)[i] == Attempt(at, false)
  {
    if k > 0 { BurstIsTimely(k - 1, at); }
  }

  /** Wrong PINs that stay under the limit and inside the window are all looked at. */
  lemma {:induction false} BurstCounts(p: Pad, limits: Limits, k: nat, at: int, from: int, rest: seq<Attempt>)
    requires p.lockedUntil.None? && p.failures >= 1 && p.failures + k < limits.maxAttempts
    requires at - p.windowStart <= limits.windowMs && InSpan(at, from, limits.windowMs)
    ensures DeniedIn(p, limits, Burst(k, at) + rest, from, limits.windowMs)
         == k + DeniedIn(p.(failures := p.failures + k), limits, rest, from, limits.windowMs)
    decreases k
  {
    if k > 0 {
      var run := Burst(k, at) + rest;
      assert run[0] == Attempt(at, false) && run[1..] == Burst(k - 1, at) + rest;
      BurstCounts(p.(failures := p.failures + 1), limits, k - 1, at, from, rest);
    } else {
      assert Burst(0, at) + rest == rest;
    }
  }

  /** As many wrong PINs as lock the pad, as soon as it is unlocked, until a time comes. */
  function Bursts(limits: Limits, t: int, end: int): seq<Attempt>
    requires limits.lockoutMs >= 1
    decreases end - t
  {
    if t >= end then [] else Burst(Needed(limits), t) + Bursts(limits, t + limits.lockoutMs, end)
  }

  lemma {:induction false} BurstsAreTimely(limits: Limits, t: int, end: int)
    requires limits.lockoutMs >= 1
    ensures var run := Bursts(limits, t, end);
      Timely(run) && forall i :: 0 <= i < |run| ==> t <= run[i].at && !run[i].accepted
    decreases end - t
  {
    if t < end {
      BurstIsTimely(Needed(limits), t);
      BurstsAreTimely(limits, t + limits.lockoutMs, end);
    }
  }

  /** One whole set, on a pad that starts a new window, locks it. */
  lemma SetLocks(p: Pad, limits: Limits, t: int, from: int, rest: seq<Attempt>)
    requires !Locked(p, t) && (p.failures == 0 || t - p.windowStart > limits.windowMs) && InSpan(t, from, limits.windowMs)
    ensures DeniedIn(p, limits, Burst(Needed(limits), t) + rest, from, limits.windowMs)
         == Needed(limits) + DeniedIn(Pad(0, t, Some(t + limits.lockoutMs)), limits, rest, from, limits.windowMs)
  {
    var n, a := Needed(limits), Attempt(t, false);
    var more := Burst(n - 1, t) + rest;
    assert Burst(n, t) + rest == [a] + more;
    FirstOfSet(p, limits, t, from, more);
    if n == 1 {
      assert more == rest;
    } else {
      RestOfSet(limits, t, from, rest);
    }
  }

  lemma FirstOfSet(p: Pad, limits: Limits, t: int, from: int, more: seq<Attempt>)
    requires !Locked(p, t) && (p.failures == 0 || t - p.windowStart > limits.windowMs) && InSpan(t, from, limits.windowMs)
    ensures DeniedIn(p, limits, [Attempt(t, false)] + more, from, limits.windowMs)
         == 1 + DeniedIn(if limits.maxAttempts <= 1 then Pad(0, t, Some(t + limits.lockoutMs)) else Pad(1, t, None), limits, more, from, limits.windowMs)
  {
    assert ([Attempt(t, false)] + more)[1..] == more;
  }

  lemma RestOfSet(limits: Limits, t: int, from: int, rest: seq<Attempt>)
    requires limits.maxAttempts >= 2 && InSpan(t, from, limits.windowMs)
    ensures DeniedIn(Pad(1, t, None), limits, Burst(limits.maxAttempts - 1, t) + rest, from, limits.windowMs)
         == limits.maxAttempts - 1 + DeniedIn(Pad(0, t, Some(t + limits.lockoutMs)), limits, rest, from, limits.windowMs)
  {
    var n, last := limits.maxAttempts, [Attempt(t, false)];
    SplitLast(n - 2, t);
    assert Burst(n - 1, t) + rest == Burst(n - 2, t) + (last + rest);
    BurstCounts(Pad(1, t, None), limits, n - 2, t, from, last + rest);
    LastLocks(limits, t, from, rest);
  }

  lemma LastLocks(limits: Limits, t: int, from: int, rest: seq<Attempt>)
    requires limits.maxAttempts >= 2 && InSpan(t, from, limits.windowMs)
    ensures DeniedIn(Pad(limits.maxAttempts - 1, t, None), limits, [Attempt(t, false)] + rest, from, limits.windowMs)
         == 1 + DeniedIn(Pad(0, t, Some(t + limits.lockoutMs)), limits, rest, from, limits.windowMs)
  {
    assert ([Attempt(t, false)] + rest)[1..] == rest;
  }

  lemma {:induction false} SplitLast(k: nat, t: int)
    ensures Burst(k + 1, t) == Burst(k, t) + [Attempt(t, false)]
  {
    if k > 0 { SplitLast(k - 1, t); }
  }

  lemma {:induction false} BurstsCount(p: Pad, limits: Limits, t: int, from: int)
    requires limits.lockoutMs >= 1 && from <= t && !Locked(p, t)
    requires p.failures == 0 || t - p.windowStart > limits.windowMs
    ensures DeniedIn(p, limits, Bursts(limits, t, from + limits.windowMs), from, limits.windowMs)
         == Room(Needed(limits), from + limits.windowMs - t, limits.lockoutMs)
    decreases from + limits.windowMs - t
  {
    if t < from + limits.windowMs {
      SetLocks(p, limits, t, from, Bursts(limits, t + limits.lockoutMs, from + limits.windowMs));
      BurstsCount(Pad(0, t, Some(t + limits.lockoutMs)), limits, t + limits.lockoutMs, from);
    }
  }

  /** One failure just before a span, most of its window at the start of the span, then whole sets. */
  function Straddling(limits: Limits): seq<Attempt>
    requires limits.lockoutMs >= 1 && limits.maxAttempts >= 2
  {
    var w := limits.windowMs;
    [Attempt(0, false)] + (Burst(limits.maxAttempts - 2, w) + Bursts(limits, w + 1, w + w))
  }

  /** The run that reaches the bound in the span of one window that starts a window's length after zero. */
  function Worst(limits: Limits): seq<Attempt>
    requires limits.lockoutMs >= 1
  {
    var n, w, l := Needed(limits), limits.windowMs, limits.lockoutMs;
    if w == 0 || Room(n, w, l) >= n - 2 + Room(n, w - 1, l) || n == 1 then Bursts(limits, w, w + w) else Straddling(limits)
  }

  lemma WorstIsTimely(limits: Limits)
    requires limits.lockoutMs >= 1
    ensures Timely(Worst(limits)) && NoGrantIn(FRESH, limits, Worst(limits), limits.windowMs, limits.windowMs)
  {
    var w := limits.windowMs;
    BurstsAreTimely(limits, w, w + w);
    if limits.maxAttempts >= 2 { StraddlingIsTimely(limits); }
    NeverAccepted(FRESH, limits, Worst(limits));
  }

  lemma StraddlingIsTimely(limits: Limits)
    requires limits.lockoutMs >= 1 && limits.maxAttempts >= 2
    ensures var run := Straddling(limits); Timely(run) && forall i :: 0 <= i < |run| ==> !run[i].accepted
  {
    var w := limits.windowMs;
    BurstIsTimely(limits.maxAttempts - 2, w);
    BurstsAreTimely(limits, w + 1, w + w);
    JoinedTimely(Burst(limits.maxAttempts - 2, w), Bursts(limits, w + 1, w + w), w, w);
    JoinedTimely([Attempt(0, false)], Burst(limits.maxAttempts - 2, w) + Bursts(limits, w + 1, w + w), 0, w);
  }

  /** Wrong PINs up to some time, then wrong PINs from there on. */
  lemma JoinedTimely(a: seq<Attempt>, b: seq<Attempt>, from: int, middle: int)
    requires Timely(a) && Timely(b)
    requires forall i :: 0 <= i < |a| ==> from <= a[i].at <= middle && !a[i].accepted
    requires forall i :: 0 <= i < |b| ==> middle <= b[i].at && !b[i].accepted
    requires from <= middle
    ensures Timely(a + b) && forall i :: 0 <= i < |a + b| ==> from <= (a + b)[i].at && !(a + b)[i].accepted
  {
  }

  lemma StraddlingCounts(limits: Limits)
    requires limits.lockoutMs >= 1 && limits.maxAttempts >= 2 && limits.windowMs >= 1
    ensures DeniedIn(FRESH, limits, Straddling(limits), limits.windowMs, limits.windowMs)
         == limits.maxAttempts - 2 + Room(limits.maxAttempts, limits.windowMs - 1, limits.lockoutMs)
  {
    var w, n := limits.windowMs, limits.maxAttempts;
    var late := Bursts(limits, w + 1, w + w);
    assert Straddling(limits)[1..] == Burst(n - 2, w) + late;
    BurstCounts(Pad(1, 0, None), limits, n - 2, w, w, late);
    BurstsCount(Pad(n - 1, 0, None), limits, w + 1, w);
  }

  /** The bound is reached, whatever the limits: a window starts at its first failure and does not slide. */
  lemma BoundIsReached(limits: Limits)
    requires limits.lockoutMs >= 1
    ensures Timely(Worst(limits)) && NoGrantIn(FRESH, limits, Worst(limits), limits.windowMs, limits.windowMs)
    ensures DeniedIn(FRESH, limits, Worst(limits), limits.windowMs, limits.windowMs) == Bound(limits)
  {
    var n, w, l := Needed(limits), limits.windowMs, limits.lockoutMs;
    WorstIsTimely(limits);
    if w == 0 || Room(n, w, l) >= n - 2 + Room(n, w - 1, l) || n == 1 {
      BurstsCount(FRESH, limits, w, w);
      if w > 0 { RoomGrows(n, w - 1, w, l); }
    } else {
      StraddlingCounts(limits);
    }
  }

  lemma {:induction false} NeverAccepted(p: Pad, limits: Limits, run: seq<Attempt>)
    requires forall i :: 0 <= i < |run| ==> !run[i].accepted
    ensures Granted !in Outcomes(p, limits, run)
    decreases |run|
  {
    if run != [] {
      NeverAccepted(Submit(p, limits, run[0]), limits, run[1..]);
    }
  }
}
