/** Runs of the Pi's refreshes, overlapping and restarting, as runs against the server's journal. */
module RefreshRuns {
  import opened Base
  import opened Cards
  import opened Refresh
  import Journal

  /** The Pi: its cache, its disk, and the time each refresh under way has asked from (None: everything). */
  datatype Pi = Pi(cards: Store, since: Option<int>, ready: bool, disk: Option<Saved>, flights: map<int, Option<int>>)

  const FRESH := Pi(map[], None, false, None, map[])

  /** What happens, at the server or at the Pi. A finished refresh has its pages, what they came to, and how it ended. */
  datatype Event =
    | Committed(change: Journal.Change)
    | Asked(id: int)
    | Finished(id: int, pages: seq<Page>, outcome: Outcome, position: nat, now: int, written: bool, ok: bool, dropped: nat)
    | Restarted

  ghost predicate PiStep(capacity: nat, a: Pi, e: Event, b: Pi) {
    match e
    case Committed(_) => b == a
    case Asked(id) => id !in a.flights && b == a.(flights := a.flights[id := Asking(a.ready, a.since)])
    case Finished(id, pages, outcome, _, now, written, ok, dropped) =>
      && id in a.flights && b.flights == a.flights - {id}
      && |pages| >= MAX_PAGES && Reads(pages, a.flights[id].None?, outcome)
      && SyncedAs(a.flights[id].None?, outcome, capacity, now, written, a.cards, a.since, a.ready, a.disk,
                  ok, dropped, b.cards, b.since, b.ready, b.disk)
    case Restarted => b.disk == a.disk && b.flights == map[] && Started(a.disk, b.cards, b.since, b.ready)
  }

  /** The answer that complete pages amount to. */
  function AsResponse(outcome: Outcome, position: nat): Journal.Response
    requires outcome.Whole?
  {
    Journal.Response(position, outcome.serverTime, KeysOf(outcome.items), RemovedKeys(outcome.removes))
  }

  /** The journal's step that an event of the Pi is. */
  function StepOf(a: Pi, e: Event, b: Pi): Journal.Step {
    match e
    case Committed(change) => Journal.Commit(change)
    case Asked(id) => Journal.Ask(id)
    case Finished(id, _, outcome, position, _, _, ok, _) =>
      if ok && outcome.Whole? then Journal.Land(id, AsResponse(outcome, position), b.disk != a.disk)
      else if outcome.Oversized? then Journal.TooLarge(id)
      else Journal.Fail(id)
    case Restarted => Journal.Restart
  }

  function Seen(disk: Option<Saved>): Option<Journal.Saved> {
    if disk.None? then None else Some(Journal.Saved(disk.value.cards.Keys, disk.value.since))
  }

  /** The gate in the world is the Pi, its cards without their end times. */
  ghost predicate Shows(w: Journal.World, a: Pi) {
    && w.cards == a.cards.Keys && w.since == a.since && w.ready == a.ready && w.disk == Seen(a.disk)
    && w.flights.Keys == a.flights.Keys && forall id :: id in a.flights ==> w.flights[id].asked == a.flights[id]
  }

  // ---- One step ----

  /** A delta that fits leaves the cards that the journal's landing does. */
  lemma DeltaLands(before: Store, outcome: Outcome, capacity: nat, after: Store, asked: Option<int>, position: nat)
    requires outcome.Whole? && asked.Some? && IsCapped(before, RemovedKeys(outcome.removes), outcome.items, capacity, after)
    requires |Journal.Merge(before.Keys, asked, AsResponse(outcome, position))| <= capacity
    ensures after.Keys == Journal.Merge(before.Keys, asked, AsResponse(outcome, position))
  {
    CappedFits(before, RemovedKeys(outcome.removes), outcome.items, capacity, after);
  }

  /** What a refresh that succeeds does to what the journal sees of the Pi. */
  ghost predicate LandsAs(a: Pi, b: Pi, asked: Option<int>, r: Journal.Response) {
    && b.cards.Keys == Journal.Merge(a.cards.Keys, asked, r)
    && b.since == Some(r.time - Journal.OVERLAP) && b.ready == (a.ready || asked.None?)
    && (b.disk == a.disk || b.disk == Some(Saved(b.cards, a.since)))
  }

  /** What is left to show once the cards are known. */
  lemma SyncedRest(outcome: Outcome, capacity: nat, now: int, written: bool, a: Pi, b: Pi, full: bool, dropped: nat)
    requires SyncedAs(full, outcome, capacity, now, written, a.cards, a.since, a.ready, a.disk,
                      true, dropped, b.cards, b.since, b.ready, b.disk)
    ensures outcome.Whole? && b.since == NextSince(outcome.serverTime, now) && b.ready == (full || a.ready)
    ensures b.disk == a.disk || b.disk == Some(Saved(b.cards, a.since))
    ensures full ==> IsSnapshot(b.cards, outcome.items)
    ensures !full ==> IsCapped(a.cards, RemovedKeys(outcome.removes), outcome.items, capacity, b.cards)
  {
  }

  lemma SyncedLands(outcome: Outcome, capacity: nat, now: int, written: bool, a: Pi, b: Pi, asked: Option<int>, dropped: nat, position: nat,
                    r: Journal.Response)
    requires SyncedAs(asked.None?, outcome, capacity, now, written, a.cards, a.since, a.ready, a.disk,
                      true, dropped, b.cards, b.since, b.ready, b.disk)
    requires r == AsResponse(outcome, position) && r.time >= Journal.OVERLAP && |Journal.Merge(a.cards.Keys, asked, r)| <= capacity
    ensures LandsAs(a, b, asked, r)
  {
    SyncedRest(outcome, capacity, now, written, a, b, asked.None?, dropped);
    AllLands(outcome, capacity, now, a, b, asked, position, r);
  }

  lemma AllLands(outcome: Outcome, capacity: nat, now: int, a: Pi, b: Pi, asked: Option<int>, position: nat, r: Journal.Response)
    requires outcome.Whole? && b.since == NextSince(outcome.serverTime, now) && b.ready == (asked.None? || a.ready)
    requires b.disk == a.disk || b.disk == Some(Saved(b.cards, a.since))
    requires asked.None? ==> IsSnapshot(b.cards, outcome.items)
    requires asked.Some? ==> IsCapped(a.cards, RemovedKeys(outcome.removes), outcome.items, capacity, b.cards)
    requires r == AsResponse(outcome, position) && r.time >= Journal.OVERLAP && |Journal.Merge(a.cards.Keys, asked, r)| <= capacity
    ensures LandsAs(a, b, asked, r)
  {
    if asked.Some? {
      DeltaLands(a.cards, outcome, capacity, b.cards, asked, position);
    } else {
      FullLands(outcome, b.cards, a.cards.Keys, position);
    }
    TimeLands(r.time, now);
  }

  lemma FullLands(outcome: Outcome, after: Store, before: set<string>, position: nat)
    requires outcome.Whole? && IsSnapshot(after, outcome.items)
    ensures after.Keys == Journal.Merge(before, None, AsResponse(outcome, position))
  {
  }

  lemma TimeLands(serverTime: int, now: int)
    requires serverTime >= Journal.OVERLAP
    ensures NextSince(serverTime, now) == Some(serverTime - Journal.OVERLAP)
  {
  }

  lemma ShowsLanded(w: Journal.World, a: Pi, b: Pi, id: int, r: Journal.Response)
    requires Shows(w, a) && id in a.flights && b.flights == a.flights - {id} && LandsAs(a, b, a.flights[id], r)
    ensures Shows(Journal.Landed(w, id, r, b.disk != a.disk), b)
  {
  }

  lemma StepIsLanding(w: Journal.World, a: Pi, e: Event, b: Pi)
    requires e.Finished? && e.ok && e.outcome.Whole? && e.id in w.flights
    ensures Journal.Do(w, StepOf(a, e, b)) == Journal.Landed(w, e.id, AsResponse(e.outcome, e.position), b.disk != a.disk)
  {
  }

  /** A refresh whose pages answer the server's promise, and whose cards fit, lands as the journal's. */
  lemma FinishRefines(capacity: nat, w: Journal.World, a: Pi, e: Event, b: Pi)
    requires Shows(w, a) && PiStep(capacity, a, e, b) && e.Finished? && e.ok && Journal.Legal(w, StepOf(a, e, b))
    requires |Journal.Do(w, StepOf(a, e, b)).cards| <= capacity
    ensures Shows(Journal.Do(w, StepOf(a, e, b)), b)
  {
    StepIsLanding(w, a, e, b);
    SyncedLands(e.outcome, capacity, e.now, e.written, a, b, a.flights[e.id], e.dropped, e.position, AsResponse(e.outcome, e.position));
    ShowsLanded(w, a, b, e.id, AsResponse(e.outcome, e.position));
  }

  /** Every step of the Pi is a step of the journal's world. */
  lemma StepRefines(capacity: nat, w: Journal.World, a: Pi, e: Event, b: Pi)
    requires Shows(w, a) && PiStep(capacity, a, e, b) && Journal.Legal(w, StepOf(a, e, b))
    requires |Journal.Do(w, StepOf(a, e, b)).cards| <= capacity
    ensures Shows(Journal.Do(w, StepOf(a, e, b)), b)
  {
    match e
    case Finished(id, _, _, _, _, _, ok, _) =>
      if ok { FinishRefines(capacity, w, a, e, b); }
    case _ =>
  }

  // ---- Every run ----

  /** A run of the Pi against a server that keeps its promise, with an estate whose cards always fit. */
  ghost predicate PiRun(capacity: nat, w: Journal.World, states: seq<Pi>, events: seq<Event>)
    decreases |events|
  {
    && |states| == |events| + 1
    && (events != [] ==>
          var step := StepOf(states[0], events[0], states[1]);
          && PiStep(capacity, states[0], events[0], states[1]) && Journal.Legal(w, step)
          && |Journal.Do(w, step).cards| <= capacity
          && PiRun(capacity, Journal.Do(w, step), states[1..], events[1..]))
  }

  function StepsOf(states: seq<Pi>, events: seq<Event>): seq<Journal.Step>
    requires |states| == |events| + 1
    decreases |events|
  {
    if events == [] then [] else [StepOf(states[0], events[0], states[1])] + StepsOf(states[1..], events[1..])
  }

  /** Every run of the Pi is a run of the journal's world. */
  lemma {:induction false} RunRefines(capacity: nat, w: Journal.World, states: seq<Pi>, events: seq<Event>)
    requires PiRun(capacity, w, states, events) && Shows(w, states[0])
    ensures Shows(Journal.Run(w, StepsOf(states, events)), states[|events|])
    decreases |events|
  {
    if events != [] {
      var step := StepOf(states[0], events[0], states[1]);
      StepRefines(capacity, w, states[0], events[0], states[1]);
      RunRefines(capacity, Journal.Do(w, step), states[1..], events[1..]);
      assert StepsOf(states, events)[1..] == StepsOf(states[1..], events[1..]);
    }
  }

  /**
   * Over every run of the Pi from its first start in which refreshes land in order, however they
   * overlap, fail at any page or are cut off by restarts: its cards and its snapshot on disk are right
   * up to what it will ask for next.
   */
  lemma PiRunsAreSound(capacity: nat, states: seq<Pi>, events: seq<Event>)
    requires PiRun(capacity, Journal.START, states, events) && states[0] == FRESH
    requires Journal.LegalRun(Journal.START, StepsOf(states, events))
    ensures var w := Journal.Run(Journal.START, StepsOf(states, events));
      Shows(w, states[|events|]) && Journal.Sound(w)
  {
    RunRefines(capacity, Journal.START, states, events);
    Journal.StartIsSound();
    Journal.EveryRunIsSound(Journal.START, StepsOf(states, events));
  }

  /** The Pi in state `a` finishes a refresh that had the server to itself, and the cards fit. */
  ghost predicate Finishes(capacity: nat, w: Journal.World, a: Pi, e: Event, b: Pi) {
    && PiStep(capacity, a, e, b) && e.Finished? && e.ok
    && Journal.SerialStep(w, StepOf(a, e, b)) && |Journal.Do(w, StepOf(a, e, b)).cards| <= capacity
  }

  /** Over every run of the Pi whose refreshes do not overlap, each that succeeds leaves exactly the cards active when it was answered. */
  lemma PiRefreshIsExact(capacity: nat, states: seq<Pi>, events: seq<Event>, w: Journal.World, e: Event, b: Pi)
    requires PiRun(capacity, Journal.START, states, events) && states[0] == FRESH
    requires Journal.SerialRun(Journal.START, StepsOf(states, events)) && w == Journal.Run(Journal.START, StepsOf(states, events))
    requires Finishes(capacity, w, states[|events|], e, b)
    ensures e.position <= |w.journal| && b.cards.Keys == Journal.Active(w.journal[..e.position])
  {
    RunRefines(capacity, Journal.START, states, events);
    FinishIsExact(capacity, StepsOf(states, events), w, states[|events|], e, b);
  }

  lemma FinishIsExact(capacity: nat, steps: seq<Journal.Step>, w: Journal.World, a: Pi, e: Event, b: Pi)
    requires Journal.SerialRun(Journal.START, steps) && w == Journal.Run(Journal.START, steps)
    requires Shows(w, a) && Finishes(capacity, w, a, e, b)
    ensures e.position <= |w.journal| && b.cards.Keys == Journal.Active(w.journal[..e.position])
  {
    FinishRefines(capacity, w, a, e, b);
    Journal.SerialRefreshIsExact(steps, e.id, AsResponse(e.outcome, e.position), b.disk != a.disk);
  }
}
