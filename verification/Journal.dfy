/** Snapshot refreshes against a server that keeps a journal of which cards are active. */
module Journal {
  import opened Base

  /** Seconds by which each refresh asks again for what the one before already had. */
  const OVERLAP: int := 120

  datatype Change = Change(time: int, key: string, active: bool)

  function Active(journal: seq<Change>): set<string> {
    if journal == [] then {}
    else
      var front, last := Active(journal[..|journal| - 1]), journal[|journal| - 1];
      if last.active then front + {last.key} else front - {last.key}
  }

  ghost predicate Changed(journal: seq<Change>, key: string, since: int) {
    exists i :: 0 <= i < |journal| && journal[i].key == key && journal[i].time > since
  }

  /** A complete answer: the state of the journal at `position`, under the server time of its first page. */
  datatype Response = Response(position: nat, time: int, items: set<string>, removed: set<string>)

  /** What the server promises: a full answer is the active set, a delta covers every change since it was asked for. */
  ghost predicate Answers(journal: seq<Change>, asked: Option<int>, r: Response) {
    && r.position <= |journal| && r.time >= OVERLAP
    && var active := Active(journal[..r.position]);
    && r.items <= active && r.removed * active <= r.items
    && (asked.None? ==> r.items == active)
    && (asked.Some? ==> forall k :: Changed(journal[..r.position], k, asked.value) ==> (if k in active then k in r.items else k in r.removed))
    && (forall i :: r.position <= i < |journal| ==> journal[i].time > r.time - OVERLAP)
  }

  datatype Saved = Saved(cards: set<string>, since: Option<int>)

  /** A refresh on its way: the time it asked from (None: everything), and how long the journal was then. */
  datatype Flight = Flight(asked: Option<int>, position: nat)

  /**
   * The server's journal and the gate: its cards, the time it will ask from next, the refreshes in
   * flight, and the snapshot on disk. Kept for the proofs: `base`, the time from which the cards in
   * force need no more changes (it survives a delta that was too large, which forgets `since`),
   * `latest`, the newest server time that has landed, `known`, the newest journal position that has,
   * and `savedAt`, the server time of the refresh that the snapshot on disk came from.
   */
  datatype World = World(journal: seq<Change>, cards: set<string>, since: Option<int>, ready: bool,
                         flights: map<int, Flight>, disk: Option<Saved>,
                         base: Option<int>, latest: int, known: nat, savedAt: int)

  const START := World([], {}, None, false, map[], None, None, 0, 0, 0)

  datatype Step =
    | Commit(change: Change)
    | Ask(id: int)
    | Fail(id: int)
    | TooLarge(id: int)
    | Land(id: int, answer: Response, saved: bool)
    | Restart

  function Later(a: int, b: int): int {
    if a < b then b else a
  }

  function Merge(cards: set<string>, asked: Option<int>, r: Response): set<string> {
    if asked.None? then r.items else (cards - r.removed) + r.items
  }

  /** A refresh that lands. The snapshot is written before the new time is adopted, so it carries the old one. */
  function Landed(w: World, id: int, r: Response, saved: bool): World
    requires id in w.flights
  {
    var cards := Merge(w.cards, w.flights[id].asked, r);
    World(w.journal, cards, Some(r.time - OVERLAP), w.ready || w.flights[id].asked.None?, w.flights - {id},
          if saved then Some(Saved(cards, w.since)) else w.disk,
          Some(r.time - OVERLAP), Later(w.latest, r.time), if w.known < r.position then r.position else w.known,
          if saved then r.time else w.savedAt)
  }

  function Do(w: World, step: Step): World {
    match step
    case Commit(change) => w.(journal := w.journal + [change])
    case Ask(id) =>
      if id in w.flights then w
      else w.(flights := w.flights[id := Flight(if w.ready then w.since else None, |w.journal|)])
    case Fail(id) => w.(flights := w.flights - {id})
    case TooLarge(id) =>
      if id in w.flights && w.flights[id].asked.Some? then w.(flights := w.flights - {id}, since := None) else w
    case Land(id, r, saved) => if id in w.flights then Landed(w, id, r, saved) else w
    case Restart =>
      if w.disk.None? then w.(cards := {}, since := None, ready := false, flights := map[], base := None)
      else w.(cards := w.disk.value.cards, since := w.disk.value.since, ready := true, flights := map[], base := w.disk.value.since)
  }

  function Run(w: World, steps: seq<Step>): World
    decreases |steps|
  {
    if steps == [] then w else Run(Do(w, steps[0]), steps[1..])
  }

  /**
   * What is assumed of the server: changes reach the journal at most the overlap late, and answers
   * keep their promise and are taken after they were asked for.
   */
  ghost predicate Legal(w: World, step: Step) {
    match step
    case Commit(change) => change.time > w.latest - OVERLAP
    case Land(id, r, _) => id in w.flights ==> Answers(w.journal, w.flights[id].asked, r) && w.flights[id].position <= r.position
    case _ => true
  }

  /**
   * A refresh lands in order when a delta reaches back to what the cards in force still need, or takes
   * the gate back to a time before that, and when a snapshot is not saved with a later time than its own.
   */
  predicate InOrder(asked: Option<int>, since: Option<int>, base: Option<int>, time: int, saved: bool) {
    && (asked.Some? ==> base.Some? && (asked.value <= base.value || time - OVERLAP <= base.value))
    && (saved && since.Some? ==> since.value <= time - OVERLAP)
  }

  predicate Ordered(w: World, step: Step) {
    step.Land? && step.id in w.flights ==>
      InOrder(w.flights[step.id].asked, w.since, w.base, step.answer.time, step.saved)
  }

  ghost predicate LegalRun(w: World, steps: seq<Step>)
    decreases |steps|
  {
    steps == [] || (Legal(w, steps[0]) && Ordered(w, steps[0]) && LegalRun(Do(w, steps[0]), steps[1..]))
  }

  // ---- What stays true ----

  /** After position `q`, the key has only changes later than `since`. */
  ghost predicate QuietUntil(journal: seq<Change>, key: string, since: int, q: nat) {
    forall i :: q <= i < |journal| && journal[i].key == key ==> journal[i].time > since
  }

  /** The cards are right about a key as of some position that a refresh from `since` looks back over. */
  ghost predicate KeyRight(journal: seq<Change>, cards: set<string>, since: int, known: nat, key: string) {
    exists q: nat :: q <= known && q <= |journal| && QuietUntil(journal, key, since, q) && (key in cards <==> key in Active(journal[..q]))
  }

  ghost predicate Right(journal: seq<Change>, cards: set<string>, since: Option<int>, known: nat) {
    since.Some? ==> forall key :: KeyRight(journal, cards, since.value, known, key)
  }

  ghost predicate DiskSound(w: World) {
    w.disk.Some? ==>
      && Right(w.journal, w.disk.value.cards, w.disk.value.since, w.known)
      && (w.disk.value.since.Some? ==> w.disk.value.since.value <= w.savedAt - OVERLAP)
      && w.savedAt <= w.latest
  }

  /**
   * The cards are right up to what the next delta asks for, so is the snapshot on disk, and the time
   * saved with it is never later than the refresh that produced its cards.
   */
  ghost predicate Sound(w: World) {
    && w.known <= |w.journal|
    && Right(w.journal, w.cards, w.base, w.known)
    && (w.since.Some? ==> w.since == w.base)
    && (w.base.Some? ==> w.base.value <= w.latest - OVERLAP)
    && DiskSound(w)
  }

  lemma CommitKeepsRight(journal: seq<Change>, change: Change, cards: set<string>, since: Option<int>, known: nat)
    requires Right(journal, cards, since, known) && (since.Some? ==> change.time > since.value)
    ensures Right(journal + [change], cards, since, known)
  {
    if since.Some? {
      var more := journal + [change];
      forall key ensures KeyRight(more, cards, since.value, known, key) {
        assert KeyRight(journal, cards, since.value, known, key);
        var q: nat :| q <= known && q <= |journal| && QuietUntil(journal, key, since.value, q)
                      && (key in cards <==> key in Active(journal[..q]));
        assert more[..q] == journal[..q];
        assert QuietUntil(more, key, since.value, q);
      }
    }
  }

  /** A key that nothing has touched between two positions is as active at one as at the other. */
  lemma {:induction false} UntouchedStays(journal: seq<Change>, a: nat, b: nat, key: string)
    requires a <= b <= |journal| && forall i :: a <= i < b ==> journal[i].key != key
    ensures key in Active(journal[..a]) <==> key in Active(journal[..b])
    decreases b - a
  {
    if a < b {
      UntouchedStays(journal, a, b - 1, key);
      assert journal[..b][..b - 1] == journal[..b - 1];
    }
  }

  /** A delta that reaches back far enough puts every key right, old or new, as of its own position or a later one. */
  lemma DeltaMakesRight(journal: seq<Change>, cards: set<string>, base: int, known: nat, asked: int, r: Response, key: string)
    requires KeyRight(journal, cards, base, known, key) && Answers(journal, Some(asked), r) && asked <= base
    ensures exists q: nat :: (q <= |journal| && (q == r.position || r.position < q <= known)
                              && QuietUntil(journal, key, r.time - OVERLAP, q)
                              && (key in Merge(cards, Some(asked), r) <==> key in Active(journal[..q])))
  {
    var p := r.position;
    var q: nat :| q <= known && q <= |journal| && QuietUntil(journal, key, base, q) && (key in cards <==> key in Active(journal[..q]));
    assert QuietUntil(journal, key, r.time - OVERLAP, p);
    if Changed(journal[..p], key, asked) || key in r.items || key in r.removed {
      assert key in Merge(cards, Some(asked), r) <==> key in Active(journal[..p]);
    } else {
      assert key in Merge(cards, Some(asked), r) <==> key in cards;
      if q <= p {
        forall i | q <= i < p ensures journal[i].key != key {
          assert journal[..p][i] == journal[i];
        }
        UntouchedStays(journal, q, p, key);
      } else {
        assert QuietUntil(journal, key, r.time - OVERLAP, q);
      }
    }
  }

  /** A delta whose own time is old enough leaves every key right, whatever it asked for. */
  lemma OldDeltaKeepsRight(journal: seq<Change>, cards: set<string>, base: int, known: nat, asked: int, r: Response, key: string)
    requires KeyRight(journal, cards, base, known, key) && Answers(journal, Some(asked), r) && r.time - OVERLAP <= base
    ensures KeyRight(journal, Merge(cards, Some(asked), r), r.time - OVERLAP, if known < r.position then r.position else known, key)
  {
    var q: nat :| q <= known && q <= |journal| && QuietUntil(journal, key, base, q) && (key in cards <==> key in Active(journal[..q]));
    if key in r.items || key in r.removed {
      assert QuietUntil(journal, key, r.time - OVERLAP, r.position);
    } else {
      assert QuietUntil(journal, key, r.time - OVERLAP, q);
    }
  }

  lemma LandMakesRight(w: World, id: int, r: Response, saved: bool)
    requires Sound(w) && id in w.flights && Legal(w, Land(id, r, saved)) && Ordered(w, Land(id, r, saved))
    ensures Right(w.journal, Landed(w, id, r, saved).cards, Some(r.time - OVERLAP), Landed(w, id, r, saved).known)
  {
    var asked := w.flights[id].asked;
    var t := Landed(w, id, r, saved);
    var cards, since, known := t.cards, r.time - OVERLAP, t.known;
    forall key ensures KeyRight(w.journal, cards, since, known, key) {
      if asked.None? {
        assert QuietUntil(w.journal, key, r.time - OVERLAP, r.position);
      } else if asked.value <= w.base.value {
        DeltaMakesRight(w.journal, w.cards, w.base.value, w.known, asked.value, r, key);
      } else {
        OldDeltaKeepsRight(w.journal, w.cards, w.base.value, w.known, asked.value, r, key);
      }
    }
  }

  lemma RightForEarlier(journal: seq<Change>, cards: set<string>, since: int, earlier: Option<int>, known: nat, more: nat)
    requires Right(journal, cards, Some(since), known) && known <= more && (earlier.Some? ==> earlier.value <= since)
    ensures Right(journal, cards, earlier, more)
  {
    if earlier.Some? {
      forall key ensures KeyRight(journal, cards, earlier.value, more, key) {
        assert KeyRight(journal, cards, since, known, key);
        var q: nat :| q <= known && q <= |journal| && QuietUntil(journal, key, since, q) && (key in cards <==> key in Active(journal[..q]));
        assert QuietUntil(journal, key, earlier.value, q);
      }
    }
  }

  lemma LandKeepsSound(w: World, id: int, r: Response, saved: bool)
    requires Sound(w) && id in w.flights && Legal(w, Land(id, r, saved)) && Ordered(w, Land(id, r, saved))
    ensures Sound(Landed(w, id, r, saved))
  {
    var t := Landed(w, id, r, saved);
    LandMakesRight(w, id, r, saved);
    if saved {
      RightForEarlier(w.journal, t.cards, r.time - OVERLAP, w.since, t.known, t.known);
    } else if w.disk.Some? && w.disk.value.since.Some? {
      RightForEarlier(w.journal, w.disk.value.cards, w.disk.value.since.value, w.disk.value.since, w.known, t.known);
    }
  }

  lemma StepKeepsSound(w: World, step: Step)
    requires Sound(w) && Legal(w, step) && Ordered(w, step)
    ensures Sound(Do(w, step))
  {
    match step
    case Commit(change) =>
      CommitKeepsRight(w.journal, change, w.cards, w.base, w.known);
      if w.disk.Some? { CommitKeepsRight(w.journal, change, w.disk.value.cards, w.disk.value.since, w.known); }
    case Land(id, r, saved) =>
      if id in w.flights { LandKeepsSound(w, id, r, saved); }
    case _ =>
  }

  // ---- Every run ----

  /**
   * Over every run of commits, refreshes that fail or land, and restarts: the cards and the snapshot
   * on disk are right up to what the next refresh asks for, and the time saved with a snapshot is
   * never later than the refresh that produced its cards.
   */
  lemma {:induction false} EveryRunIsSound(w: World, steps: seq<Step>)
    requires Sound(w) && LegalRun(w, steps)
    ensures Sound(Run(w, steps))
    decreases |steps|
  {
    if steps != [] {
      StepKeepsSound(w, steps[0]);
      EveryRunIsSound(Do(w, steps[0]), steps[1..]);
    }
  }

  lemma StartIsSound()
    ensures Sound(START)
  {
  }

  /** A refresh that reaches back far enough and is no older than what has landed leaves exactly the cards active when it was answered. */
  lemma LandingIsExact(w: World, id: int, r: Response, saved: bool)
    requires Sound(w) && id in w.flights && Legal(w, Land(id, r, saved)) && w.known <= r.position
    requires w.flights[id].asked.Some? ==> w.base.Some? && w.flights[id].asked.value <= w.base.value
    ensures Landed(w, id, r, saved).cards == Active(w.journal[..r.position])
  {
    var asked := w.flights[id].asked;
    if asked.Some? {
      forall key ensures key in Merge(w.cards, asked, r) <==> key in Active(w.journal[..r.position]) {
        DeltaMakesRight(w.journal, w.cards, w.base.value, w.known, asked.value, r, key);
      }
    }
  }

  // ---- Runs in which refreshes do not overlap ----

  /** What a refresh asks for and answers when it has the server to itself and server time does not run back. */
  ghost predicate SerialStep(w: World, step: Step) {
    && Legal(w, step)
    && (step.Ask? ==> w.flights == map[])
    && (step.Land? ==> w.latest <= step.answer.time)
  }

  ghost predicate SerialRun(w: World, steps: seq<Step>)
    decreases |steps|
  {
    steps == [] || (SerialStep(w, steps[0]) && SerialRun(Do(w, steps[0]), steps[1..]))
  }

  /** At most one refresh is in flight, and nothing has landed since it asked. */
  ghost predicate Alone(w: World) {
    && (forall a, b :: a in w.flights && b in w.flights ==> a == b)
    && forall id :: id in w.flights ==>
         && w.flights[id].asked == (if w.ready then w.since else None)
         && w.known <= w.flights[id].position
  }

  lemma SerialIsOrdered(w: World, step: Step)
    requires Sound(w) && Alone(w) && SerialStep(w, step)
    ensures Ordered(w, step)
  {
  }

  lemma SerialStaysAlone(w: World, step: Step)
    requires Sound(w) && Alone(w) && SerialStep(w, step)
    ensures Alone(Do(w, step))
  {
  }

  lemma {:induction false} SerialRunsAreSound(w: World, steps: seq<Step>)
    requires Sound(w) && Alone(w) && SerialRun(w, steps)
    ensures Sound(Run(w, steps)) && Alone(Run(w, steps)) && LegalRun(w, steps)
    decreases |steps|
  {
    if steps != [] {
      SerialIsOrdered(w, steps[0]);
      StepKeepsSound(w, steps[0]);
      SerialStaysAlone(w, steps[0]);
      SerialRunsAreSound(Do(w, steps[0]), steps[1..]);
    }
  }

  /** In every run whose refreshes do not overlap, each refresh that lands leaves exactly the cards active when it was answered. */
  lemma SerialRefreshIsExact(steps: seq<Step>, id: int, r: Response, saved: bool)
    requires SerialRun(START, steps)
    requires var w := Run(START, steps); id in w.flights && SerialStep(w, Land(id, r, saved))
    ensures var w := Run(START, steps); Do(w, Land(id, r, saved)).cards == Active(w.journal[..r.position])
  {
    StartIsSound();
    SerialRunsAreSound(START, steps);
    LandingIsExact(Run(START, steps), id, r, saved);
  }

  // ---- Order is needed ----

  /** No landing of a refresh with these times can spoil a sound world. */
  ghost predicate SafeLanding(asked: Option<int>, since: Option<int>, base: Option<int>, time: int, saved: bool) {
    forall w: World, id: int, r: Response ::
      Lands(w, id, r, asked, since, base, time, saved) ==> Sound(Landed(w, id, r, saved))
  }

  ghost predicate Lands(w: World, id: int, r: Response, asked: Option<int>, since: Option<int>, base: Option<int>, time: int, saved: bool) {
    && Sound(w) && id in w.flights && Legal(w, Land(id, r, saved))
    && w.flights[id].asked == asked && w.since == since && w.base == base && r.time == time
  }

  /** A card that is issued and revoked at the same time. */
  function IssuedAndRevoked(time: int): seq<Change> {
    [Change(time, "7", true), Change(time, "7", false)]
  }

  lemma RevokedIsInactive(time: int)
    ensures var journal := IssuedAndRevoked(time);
      Active(journal[..0]) == {} && Active(journal[..1]) == {"7"} && Active(journal[..2]) == {}
  {
    var journal := IssuedAndRevoked(time);
    assert journal[..1] == [journal[0]] && journal[..1][..0] == [] && journal[..2][..1] == [journal[0]];
  }

  /** Revoked no later than the next delta looks back, the card must not be held. */
  lemma HeldIsWrong(time: int, cards: set<string>, since: int, known: nat)
    requires "7" in cards && time <= since
    ensures !Right(IssuedAndRevoked(time), cards, Some(since), known)
  {
    var journal := IssuedAndRevoked(time);
    RevokedIsInactive(time);
    forall q: nat | q <= 2 && QuietUntil(journal, "7", since, q) ensures q == 2 {
      assert journal[1].key == "7";
    }
    assert !KeyRight(journal, cards, since, known, "7");
  }

  lemma UnheldIsRight(time: int, since: int)
    ensures Right(IssuedAndRevoked(time), {}, Some(since), 2)
  {
    var journal := IssuedAndRevoked(time);
    RevokedIsInactive(time);
    forall key ensures KeyRight(journal, {}, since, 2, key) {
      assert QuietUntil(journal, key, since, 2);
    }
  }

  /** Revoked later than the next delta looks back, the card may still be held. */
  lemma HeldIsRight(time: int, since: int)
    requires since < time
    ensures Right(IssuedAndRevoked(time), {"7"}, Some(since), 1)
  {
    var journal := IssuedAndRevoked(time);
    RevokedIsInactive(time);
    forall key ensures KeyRight(journal, {"7"}, since, 1, key) {
      assert QuietUntil(journal, key, since, 1);
    }
  }

  /** Saved with a later time than its own, a snapshot can hold a revoked card. */
  lemma SavedTooLate(asked: Option<int>, since: int, time: int)
    requires time >= OVERLAP && since > time - OVERLAP
    ensures !SafeLanding(asked, Some(since), Some(since), time, true)
  {
    var journal := IssuedAndRevoked(since);
    var w := World(journal, {}, Some(since), true, map[1 := Flight(asked, 0)], None, Some(since), since + OVERLAP, 2, 0);
    var r := Response(1, time, {"7"}, {});
    RevokedIsInactive(since);
    UnheldIsRight(since, since);
    assert Lands(w, 1, r, asked, Some(since), Some(since), time, true);
    HeldIsWrong(since, Landed(w, 1, r, true).cards, since, 2);
  }

  /** A delta from after the time the cards in force are right for can keep a revoked card. */
  lemma AskedTooLate(asked: int, since: Option<int>, base: int, time: int, saved: bool)
    requires time >= OVERLAP && base < asked && base < time - OVERLAP && (since.Some? ==> since == Some(base))
    ensures !SafeLanding(Some(asked), since, Some(base), time, saved)
  {
    var journal := IssuedAndRevoked(base + 1);
    var w := World(journal, {"7"}, since, true, map[1 := Flight(Some(asked), 0)], None, Some(base), base + OVERLAP, 1, 0);
    var r := Response(2, time, {}, {});
    RevokedIsInactive(base + 1);
    HeldIsRight(base + 1, base);
    assert journal[..2] == journal;
    assert Lands(w, 1, r, Some(asked), since, Some(base), time, saved);
    HeldIsWrong(base + 1, Landed(w, 1, r, saved).cards, time - OVERLAP, 2);
  }

  /** With nothing known of the cards in force, a delta can keep any of them. */
  lemma AskedOfNothing(asked: int, time: int, saved: bool)
    requires time >= OVERLAP
    ensures !SafeLanding(Some(asked), None, None, time, saved)
  {
    var w := World([], {"7"}, None, true, map[1 := Flight(Some(asked), 0)], None, None, 0, 0, 0);
    var r := Response(0, time, {}, {});
    assert Lands(w, 1, r, Some(asked), None, None, time, saved);
    var t := Landed(w, 1, r, saved);
    assert !KeyRight(t.journal, t.cards, time - OVERLAP, t.known, "7");
  }

  /** Landing in order is exactly what keeps every sound world sound. */
  lemma SafeIff(asked: Option<int>, since: Option<int>, base: Option<int>, time: int, saved: bool)
    requires time >= OVERLAP && (since.Some? ==> since == base)
    ensures SafeLanding(asked, since, base, time, saved) <==> InOrder(asked, since, base, time, saved)
  {
    if InOrder(asked, since, base, time, saved) {
      forall w: World, id: int, r: Response | Lands(w, id, r, asked, since, base, time, saved) ensures Sound(Landed(w, id, r, saved)) {
        LandKeepsSound(w, id, r, saved);
      }
    } else if saved && since.Some? && since.value > time - OVERLAP {
      SavedTooLate(asked, since.value, time);
    } else if base.None? {
      AskedOfNothing(asked.value, time, saved);
    } else {
      AskedTooLate(asked.value, since, base.value, time, saved);
    }
  }

  // ---- What out-of-order landings do to a gate ----

  /** What some run of commits, refreshes in order and restarts comes to. */
  ghost predicate Reachable(w: World) {
    exists steps :: LegalRun(START, steps) && Run(START, steps) == w
  }

  lemma {:induction false} RunOneMore(w: World, steps: seq<Step>, step: Step)
    requires LegalRun(w, steps) && Legal(Run(w, steps), step) && Ordered(Run(w, steps), step)
    ensures LegalRun(w, steps + [step]) && Run(w, steps + [step]) == Do(Run(w, steps), step)
    decreases |steps|
  {
    var more := steps + [step];
    if steps == [] {
      assert more == [step] && more[1..] == [];
    } else {
      assert more[0] == steps[0] && more[1..] == steps[1..] + [step];
      RunOneMore(Do(w, steps[0]), steps[1..], step);
    }
  }

  lemma Reach(w: World, step: Step) returns (next: World)
    requires Reachable(w) && Legal(w, step) && Ordered(w, step)
    ensures next == Do(w, step) && Reachable(next)
  {
    next := Do(w, step);
    var steps :| LegalRun(START, steps) && Run(START, steps) == w;
    RunOneMore(START, steps, step);
  }

  lemma StartIsReachable()
    ensures Reachable(START)
  {
    assert LegalRun(START, []) && Run(START, []) == START;
  }

  /** A gate that has just asked for everything, or for what changed since some time. */
  lemma Asking(asked: Option<int>) returns (w: World)
    requires asked.Some? ==> asked.value >= 0
    ensures Reachable(w) && w.journal == [] && w.cards == {} && w.flights == map[1 := Flight(asked, 0)]
    ensures w.since == asked && w.base == asked && w.ready == asked.Some? && w.known == 0
    ensures w.latest == if asked.Some? then asked.value + OVERLAP else 0
  {
    StartIsReachable();
    w := START;
    if asked.Some? {
      w := Reach(w, Ask(0));
      w := Reach(w, Land(0, Response(0, asked.value + OVERLAP, {}, {}), true));
    }
    w := Reach(w, Ask(1));
  }

  lemma Issue(w: World, time: int) returns (next: World)
    requires Reachable(w) && w.journal == [] && time > w.latest - OVERLAP
    ensures Reachable(next) && next == w.(journal := IssuedAndRevoked(time))
  {
    next := Reach(w, Commit(Change(time, "7", true)));
    next := Reach(next, Commit(Change(time, "7", false)));
    assert [] + [Change(time, "7", true)] + [Change(time, "7", false)] == IssuedAndRevoked(time);
  }

  /**
   * A gate asks twice, for everything or for a delta. Card "7" is issued and revoked, and the second
   * answer, from after that, lands first.
   */
  lemma Overtaken(asked: Option<int>, since: int) returns (w: World)
    requires since >= 0 && (asked.Some? ==> 0 <= asked.value < since)
    ensures Reachable(w) && w.journal == IssuedAndRevoked(since) && w.cards == {} && w.flights == map[1 := Flight(asked, 0)]
    ensures w.since == Some(since) && w.base == Some(since) && w.ready && w.known == 2 && w.latest == since + OVERLAP
  {
    RevokedIsInactive(since);
    w := Asking(asked);
    w := Reach(w, Ask(2));
    w := Issue(w, since);
    assert w.journal[..2] == w.journal;
    var fast := Land(2, Response(2, since + OVERLAP, {}, {"7"}), asked.None?);
    w := Reach(w, fast);
    assert w.flights == map[1 := Flight(asked, 0)];
  }

  /**
   * Saved with a later time than its own, a snapshot can keep a revoked card for good: after a restart
   * the next delta asks from that later time and has nothing to say about it.
   */
  lemma SavedLateKeepsRevoked(asked: Option<int>, since: int, time: int) returns (w: World)
    requires time >= OVERLAP && since > time - OVERLAP && (asked.Some? ==> 0 <= asked.value < since)
    ensures Reachable(w) && w.since == Some(since) && 1 in w.flights && w.flights[1].asked == asked && Active(w.journal) == {}
    ensures var slow, next := Land(1, Response(1, time, {"7"}, {}), true), Land(3, Response(2, since + OVERLAP, {}, {}), false);
            && Legal(w, slow)
            && var restarted := Do(Do(Do(w, slow), Restart), Ask(3));
               Legal(restarted, next) && Ordered(restarted, next) && Do(restarted, next).cards == {"7"}
  {
    RevokedIsInactive(since);
    w := Overtaken(asked, since);
    assert w.journal[..2] == w.journal;
  }

  /** A gate asks twice for everything; one answer lands, from after a card was revoked, and the gate asks for a delta. */
  lemma AskedAgain(asked: int, revoked: int) returns (w: World)
    requires 0 <= revoked && 0 <= asked
    ensures Reachable(w) && w.journal == IssuedAndRevoked(revoked) && w.flights == map[1 := Flight(None, 0), 3 := Flight(Some(asked), 2)]
    ensures w.since == Some(asked) && w.base == Some(asked) && w.ready
  {
    RevokedIsInactive(revoked);
    w := Asking(None);
    w := Reach(w, Ask(2));
    w := Issue(w, revoked);
    w := Reach(w, Land(2, Response(2, asked + OVERLAP, {}, {}), true));
    w := Reach(w, Ask(3));
  }

  /** The other answer, from before card "7" was revoked, takes the gate back to an earlier time. */
  lemma TakenBack(asked: int, base: int) returns (w: World)
    requires 0 <= base < asked
    ensures Reachable(w) && w.journal == IssuedAndRevoked(base + 1) && w.cards == {"7"} && w.flights == map[3 := Flight(Some(asked), 2)]
    ensures w.since == Some(base) && w.base == Some(base) && w.ready
  {
    RevokedIsInactive(base + 1);
    w := AskedAgain(asked, base + 1);
    w := Reach(w, Land(1, Response(1, base + OVERLAP, {"7"}, {}), false));
    assert w.flights == map[3 := Flight(Some(asked), 2)];
  }

  /** A delta from after the time the gate has gone back to keeps the revoked card, and so does every later one. */
  lemma LateDeltaKeepsRevoked(asked: int, base: int, time: int, saved: bool, later: int) returns (w: World)
    requires 0 <= base < asked && base < time - OVERLAP && later >= OVERLAP
    ensures Reachable(w) && w.base == Some(base) && 3 in w.flights && w.flights[3].asked == Some(asked) && Active(w.journal) == {}
    ensures var late, next := Land(3, Response(2, time, {}, {}), saved), Land(4, Response(2, later, {}, {}), false);
            && Legal(w, late)
            && var asking := Do(Do(w, late), Ask(4));
               Legal(asking, next) && Ordered(asking, next) && Do(asking, next).cards == {"7"}
  {
    RevokedIsInactive(base + 1);
    w := TakenBack(asked, base);
    assert w.journal[..2] == w.journal;
  }
}
