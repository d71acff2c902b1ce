/** The queue of gate events: bounded, filled by the gate, drained by uploads that overlap it. */
module Events {
  import opened Base

  const RING: nat := 64
  const BATCH: nat := 20

  datatype Kind = Card | Pin | Exit

  datatype Event = Event(serial: nat, at: int, kind: Kind, granted: bool, doorOpened: bool,
                         cardNo: Option<string>, employeeNo: Option<string>, reason: string)

  datatype Queue = Queue(events: seq<Event>, lastSerial: nat, dropped: nat)

  const EMPTY := Queue([], 0, 0)

  /** Queues an event under the next serial number, giving up the oldest one when the queue is full. */
  function Record(q: Queue, e: Event): Queue {
    var stamped := e.(serial := q.lastSerial + 1);
    if |q.events| >= RING then Queue(q.events[1..] + [stamped], q.lastSerial + 1, q.dropped + 1)
    else Queue(q.events + [stamped], q.lastSerial + 1, q.dropped)
  }

  /** The oldest events, at most one upload's worth. */
  function Take(q: Queue): (batch: seq<Event>)
    ensures batch <= q.events && |batch| == (if |q.events| < 20 then |q.events| else 20)
  {
    if |q.events| <= BATCH then q.events else q.events[..BATCH]
  }

  function NewerThan(events: seq<Event>, serial: nat): seq<Event> {
    if events == [] then []
    else (if events[0].serial > serial then [events[0]] else []) + NewerThan(events[1..], serial)
  }

  lemma NewerThanFirst(events: seq<Event>, i: nat, serial: nat)
    requires i < |events|
    ensures NewerThan(events[i..], serial) == (if events[i].serial > serial then [events[i]] else []) + NewerThan(events[i + 1..], serial)
  {
    assert events[i..][0] == events[i] && events[i..][1..] == events[i + 1..];
  }

  /** Forgets the events up to the last one of an uploaded batch. */
  function Forget(q: Queue, batch: seq<Event>): Queue {
    if batch == [] then q else q.(events := NewerThan(q.events, batch[|batch| - 1].serial))
  }

  // ---- The queue with its uploads: any number may be outstanding at once ----

  /** `log` is every event ever recorded; `removed` counts the events that acknowledgements took out. */
  datatype System = System(queue: Queue, uploads: map<int, seq<Event>>, log: seq<Event>, removed: int)

  datatype Step = Arrive(event: Event) | Begin(id: int) | Finish(id: int, status: Option<int>)

  /** The answers after which a batch is not sent again: accepted, or impossible to accept. */
  predicate Settles(status: Option<int>) {
    status.Some? && (200 <= status.value < 300 || status.value == 409 || status.value == 400 || status.value == 413)
  }

  const START := System(EMPTY, map[], [], 0)

  function Do(s: System, step: Step): System {
    match step
    case Arrive(e) =>
      s.(queue := Record(s.queue, e), log := s.log + [e.(serial := s.queue.lastSerial + 1)])
    case Begin(id) =>
      if id in s.uploads || s.queue.events == [] then s else s.(uploads := s.uploads[id := Take(s.queue)])
    case Finish(id, status) =>
      if id !in s.uploads then s
      else
        var q := if Settles(status) then Forget(s.queue, s.uploads[id]) else s.queue;
        s.(queue := q, uploads := s.uploads - {id}, removed := s.removed + |s.queue.events| - |q.events|)
  }

  function Run(s: System, steps: seq<Step>): System
    decreases |steps|
  {
    if steps == [] then s else Run(Do(s, steps[0]), steps[1..])
  }

  /** Where the queue begins in the log. */
  function Head(s: System): int {
    |s.log| - |s.queue.events|
  }

  ghost predicate UploadOf(s: System, batch: seq<Event>) {
    exists a: int, b: int :: 0 <= a < b <= |s.log| && a <= Head(s) && b - a <= BATCH && batch == s.log[a..b]
  }

  /** What holds after every step of every run. */
  ghost predicate Sound(s: System) {
    && s.queue.lastSerial == |s.log|
    && (forall i :: 0 <= i < |s.log| ==> s.log[i].serial == i + 1)
    && |s.queue.events| <= 64
    && |s.queue.events| <= |s.log|
    && s.queue.events == s.log[Head(s)..]
    && |s.log| == |s.queue.events| + s.queue.dropped + s.removed
    && (forall id :: id in s.uploads ==> UploadOf(s, s.uploads[id]))
  }

  /** Dropping by serial number is cutting the log at that number. */
  lemma {:induction false} NewerThanIsSuffix(log: seq<Event>, head: nat, serial: nat)
    requires forall i :: 0 <= i < |log| ==> log[i].serial == i + 1
    requires head <= |log|
    ensures NewerThan(log[head..], serial) == log[if serial < head then head else if serial > |log| then |log| else serial..]
    decreases |log| - head
  {
    if head < |log| {
      assert log[head..][1..] == log[head + 1..];
      NewerThanIsSuffix(log, head + 1, serial);
      if serial <= head { assert log[head..] == [log[head]] + log[head + 1..]; }
    }
  }

  lemma ArriveKeepsSuffix(s: System, e: Event)
    requires Sound(s)
    ensures var t := Do(s, Arrive(e)); Head(t) >= Head(s) && t.queue.events == t.log[Head(t)..]
  {
    var q, log, stamped := s.queue.events, s.log, e.(serial := s.queue.lastSerial + 1);
    if |q| >= RING {
      SuffixMoves(log, Head(s), stamped);
    } else {
      SuffixGrows(log, Head(s), stamped);
    }
  }

  lemma SuffixGrows<T>(log: seq<T>, h: nat, e: T)
    requires h <= |log|
    ensures log[h..] + [e] == (log + [e])[h..]
  {
  }

  lemma SuffixMoves<T>(log: seq<T>, h: nat, e: T)
    requires h < |log|
    ensures log[h..][1..] + [e] == (log + [e])[h + 1..]
  {
  }

  lemma UploadInMore(s: System, t: System, batch: seq<Event>)
    requires UploadOf(s, batch) && |t.log| == |s.log| + 1 && t.log[..|s.log|] == s.log && Head(s) <= Head(t)
    ensures UploadOf(t, batch)
  {
    var a: int, b: int :| 0 <= a < b <= |s.log| && a <= Head(s) && b - a <= BATCH && batch == s.log[a..b];
    SliceOfMore(s.log, t.log, a, b);
  }

  lemma SliceOfMore<T>(log: seq<T>, more: seq<T>, a: nat, b: nat)
    requires a <= b <= |log| <= |more| && more[..|log|] == log
    ensures more[a..b] == log[a..b]
  {
    forall i | a <= i < b ensures more[i] == log[i] { assert more[i] == more[..|log|][i]; }
  }

  lemma ArriveKeepsSound(s: System, e: Event)
    requires Sound(s)
    ensures Sound(Do(s, Arrive(e)))
  {
    var t := Do(s, Arrive(e));
    ArriveKeepsSuffix(s, e);
    forall id | id in t.uploads ensures UploadOf(t, t.uploads[id]) {
      UploadInMore(s, t, s.uploads[id]);
    }
  }

  lemma BeginKeepsSound(s: System, id: int)
    requires Sound(s)
    ensures Sound(Do(s, Begin(id)))
  {
    if id !in s.uploads && s.queue.events != [] {
      var t := Do(s, Begin(id));
      var b := Head(s) + |Take(s.queue)|;
      assert t.uploads[id] == t.log[Head(s)..b];
      forall i | i in t.uploads ensures UploadOf(t, t.uploads[i]) {
        if i != id {
          assert UploadOf(s, s.uploads[i]);
        }
      }
    }
  }

  /** An acknowledged batch is a stretch of the log, and what stays queued begins after it. */
  lemma AcknowledgedBatch(s: System, id: int) returns (a: int, b: int)
    requires Sound(s) && id in s.uploads
    ensures 0 <= a < b <= |s.log| && a <= Head(s) && s.uploads[id] == s.log[a..b]
    ensures Forget(s.queue, s.uploads[id]).events == s.log[if b < Head(s) then Head(s) else b..]
  {
    assert UploadOf(s, s.uploads[id]);
    a, b :| 0 <= a < b <= |s.log| && a <= Head(s) && b - a <= BATCH && s.uploads[id] == s.log[a..b];
    ForgetIsCut(s.queue, s.log, Head(s), a, b);
  }

  lemma ForgetIsCut(q: Queue, log: seq<Event>, head: nat, a: nat, b: nat)
    requires forall i :: 0 <= i < |log| ==> log[i].serial == i + 1
    requires a < b <= |log| && head <= |log| && q.events == log[head..]
    ensures Forget(q, log[a..b]).events == log[if b < head then head else b..]
  {
    assert log[a..b][b - a - 1] == log[b - 1];
    NewerThanIsSuffix(log, head, b);
  }

  lemma UploadStays(s: System, t: System, batch: seq<Event>)
    requires UploadOf(s, batch) && t.log == s.log && Head(s) <= Head(t)
    ensures UploadOf(t, batch)
  {
  }

  lemma FinishKeepsSound(s: System, id: int, status: Option<int>)
    requires Sound(s)
    ensures Sound(Do(s, Finish(id, status)))
  {
    if id in s.uploads {
      var t := Do(s, Finish(id, status));
      var a, b := AcknowledgedBatch(s, id);
      assert t.queue.events == t.log[Head(t)..];
      forall i | i in t.uploads ensures UploadOf(t, t.uploads[i]) {
        UploadStays(s, t, t.uploads[i]);
      }
    }
  }

  // ---- Main results ----

  /**
   * Whatever arrives while any uploads are outstanding, the queue is the newest part of the log in
   * order, never longer than the ring, and recorded = queued + overflowed + removed.
   */
  lemma {:induction false} EveryRunIsSound(s: System, steps: seq<Step>)
    requires Sound(s)
    ensures Sound(Run(s, steps))
    decreases |steps|
  {
    if steps != [] {
      StepKeepsSound(s, steps[0]);
      EveryRunIsSound(Do(s, steps[0]), steps[1..]);
    }
  }

  lemma StepKeepsSound(s: System, step: Step)
    requires Sound(s)
    ensures Sound(Do(s, step))
  {
    match step
    case Arrive(e) => ArriveKeepsSound(s, e);
    case Begin(id) => BeginKeepsSound(s, id);
    case Finish(id, status) => FinishKeepsSound(s, id, status);
  }

  lemma StartIsSound()
    ensures Sound(START)
  {
  }

  /**
   * An acknowledgement takes out exactly the events of its own batch that are still queued: none
   * that the batch did not carry, and every one that it did.
   */
  lemma AcknowledgementRemovesItsBatch(s: System, id: int, status: Option<int>, e: Event)
    requires Sound(s) && id in s.uploads && Settles(status) && e in s.queue.events
    ensures e !in Do(s, Finish(id, status)).queue.events <==> e in s.uploads[id]
  {
    var a, b := AcknowledgedBatch(s, id);
    CutRemovesSlice(s.log, Head(s), a, b, e);
  }

  lemma CutRemovesSlice(log: seq<Event>, head: nat, a: nat, b: nat, e: Event)
    requires forall i :: 0 <= i < |log| ==> log[i].serial == i + 1
    requires a <= head <= |log| && a <= b <= |log| && e in log[head..]
    ensures e !in log[if b < head then head else b..] <==> e in log[a..b]
  {
    var cut := if b < head then head else b;
    assert log[cut..] == log[cut..|log|] && log[head..] == log[head..|log|];
    InSlice(log, head, |log|, e);
    InSlice(log, a, b, e);
    InSlice(log, cut, |log|, e);
  }

  /** An event is in a stretch of the log exactly when its serial number says so. */
  lemma InSlice(log: seq<Event>, a: nat, b: nat, e: Event)
    requires forall i :: 0 <= i < |log| ==> log[i].serial == i + 1
    requires a <= b <= |log|
    ensures e in log[a..b] <==> a < e.serial <= b && log[e.serial - 1] == e
  {
    if e in log[a..b] {
      var i :| 0 <= i < b - a && log[a..b][i] == e;
      assert log[a + i] == e;
    }
    if a < e.serial <= b && log[e.serial - 1] == e {
      assert log[a..b][e.serial - 1 - a] == e;
    }
  }

  /**
   * Answers in the two hundreds, 400, 409 and 413 leave no event of the batch queued; after every other
   * answer, and after none, the whole batch is still there to be sent again.
   */
  lemma AnswersThatSettle(s: System, id: int, code: int)
    requires Sound(s) && id in s.uploads
    ensures var after := Do(s, Finish(id, Some(code))).queue;
      if 200 <= code <= 299 || code in {400, 409, 413} then forall e :: e in after.events <==> e in s.queue.events && e !in s.uploads[id]
      else after == s.queue
    ensures Do(s, Finish(id, None)).queue == s.queue
  {
    if Settles(Some(code)) {
      var after := Do(s, Finish(id, Some(code))).queue.events;
      var a, b := AcknowledgedBatch(s, id);
      forall e ensures e in after <==> e in s.queue.events && e !in s.uploads[id] {
        if e in s.queue.events {
          AcknowledgementRemovesItsBatch(s, id, Some(code), e);
        }
      }
    }
  }

  // ---- Only two things lose an event ----

  /** The step takes an event out: a full queue gives up its oldest, or its own batch was settled. */
  predicate TakesOut(s: System, step: Step, e: Event) {
    match step
    case Arrive(_) => |s.queue.events| == 64 && s.queue.events[0] == e
    case Begin(_) => false
    case Finish(id, status) => id in s.uploads && Settles(status) && e in s.uploads[id]
  }

  lemma StepTakesOutIff(s: System, step: Step, e: Event)
    requires Sound(s) && e in s.queue.events
    ensures e !in Do(s, step).queue.events <==> TakesOut(s, step, e)
  {
    match step
    case Arrive(more) => ArrivalTakesOutIff(s, more, e);
    case Begin(_) =>
    case Finish(id, status) =>
      if id in s.uploads && Settles(status) { AcknowledgementRemovesItsBatch(s, id, status, e); }
  }

  lemma ArrivalTakesOutIff(s: System, more: Event, e: Event)
    requires Sound(s) && e in s.queue.events
    ensures e !in Do(s, Arrive(more)).queue.events <==> |s.queue.events| == 64 && s.queue.events[0] == e
  {
    var q, h := s.queue.events, Head(s);
    var i :| 0 <= i < |q| && q[i] == e;
    assert forall j :: 0 <= j < |q| ==> q[j] == s.log[h + j];
    var after := Do(s, Arrive(more)).queue.events;
    if |q| >= RING {
      if i > 0 { assert after[i - 1] == e; }
      assert forall j :: 0 <= j < |after| ==> after[j].serial == h + j + 2;
    } else {
      assert after[i] == e;
    }
  }

  /**
   * Over every run an event that was queued and no longer is has been given up by a full queue as its
   * oldest, or was in a batch that the portal has settled: failed uploads lose nothing.
   */
  lemma {:induction false} LostEventWasSentOrOldest(s: System, steps: seq<Step>, e: Event) returns (i: nat)
    requires Sound(s) && e in s.queue.events && e !in Run(s, steps).queue.events
    ensures i < |steps| && TakesOut(Run(s, steps[..i]), steps[i], e)
    decreases |steps|
  {
    var next := Do(s, steps[0]);
    StepTakesOutIff(s, steps[0], e);
    StepKeepsSound(s, steps[0]);
    if e in next.queue.events {
      var j := LostEventWasSentOrOldest(next, steps[1..], e);
      i := j + 1;
      assert steps[..i][1..] == steps[1..][..j];
    } else {
      i := 0;
    }
  }
}
