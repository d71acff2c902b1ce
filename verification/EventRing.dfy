/** The sketch's event ring: 64 slots, a head and a count, and 32-bit serial numbers. */
module EventRing {
  import opened Base
  import opened Events

  // ---- The same queue with 32-bit counters, and the loop that acknowledges by comparing serials ----

  function Record32(q: Queue, e: Event): Queue {
    var serial := (q.lastSerial + 1) % U32;
    var stamped := e.(serial := serial);
    if |q.events| == RING then Queue(q.events[1..] + [stamped], serial, (q.dropped + 1) % U32)
    else Queue(q.events + [stamped], serial, q.dropped)
  }

  /** Pops from the front while at most `n` have gone and the front is not newer than `serial`. */
  function Pop(events: seq<Event>, n: nat, serial: nat): seq<Event> {
    if n == 0 || events == [] || events[0].serial > serial then events else Pop(events[1..], n - 1, serial)
  }

  function Forget32(q: Queue, batch: seq<Event>): Queue {
    if batch == [] then q else q.(events := Pop(q.events, |batch|, batch[|batch| - 1].serial))
  }

  function Slot(head: nat, i: nat): nat {
    (head + i) % RING
  }

  lemma SlotsDiffer(head: nat, count: nat)
    requires head < RING && count < RING
    ensures forall i :: 0 <= i < count ==> Slot(head, i) != Slot(head, count)
  {
  }

  class Ring {
    const slots: array<Event>
    var head: nat
    var count: nat
    var dropped: nat
    var serial: nat

    ghost predicate Valid()
      reads this
    {
      slots.Length == RING && head < RING && count <= RING && serial < U32 && dropped < U32
    }

    /** The queued events, oldest first. */
    ghost function Contents(): seq<Event>
      reads this, slots
      requires Valid()
    {
      seq(count, i requires 0 <= i < count reads this, slots requires Valid() => slots[Slot(head, i)])
    }

    ghost function Abstract(): Queue
      reads this, slots
      requires Valid()
    {
      Queue(Contents(), serial, dropped)
    }

    constructor (blank: Event)
      ensures Valid() && fresh(slots) && Abstract() == EMPTY
    {
      slots := new Event[RING](_ => blank);
      head, count, dropped, serial := 0, 0, 0, 0;
    }

    /** Gives up the oldest event. */
    method Advance()
      requires Valid() && count > 0
      modifies this`head, this`count
      ensures Valid() && Contents() == old(Contents())[1..]
    {
      head := Slot(head, 1);
      count := count - 1;
    }

    method Append(e: Event)
      requires Valid() && count < RING
      modifies this`count, slots
      ensures Valid() && Contents() == old(Contents()) + [e]
    {
      SlotsDiffer(head, count);
      slots[Slot(head, count)] := e;
      count := count + 1;
    }

    method RecordEvent(e: Event)
      requires Valid()
      modifies this, slots
      ensures Valid() && Abstract() == Record32(old(Abstract()), e)
    {
      serial := (serial + 1) % U32;
      assert Contents() == old(Contents());
      if count == RING {
        Advance();
        ghost var kept := Contents();
        dropped := (dropped + 1) % U32;
        assert Contents() == kept;
      }
      Append(e.(serial := serial));
    }

    /** The first locked section of an upload: copies the oldest events out. */
    method TakeBatch() returns (batch: seq<Event>)
      requires Valid()
      ensures batch == Take(Abstract())
    {
      var n := if count <= BATCH then count else BATCH;
      batch := [];
      for i := 0 to n
        invariant batch == Contents()[..i]
      {
        batch := batch + [slots[Slot(head, i)]];
      }
    }

    /** The second locked section: drops what was sent. */
    method DropSent(batch: seq<Event>)
      requires Valid()
      modifies this
      ensures Valid() && Abstract() == Forget32(old(Abstract()), batch)
    {
      if batch == [] {
        return;
      }
      var sent := 0;
      var last := batch[|batch| - 1].serial;
      while sent < |batch| && count > 0 && slots[head].serial <= last
        invariant Valid() && sent <= |batch| && serial == old(serial) && dropped == old(dropped)
        invariant Pop(Contents(), |batch| - sent, last) == Pop(old(Contents()), |batch|, last)
        decreases |batch| - sent
      {
        assert Contents()[0] == slots[head];
        Advance();
        sent := sent + 1;
      }
      assert count > 0 ==> Contents()[0] == slots[head];
    }
  }

  // ---- Refinement ----

  /** Until the 32-bit serial wraps, recording is the unbounded queue's recording. */
  lemma RecordRefines(q: Queue, e: Event)
    requires |q.events| <= RING && q.lastSerial + 1 < U32 && q.dropped + 1 < U32
    ensures Record32(q, e) == Record(q, e)
  {
  }

  lemma {:induction false} PopIsSuffix(log: seq<Event>, head: nat, n: nat, serial: nat)
    requires forall i :: 0 <= i < |log| ==> log[i].serial == i + 1
    requires head <= |log| && serial <= |log|
    ensures Pop(log[head..], n, serial)
         == log[if serial <= head then head else if serial - head <= n then serial else head + n..]
    decreases n
  {
    if n > 0 && head < |log| && head + 1 <= serial {
      assert log[head..][1..] == log[head + 1..];
      PopIsSuffix(log, head + 1, n - 1, serial);
    }
  }

  /** Popping by serial numbers forgets exactly the acknowledged batch, even after an overflow during its upload. */
  lemma ForgetRefines(s: System, id: int)
    requires Sound(s) && id in s.uploads
    ensures Forget32(s.queue, s.uploads[id]) == Forget(s.queue, s.uploads[id])
  {
    var a, b := AcknowledgedBatch(s, id);
    assert s.uploads[id][b - a - 1] == s.log[b - 1];
    PopIsSuffix(s.log, Head(s), |s.uploads[id]|, b);
  }

  function Do32(s: System, step: Step): System {
    match step
    case Arrive(e) =>
      s.(queue := Record32(s.queue, e), log := s.log + [e.(serial := (s.queue.lastSerial + 1) % U32)])
    case Begin(id) => Do(s, step)
    case Finish(id, status) =>
      if id !in s.uploads then s
      else
        var q := if Settles(status) then Forget32(s.queue, s.uploads[id]) else s.queue;
        s.(queue := q, uploads := s.uploads - {id}, removed := s.removed + |s.queue.events| - |q.events|)
  }

  function Run32(s: System, steps: seq<Step>): System
    decreases |steps|
  {
    if steps == [] then s else Run32(Do32(s, steps[0]), steps[1..])
  }

  function Arrivals(steps: seq<Step>): nat {
    if steps == [] then 0 else (if steps[0].Arrive? then 1 else 0) + Arrivals(steps[1..])
  }

  lemma DroppedIsRecorded(s: System)
    requires Sound(s) && s.removed >= 0
    ensures s.queue.dropped <= |s.log|
  {
  }

  lemma RemovedGrows(s: System, step: Step)
    requires Sound(s) && s.removed >= 0
    ensures Do(s, step).removed >= 0
  {
    if step.Finish? && step.id in s.uploads && Settles(step.status) {
      var a, b := AcknowledgedBatch(s, step.id);
    }
  }

  /** Every interleaving of the ring's operations is one of the unbounded queue, while fewer than 2^32 events were recorded. */
  lemma {:induction false} RunRefines(s: System, steps: seq<Step>)
    requires Sound(s) && s.removed >= 0 && |s.log| + Arrivals(steps) < U32
    ensures Run32(s, steps) == Run(s, steps)
    decreases |steps|
  {
    if steps != [] {
      StepRefines(s, steps[0]);
      StepKeepsSound(s, steps[0]);
      RemovedGrows(s, steps[0]);
      RunRefines(Do(s, steps[0]), steps[1..]);
    }
  }

  lemma {:induction false} StepRefines(s: System, step: Step)
    requires Sound(s) && s.removed >= 0 && |s.log| + (if step.Arrive? then 1 else 0) < U32
    ensures Do32(s, step) == Do(s, step)
  {
    match step
    case Arrive(e) =>
      DroppedIsRecorded(s);
      RecordRefines(s.queue, e);
    case Begin(id) =>
    case Finish(id, status) =>
      if id in s.uploads { ForgetRefines(s, id); }
  }

  /** Once serials wrap, an undisturbed batch is removed exactly when its last serial is not below its first. */
  lemma WrappedBatchIsRemoved(q: Queue, batch: seq<Event>)
    requires 0 < |batch| && batch == Take(q)
    requires forall i :: 0 <= i < |batch| ==> batch[i].serial == (batch[0].serial + i) % U32
    ensures Forget32(q, batch).events == q.events[|batch|..] <==> batch[0].serial <= batch[|batch| - 1].serial
  {
    if batch[0].serial <= batch[|batch| - 1].serial {
      assert batch[0].serial == batch[0].serial % U32;
      forall i | 0 <= i < |batch| ensures batch[i].serial <= batch[|batch| - 1].serial {
        assert batch[|batch| - 1].serial == (batch[0].serial + (|batch| - 1)) % U32;
      }
      PopAll(q.events, |batch|, batch[|batch| - 1].serial);
    }
  }

  lemma {:induction false} PopAll(events: seq<Event>, n: nat, serial: nat)
    requires n <= |events| && forall i :: 0 <= i < n ==> events[i].serial <= serial
    ensures Pop(events, n, serial) == events[n..]
  {
    if n > 0 {
      PopAll(events[1..], n - 1, serial);
    }
  }
}
