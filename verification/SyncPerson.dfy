/** Synchronising a person to terminals, and removing one, against the tables of the portal. */
module SyncPerson {
  import opened Base
  import opened DeviceSync

  // ---- What is asked of the terminals ----

  /** A piece of work that every terminal is to be given. */
  datatype Item = PersonItem(operation: Operation, person: Person) | CardItem(card: CardRow) | FingerItem(finger: Finger)

  function SubjectOf(item: Item): Subject {
    match item
    case PersonItem(_, p) => OfPerson(p.kind, p.id)
    case CardItem(c) => OfCard(c.id)
    case FingerItem(f) => OfFinger(f.id)
  }

  function OperationOf(item: Item): Operation {
    match item
    case PersonItem(operation, _) => operation
    case CardItem(c) => if c.active then UpsertCard else DisableCard
    case FingerItem(_) => UploadFingerprint
  }

  /** Whether an agent will do it; of a finger, the template must also be held for its slot and the finger active. */
  predicate Ready(d: Device, item: Item, held: set<int>) {
    match item
    case PersonItem(_, _) => AgentCan(d, PersonRecord)
    case CardItem(_) => AgentCan(d, Card)
    case FingerItem(f) => AgentCan(d, Fingerprint) && f.active && f.slot in held
  }

  function TaskFor(d: Device, item: Item, held: set<int>): Task {
    Task(d.id, OperationOf(item), SubjectOf(item), Ready(d, item, held))
  }

  function TasksOn(d: Device, items: seq<Item>, held: set<int>): seq<Task> {
    if items == [] then []
    else TasksOn(d, items[..|items| - 1], held) + [TaskFor(d, items[|items| - 1], held)]
  }

  function AllTasks(devices: seq<Device>, items: seq<Item>, held: set<int>): seq<Task> {
    if devices == [] then []
    else AllTasks(devices[..|devices| - 1], items, held) + TasksOn(devices[|devices| - 1], items, held)
  }

  lemma {:induction false} HowManyOn(d: Device, items: seq<Item>, held: set<int>)
    ensures |TasksOn(d, items, held)| == |items|
    decreases |items|
  {
    if items != [] { HowManyOn(d, items[..|items| - 1], held); }
  }

  lemma {:induction false} HowMany(devices: seq<Device>, items: seq<Item>, held: set<int>)
    ensures |AllTasks(devices, items, held)| == |devices| * |items|
    decreases |devices|
  {
    if devices != [] {
      var n := |devices| - 1;
      HowMany(devices[..n], items, held);
      HowManyOn(devices[n], items, held);
      assert (n + 1) * |items| == n * |items| + |items|;
    }
  }

  // ---- Their slots differ, because the ids do ----

  predicate DistinctDevices(devices: seq<Device>) {
    forall i, j :: 0 <= i < j < |devices| ==> devices[i].id != devices[j].id
  }

  predicate DistinctItems(items: seq<Item>) {
    forall i, j :: 0 <= i < j < |items| ==> SubjectOf(items[i]) != SubjectOf(items[j])
  }

  predicate Listed(devices: seq<Device>, id: string) {
    exists k :: 0 <= k < |devices| && devices[k].id == id
  }

  predicate Wanted(items: seq<Item>, subject: Subject) {
    exists k :: 0 <= k < |items| && SubjectOf(items[k]) == subject
  }

  lemma {:induction false} SlotsOn(d: Device, items: seq<Item>, held: set<int>, slot: Slot)
    requires slot in Slots(TasksOn(d, items, held))
    ensures slot.device == d.id && Wanted(items, slot.subject)
    decreases |items|
  {
    if items != [] {
      var n := |items| - 1;
      TaskMore({}, TasksOn(d, items[..n], held), TaskFor(d, items[n], held));
      if slot in Slots(TasksOn(d, items[..n], held)) {
        SlotsOn(d, items[..n], held, slot);
        var k :| 0 <= k < n && SubjectOf(items[..n][k]) == slot.subject;
        assert SubjectOf(items[k]) == slot.subject;
      }
    }
  }

  lemma {:induction false} SlotsJoin(a: seq<Task>, b: seq<Task>)
    ensures Slots(a + b) == Slots(a) + Slots(b)
    ensures DistinctSlots(a + b) <==> DistinctSlots(a) && DistinctSlots(b) && Slots(a) !! Slots(b)
    decreases |b|
  {
    if b == [] {
      assert a + b == a;
    } else {
      var n := |b| - 1;
      SlotsJoin(a, b[..n]);
      assert a + b == (a + b[..n]) + [b[n]] && b == b[..n] + [b[n]];
      TaskMore({}, a + b[..n], b[n]);
      TaskMore({}, b[..n], b[n]);
    }
  }

  lemma {:induction false} SlotsOfAll(devices: seq<Device>, items: seq<Item>, held: set<int>, slot: Slot)
    requires slot in Slots(AllTasks(devices, items, held))
    ensures Listed(devices, slot.device) && Wanted(items, slot.subject)
    decreases |devices|
  {
    if devices != [] {
      var n := |devices| - 1;
      SlotsJoin(AllTasks(devices[..n], items, held), TasksOn(devices[n], items, held));
      if slot in Slots(AllTasks(devices[..n], items, held)) {
        SlotsOfAll(devices[..n], items, held, slot);
        var k :| 0 <= k < n && devices[..n][k].id == slot.device;
        assert devices[k].id == slot.device;
      } else {
        SlotsOn(devices[n], items, held, slot);
      }
    }
  }

  lemma {:induction false} DistinctOn(d: Device, items: seq<Item>, held: set<int>)
    requires DistinctItems(items)
    ensures DistinctSlots(TasksOn(d, items, held))
    decreases |items|
  {
    if items != [] {
      var n := |items| - 1;
      var before, t := TasksOn(d, items[..n], held), TaskFor(d, items[n], held);
      DistinctOn(d, items[..n], held);
      TaskMore({}, before, t);
      if TaskSlot(t) in Slots(before) {
        SlotsOn(d, items[..n], held, TaskSlot(t));
        assert false;
      }
    }
  }

  lemma {:induction false} AllDistinct(devices: seq<Device>, items: seq<Item>, held: set<int>)
    requires DistinctDevices(devices) && DistinctItems(items)
    ensures DistinctSlots(AllTasks(devices, items, held))
    decreases |devices|
  {
    if devices != [] {
      var n := |devices| - 1;
      var a, b := AllTasks(devices[..n], items, held), TasksOn(devices[n], items, held);
      AllDistinct(devices[..n], items, held);
      DistinctOn(devices[n], items, held);
      forall slot | slot in Slots(a) ensures slot !in Slots(b) {
        if slot in Slots(b) {
          SlotsOfAll(devices[..n], items, held, slot);
          SlotsOn(devices[n], items, held, slot);
          assert false;
        }
      }
      SlotsJoin(a, b);
    }
  }
}
