/** The portal's tables, and the calls that queue work in them. */
module SyncTables {
  import opened Base
  import opened DeviceSync
  import opened SyncPerson

  datatype Presence = Synced | Awaiting | Missing | ByHand | Removed

  datatype PersonState = PersonState(
    employeeNo: Option<string>, name: string, presence: Presence, fingerprints: int, cards: int,
    operation: Option<string>, error: Option<string>, syncedAt: Option<int>)

  datatype StateKey = StateKey(kind: Kind, person: string, device: string)

  /** What a caller may record besides the state: the operation it comes from, its error, and counts. */
  datatype StateOptions = StateOptions(operation: Option<string>, error: Option<string>, fingerprints: Option<int>, cards: Option<int>)

  const NO_OPTIONS := StateOptions(None, None, None, None)

  type States = map<StateKey, PersonState>

  datatype SyncResult = SyncResult(devices: nat, counts: Counts, removed: nat, unresolved: seq<string>)

  function Sum(a: Counts, b: Counts): Counts {
    Counts(a.queued + b.queued, a.manual + b.manual, a.skipped + b.skipped)
  }

  lemma {:induction false} TallyJoin(open: set<Slot>, a: seq<Task>, b: seq<Task>)
    ensures Tally(open, a + b) == Sum(Tally(open, a), Tally(open, b))
    decreases |b|
  {
    if b == [] {
      assert a + b == a;
    } else {
      var n := |b| - 1;
      TallyJoin(open, a, b[..n]);
      TaskMore(open, a + b[..n], b[n]);
      Longer(a, b, n);
    }
  }

  lemma {:induction false} Longer(a: seq<Task>, b: seq<Task>, n: nat)
    requires |b| == n + 1
    ensures a + b == a + b[..n] + [b[n]]
  {
  }

  lemma {:induction false} NewRowsJoin(open: set<Slot>, a: seq<Task>, b: seq<Task>)
    ensures NewRows(open, a + b) == NewRows(open, a) + NewRows(open, b)
    decreases |b|
  {
    if b == [] {
      assert a + b == a;
    } else {
      var n := |b| - 1;
      NewRowsJoin(open, a, b[..n]);
      assert (a + b)[..|a| + n] == a + b[..n];
    }
  }

  /** The rows and the counts that answer a list of tasks. */
  predicate Answers(open: set<Slot>, tasks: seq<Task>, rows: seq<Row>, counted: Counts) {
    rows == NewRows(open, tasks) && counted == Tally(open, tasks)
  }

  lemma {:induction false} AnswersJoin(open: set<Slot>, a: seq<Task>, b: seq<Task>, r: seq<Row>, s: seq<Row>, n: Counts, m: Counts)
    requires Answers(open, a, r, n) && Answers(open, b, s, m)
    ensures Answers(open, a + b, r + s, Sum(n, m))
  {
    TallyJoin(open, a, b);
    NewRowsJoin(open, a, b);
  }

  /** What a state becomes: counts and the time of the last synchronisation are kept, nothing else is. */
  function Given(option: Option<int>, otherwise: int): int {
    if option.Some? then option.value else otherwise
  }

  /** The person's state at a terminal: counts are kept unless given, operation and error are not. */
  function StateAfter(states: States, p: Person, device: string, presence: Presence, options: StateOptions, now: int): States {
    var key := StateKey(p.kind, p.id, device);
    var was := if key in states then Some(states[key]) else None;
    states[key := PersonState(
      p.employeeNo, p.name, presence,
      Given(options.fingerprints, if was.Some? then was.value.fingerprints else 0),
      Given(options.cards, if was.Some? then was.value.cards else 0),
      options.operation, options.error,
      if presence == Synced then Some(now) else if was.Some? then was.value.syncedAt else None)]
  }

  function StatesAfter(states: States, p: Person, devices: seq<Device>, removal: bool, now: int): States {
    if devices == [] then states
    else
      var d := devices[|devices| - 1];
      var presence := if removal then Removed else if AgentCan(d, PersonRecord) then Awaiting else ByHand;
      StateAfter(StatesAfter(states, p, devices[..|devices| - 1], removal, now), p, d.id, presence, NO_OPTIONS, now)
  }

  /** Only whether the asked slots are open matters. */
  lemma {:induction false} SameAnswers(a: set<Slot>, b: set<Slot>, tasks: seq<Task>)
    requires forall slot :: slot in Slots(tasks) ==> (slot in a <==> slot in b)
    ensures NewRows(a, tasks) == NewRows(b, tasks) && Tally(a, tasks) == Tally(b, tasks)
    decreases |tasks|
  {
    if tasks != [] { SameAnswers(a, b, tasks[..|tasks| - 1]); }
  }

  lemma {:induction false} OneOn(devices: seq<Device>, k: nat, items: seq<Item>, held: set<int>)
    requires k < |devices|
    ensures AllTasks(devices[..k + 1], items, held) == AllTasks(devices[..k], items, held) + TasksOn(devices[k], items, held)
  {
    assert devices[..k + 1][..k] == devices[..k];
  }

  lemma {:induction false} OneItem(d: Device, items: seq<Item>, k: nat, held: set<int>)
    requires k < |items|
    ensures TasksOn(d, items[..k + 1], held) == TasksOn(d, items[..k], held) + [TaskFor(d, items[k], held)]
  {
    assert items[..k + 1][..k] == items[..k];
  }

  lemma {:induction false} JustOne(d: Device, item: Item, held: set<int>)
    ensures TasksOn(d, [item], held) == [TaskFor(d, item, held)]
  {
    assert [item][..0] == [];
    assert TasksOn(d, [], held) == [];
  }

  /** Once some fingers are inserted, a further one still finds its slot as it was before. */
  lemma {:induction false} NextFinger(rows: seq<Row>, before: seq<Task>, t: Task)
    requires DistinctSlots(before + [t])
    ensures var after := rows + NewRows(OpenSlots(rows), before);
            && NewRows(OpenSlots(after), [t]) == NewRows(OpenSlots(rows), [t])
            && Tally(OpenSlots(after), [t]) == Tally(OpenSlots(rows), [t])
  {
    TaskMore({}, before, t);
    TaskMore({}, [], t);
    assert [] + [t] == [t];
    NewRowsOpen(rows, OpenSlots(rows), before);
    SameAnswers(OpenSlots(rows + NewRows(OpenSlots(rows), before)), OpenSlots(rows), [t]);
  }

  function CardItems(cards: seq<CardRow>): (r: seq<Item>)
    ensures |r| == |cards| && forall k :: 0 <= k < |r| ==> r[k] == CardItem(cards[k])
  {
    seq(|cards|, k requires 0 <= k < |cards| => CardItem(cards[k]))
  }

  function FingerItems(fingers: seq<Finger>): (r: seq<Item>)
    ensures |r| == |fingers| && forall k :: 0 <= k < |r| ==> r[k] == FingerItem(fingers[k])
  {
    seq(|fingers|, k requires 0 <= k < |fingers| => FingerItem(fingers[k]))
  }

  /** What a person holds, and the finger slots a captured template is still held for. */
  datatype Credentials = Credentials(cards: seq<CardRow>, fingers: seq<Finger>, held: set<int>)

  const NO_CREDENTIALS := Credentials([], [], {})

  /** The ids are primary keys. */
  predicate Keyed(devices: seq<Device>, c: Credentials) {
    DistinctDevices(devices) && DistinctItems(CardItems(c.cards)) && DistinctItems(FingerItems(c.fingers))
  }

  function CardTasks(devices: seq<Device>, c: Credentials): seq<Task> {
    AllTasks(devices, CardItems(c.cards), c.held)
  }

  function FingerTasks(devices: seq<Device>, c: Credentials): seq<Task> {
    AllTasks(devices, FingerItems(c.fingers), c.held)
  }

  function PersonTasks(devices: seq<Device>, p: Person, operation: Operation): seq<Task> {
    AllTasks(devices, [PersonItem(operation, p)], {})
  }

  lemma {:induction false} SubjectKinds(devices: seq<Device>, p: Person, operation: Operation, c: Credentials, slot: Slot)
    ensures slot in Slots(CardTasks(devices, c)) ==> slot.subject.OfCard?
    ensures slot in Slots(FingerTasks(devices, c)) ==> slot.subject.OfFinger?
    ensures slot in Slots(PersonTasks(devices, p, operation)) ==> slot.subject.OfPerson?
  {
    if slot in Slots(CardTasks(devices, c)) { SlotsOfAll(devices, CardItems(c.cards), c.held, slot); }
    if slot in Slots(FingerTasks(devices, c)) { SlotsOfAll(devices, FingerItems(c.fingers), c.held, slot); }
    if slot in Slots(PersonTasks(devices, p, operation)) { SlotsOfAll(devices, [PersonItem(operation, p)], {}, slot); }
  }

  /** Fingers inserted for earlier terminals change nothing for the cards and fingers of the next. */
  lemma {:induction false} NextDevice(rows: seq<Row>, devices: seq<Device>, k: nat, c: Credentials)
    requires k < |devices| && Keyed(devices, c)
    ensures var open := OpenSlots(rows); var after := OpenSlots(rows + NewRows(open, FingerTasks(devices[..k], c)));
            && NewRows(after, TasksOn(devices[k], CardItems(c.cards), c.held)) == NewRows(open, TasksOn(devices[k], CardItems(c.cards), c.held))
            && Tally(after, TasksOn(devices[k], CardItems(c.cards), c.held)) == Tally(open, TasksOn(devices[k], CardItems(c.cards), c.held))
            && NewRows(after, TasksOn(devices[k], FingerItems(c.fingers), c.held)) == NewRows(open, TasksOn(devices[k], FingerItems(c.fingers), c.held))
            && Tally(after, TasksOn(devices[k], FingerItems(c.fingers), c.held)) == Tally(open, TasksOn(devices[k], FingerItems(c.fingers), c.held))
  {
    var open, fingers := OpenSlots(rows), FingerTasks(devices[..k], c);
    var after := OpenSlots(rows + NewRows(open, fingers));
    NewRowsOpen(rows, open, fingers);
    SameForDevice(open, after, devices, k, CardItems(c.cards), c, fingers);
    SameForDevice(open, after, devices, k, FingerItems(c.fingers), c, fingers);
  }

  lemma {:induction false} SameForDevice(open: set<Slot>, after: set<Slot>, devices: seq<Device>, k: nat, items: seq<Item>, c: Credentials, fingers: seq<Task>)
    requires k < |devices| && DistinctDevices(devices) && fingers == FingerTasks(devices[..k], c)
    requires after == open + (Slots(fingers) - open)
    ensures NewRows(after, TasksOn(devices[k], items, c.held)) == NewRows(open, TasksOn(devices[k], items, c.held))
    ensures Tally(after, TasksOn(devices[k], items, c.held)) == Tally(open, TasksOn(devices[k], items, c.held))
  {
    var tasks := TasksOn(devices[k], items, c.held);
    forall slot | slot in Slots(tasks) ensures slot in after <==> slot in open {
      SlotsOn(devices[k], items, c.held, slot);
      if slot in Slots(fingers) {
        SlotsOfAll(devices[..k], FingerItems(c.fingers), c.held, slot);
      }
    }
    SameAnswers(after, open, tasks);
  }

  lemma {:induction false} MoreAnswers(open: set<Slot>, devices: seq<Device>, k: nat, items: seq<Item>, held: set<int>, r: seq<Row>, n: Counts, s: seq<Row>, m: Counts)
    requires k < |devices| && Answers(open, AllTasks(devices[..k], items, held), r, n)
    requires Answers(open, TasksOn(devices[k], items, held), s, m)
    ensures Answers(open, AllTasks(devices[..k + 1], items, held), r + s, Sum(n, m))
  {
    OneOn(devices, k, items, held);
    AnswersJoin(open, AllTasks(devices[..k], items, held), TasksOn(devices[k], items, held), r, s, n, m);
  }

  lemma {:induction false} MoreItems(open: set<Slot>, d: Device, items: seq<Item>, k: nat, held: set<int>, r: seq<Row>, n: Counts, s: seq<Row>, m: Counts)
    requires k < |items| && Answers(open, TasksOn(d, items[..k], held), r, n)
    requires Answers(open, [TaskFor(d, items[k], held)], s, m)
    ensures Answers(open, TasksOn(d, items[..k + 1], held), r + s, Sum(n, m))
  {
    OneItem(d, items, k, held);
    AnswersJoin(open, TasksOn(d, items[..k], held), [TaskFor(d, items[k], held)], r, s, n, m);
  }

  /** What the fingers before have inserted leaves the answer for the next one as it was. */
  lemma {:induction false} FingerAfter(was: seq<Row>, d: Device, fingers: seq<Item>, k: nat, held: set<int>)
    requires DistinctItems(fingers) && k < |fingers|
    ensures var t, after := TaskFor(d, fingers[k], held), was + NewRows(OpenSlots(was), TasksOn(d, fingers[..k], held));
      && NewRows(OpenSlots(after), [t]) == NewRows(OpenSlots(was), [t])
      && Tally(OpenSlots(after), [t]) == Tally(OpenSlots(was), [t])
  {
    DistinctOn(d, fingers[..k + 1], held);
    OneItem(d, fingers, k, held);
    NextFinger(was, TasksOn(d, fingers[..k], held), TaskFor(d, fingers[k], held));
  }

  class Tables {
    var operations: seq<Row>
    var states: States

    constructor ()
      ensures operations == [] && states == map[]
    {
      operations, states := [], map[];
    }

    /** `SELECT 1 ... WHERE device_id=? AND operation=? AND <column>=? AND status IN (...)`. */
    method OpenOperationExists(device: string, operation: Operation, subject: Subject) returns (open: bool)
      requires operation != UploadFingerprint && operation != DeleteFingerprint
      ensures open <==> SlotFor(device, operation, subject) in OpenSlots(operations)
    {
      OpenSlotsHas(operations, SlotFor(device, operation, subject));
      for k := 0 to |operations|
        invariant forall i :: 0 <= i < k ==>
                    !(IsOpen(operations[i].status) && SlotOf(operations[i]) == SlotFor(device, operation, subject))
      {
        var row := operations[k];
        if row.device == device && row.operation == operation && row.subject == subject && IsOpen(row.status) {
          return true;
        }
      }
      return false;
    }

    /** The same for a finger, whose two operations are looked for together. */
    method OpenFingerOperationExists(device: string, finger: string) returns (open: bool)
      ensures open <==> SlotFor(device, UploadFingerprint, OfFinger(finger)) in OpenSlots(operations)
    {
      OpenSlotsHas(operations, SlotFor(device, UploadFingerprint, OfFinger(finger)));
      for k := 0 to |operations|
        invariant forall i :: 0 <= i < k ==>
                    !(IsOpen(operations[i].status) && SlotOf(operations[i]) == SlotFor(device, UploadFingerprint, OfFinger(finger)))
      {
        var row := operations[k];
        if row.device == device && row.subject == OfFinger(finger)
           && (row.operation == UploadFingerprint || row.operation == DeleteFingerprint) && IsOpen(row.status) {
          return true;
        }
      }
      return false;
    }

    method SetDevicePersonState(p: Person, device: string, presence: Presence, options: StateOptions, now: int)
      modifies this`states
      ensures states == StateAfter(old(states), p, device, presence, options, now)
    {
      var key := StateKey(p.kind, p.id, device);
      if key in states {
        var was := states[key];
        var syncedAt := if presence == Synced then Some(now) else was.syncedAt;
        var fingerprints, cards := Given(options.fingerprints, was.fingerprints), Given(options.cards, was.cards);
        states := states[key := PersonState(p.employeeNo, p.name, presence, fingerprints, cards, options.operation, options.error, syncedAt)];
      } else {
        var syncedAt := if presence == Synced then Some(now) else None;
        var fingerprints, cards := Given(options.fingerprints, 0), Given(options.cards, 0);
        states := states[key := PersonState(p.employeeNo, p.name, presence, fingerprints, cards, options.operation, options.error, syncedAt)];
      }
    }

    /** Work that is inserted with the batch at the end: the row, unless one like it is open. */
    method Prepare(d: Device, item: Item, held: set<int>) returns (rows: seq<Row>, counted: Counts)
      requires !item.FingerItem? && (item.PersonItem? ==> item.operation == UpsertPerson || item.operation == DeletePerson)
      ensures rows == NewRows(OpenSlots(operations), [TaskFor(d, item, held)])
      ensures counted == Tally(OpenSlots(operations), [TaskFor(d, item, held)])
    {
      TaskMore(OpenSlots(operations), [], TaskFor(d, item, held));
      assert [] + [TaskFor(d, item, held)] == [TaskFor(d, item, held)];
      var open := OpenOperationExists(d.id, OperationOf(item), SubjectOf(item));
      if open {
        return [], Counts(0, 0, 1);
      }
      var ready := Ready(d, item, held);
      rows := [Row(d.id, OperationOf(item), SubjectOf(item), if ready then Pending else ManualActionRequired)];
      counted := if ready then Counts(1, 0, 0) else Counts(0, 1, 0);
    }

    /** A finger's row is inserted at once. */
    method FingerprintUploadOperation(d: Device, finger: Finger, held: set<int>) returns (counted: Counts)
      modifies this`operations
      ensures operations == old(operations) + NewRows(old(OpenSlots(operations)), [TaskFor(d, FingerItem(finger), held)])
      ensures counted == Tally(old(OpenSlots(operations)), [TaskFor(d, FingerItem(finger), held)])
    {
      ghost var task := TaskFor(d, FingerItem(finger), held);
      TaskMore(OpenSlots(operations), [], task);
      assert [] + [task] == [task];
      var open := OpenFingerOperationExists(d.id, finger.id);
      if open {
        return Counts(0, 0, 1);
      }
      var template := finger.active && finger.slot in held;
      var ready := AgentCan(d, Fingerprint) && template;
      operations := operations + [Row(d.id, UploadFingerprint, OfFinger(finger.id), if ready then Pending else ManualActionRequired)];
      counted := if ready then Counts(1, 0, 0) else Counts(0, 1, 0);
    }
  
    method PersonRows(p: Person, devices: seq<Device>, operation: Operation, now: int) returns (rows: seq<Row>, counted: Counts)
      requires operation == UpsertPerson || operation == DeletePerson
      modifies this`states
      ensures Answers(OpenSlots(operations), PersonTasks(devices, p, operation), rows, counted)
      ensures states == StatesAfter(old(states), p, devices, operation == DeletePerson, now)
    {
      rows, counted := [], Counts(0, 0, 0);
      var item := PersonItem(operation, p);
      for k := 0 to |devices|
        invariant Answers(OpenSlots(operations), AllTasks(devices[..k], [item], {}), rows, counted)
        invariant states == StatesAfter(old(states), p, devices[..k], operation == DeletePerson, now)
      {
        var d := devices[k];
        var row, c := Prepare(d, item, {});
        JustOne(d, item, {});
        MoreAnswers(OpenSlots(operations), devices, k, [item], {}, rows, counted, row, c);
        rows, counted := rows + row, Sum(counted, c);
        assert devices[..k + 1][..k] == devices[..k];
        SetDevicePersonState(p, d.id, if operation == DeletePerson then Removed else if AgentCan(d, PersonRecord) then Awaiting else ByHand, NO_OPTIONS, now);
      }
      assert devices[..|devices|] == devices;
    }

    method CardRows(d: Device, cards: seq<Item>, held: set<int>) returns (rows: seq<Row>, counted: Counts)
      requires forall k :: 0 <= k < |cards| ==> cards[k].CardItem?
      ensures Answers(OpenSlots(operations), TasksOn(d, cards, held), rows, counted)
    {
      rows, counted := [], Counts(0, 0, 0);
      for k := 0 to |cards|
        invariant Answers(OpenSlots(operations), TasksOn(d, cards[..k], held), rows, counted)
      {
        var row, c := Prepare(d, cards[k], held);
        MoreItems(OpenSlots(operations), d, cards, k, held, rows, counted, row, c);
        rows, counted := rows + row, Sum(counted, c);
      }
      assert cards[..|cards|] == cards;
    }

    method FingerRows(d: Device, fingers: seq<Item>, held: set<int>) returns (ghost rows: seq<Row>, counted: Counts)
      requires DistinctItems(fingers) && forall k :: 0 <= k < |fingers| ==> fingers[k].FingerItem?
      modifies this`operations
      ensures operations == old(operations) + rows
      ensures Answers(old(OpenSlots(operations)), TasksOn(d, fingers, held), rows, counted)
    {
      rows, counted := [], Counts(0, 0, 0);
      ghost var was, open := operations, OpenSlots(operations);
      for k := 0 to |fingers|
        invariant operations == was + rows
        invariant Answers(open, TasksOn(d, fingers[..k], held), rows, counted)
      {
        ghost var t := TaskFor(d, fingers[k], held);
        FingerAfter(was, d, fingers, k, held);
        var c := FingerprintUploadOperation(d, fingers[k].finger, held);
        MoreItems(open, d, fingers, k, held, rows, counted, NewRows(open, [t]), c);
        rows := rows + NewRows(open, [t]);
        counted := Sum(counted, c);
      }
      assert fingers[..|fingers|] == fingers;
    }

    method CredentialRows(devices: seq<Device>, c: Credentials)
      returns (rows: seq<Row>, ghost inserted: seq<Row>, carded: Counts, fingered: Counts)
      requires Keyed(devices, c)
      modifies this`operations
      ensures operations == old(operations) + inserted
      ensures Answers(old(OpenSlots(operations)), CardTasks(devices, c), rows, carded)
      ensures Answers(old(OpenSlots(operations)), FingerTasks(devices, c), inserted, fingered)
    {
      rows, inserted, carded, fingered := [], [], Counts(0, 0, 0), Counts(0, 0, 0);
      ghost var was, open := operations, OpenSlots(operations);
      for k := 0 to |devices|
        invariant operations == was + inserted
        invariant Answers(open, CardTasks(devices[..k], c), rows, carded)
        invariant Answers(open, FingerTasks(devices[..k], c), inserted, fingered)
      {
        var row, more, n, m := CredentialsOn(devices, k, c, was);
        MoreAnswers(open, devices, k, CardItems(c.cards), c.held, rows, carded, row, n);
        MoreAnswers(open, devices, k, FingerItems(c.fingers), c.held, inserted, fingered, more, m);
        inserted := inserted + more;
        rows, carded, fingered := rows + row, Sum(carded, n), Sum(fingered, m);
      }
      assert devices[..|devices|] == devices;
    }

    method CredentialsOn(devices: seq<Device>, k: nat, c: Credentials, ghost was: seq<Row>)
      returns (rows: seq<Row>, ghost inserted: seq<Row>, carded: Counts, fingered: Counts)
      requires Keyed(devices, c) && k < |devices|
      requires operations == was + NewRows(OpenSlots(was), FingerTasks(devices[..k], c))
      modifies this`operations
      ensures operations == old(operations) + inserted
      ensures Answers(OpenSlots(was), TasksOn(devices[k], CardItems(c.cards), c.held), rows, carded)
      ensures Answers(OpenSlots(was), TasksOn(devices[k], FingerItems(c.fingers), c.held), inserted, fingered)
    {
      NextDevice(was, devices, k, c);
      rows, carded := CardRows(devices[k], CardItems(c.cards), c.held);
      inserted, fingered := FingerRows(devices[k], FingerItems(c.fingers), c.held);
    }
  
    /** Idempotent: an operation that is already open is reused. */
    method SyncPersonToDevices(p: Person, devices: seq<Device>, credentials: Option<Credentials>, now: int) returns (result: SyncResult)
      requires Keyed(devices, Included(credentials))
      modifies this
      ensures !HasNumber(p) ==> operations == old(operations) && states == old(states)
      ensures !HasNumber(p) ==> result == SyncResult(0, Counts(0, 0, 0), 0, [p.id])
      ensures HasNumber(p) ==> operations == SyncedRows(old(operations), p, devices, Included(credentials))
      ensures HasNumber(p) ==> states == StatesAfter(old(states), p, devices, false, now)
      ensures HasNumber(p) ==>
                result == SyncResult(|devices|, SyncCounts(old(OpenSlots(operations)), p, devices, Included(credentials)), 0, [])
    {
      if !HasNumber(p) {
        return SyncResult(0, Counts(0, 0, 0), 0, [p.id]);
      }
      ghost var open := OpenSlots(operations);
      var statements, counts := PersonRows(p, devices, UpsertPerson, now);
      var rows, carded, fingered := [], Counts(0, 0, 0), Counts(0, 0, 0);
      ghost var inserted := [];
      if credentials.Some? {
        rows, inserted, carded, fingered := CredentialRows(devices, credentials.value);
      } else {
        NoCredentials(open, devices);
      }
      AnswersJoin(open, PersonTasks(devices, p, UpsertPerson), CardTasks(devices, Included(credentials)), statements, rows, counts, carded);
      operations := operations + (statements + rows);
      result := SyncResult(|devices|, Sum(Sum(counts, carded), fingered), 0, []);
    }

    method RemovePersonFromDevices(p: Person, devices: seq<Device>, now: int) returns (result: SyncResult)
      requires DistinctDevices(devices)
      modifies this
      ensures !HasNumber(p) ==> operations == old(operations) && states == old(states)
      ensures !HasNumber(p) ==> result == SyncResult(0, Counts(0, 0, 0), 0, [p.id])
      ensures HasNumber(p) ==> operations == RemovedRows(old(operations), p, devices)
      ensures HasNumber(p) ==> states == StatesAfter(old(states), p, devices, true, now)
      ensures HasNumber(p) ==>
                result == SyncResult(|devices|, Tally(old(OpenSlots(operations)), PersonTasks(devices, p, DeletePerson)), |devices|, [])
    {
      if !HasNumber(p) {
        return SyncResult(0, Counts(0, 0, 0), 0, [p.id]);
      }
      var statements, counts := PersonRows(p, devices, DeletePerson, now);
      operations := operations + statements;
      result := SyncResult(|devices|, counts, |devices|, []);
    }
  }

  // ---- What a synchronisation means for the queue ----

  /** An empty employee number counts as none. */
  predicate HasNumber(p: Person) {
    p.employeeNo.Some? && p.employeeNo.value != ""
  }

  function Included(credentials: Option<Credentials>): Credentials {
    if credentials.Some? then credentials.value else NO_CREDENTIALS
  }

  lemma {:induction false} NoCredentials(open: set<Slot>, devices: seq<Device>)
    ensures CardTasks(devices, NO_CREDENTIALS) == [] && FingerTasks(devices, NO_CREDENTIALS) == []
    decreases |devices|
  {
    assert CardItems([]) == [] && FingerItems([]) == [];
    if devices != [] { NoCredentials(open, devices[..|devices| - 1]); }
  }

  function BatchTasks(p: Person, devices: seq<Device>, c: Credentials): seq<Task> {
    PersonTasks(devices, p, UpsertPerson) + CardTasks(devices, c)
  }

  function SyncedRows(rows: seq<Row>, p: Person, devices: seq<Device>, c: Credentials): seq<Row> {
    rows + NewRows(OpenSlots(rows), FingerTasks(devices, c)) + NewRows(OpenSlots(rows), BatchTasks(p, devices, c))
  }

  function SyncCounts(open: set<Slot>, p: Person, devices: seq<Device>, c: Credentials): Counts {
    Sum(Tally(open, BatchTasks(p, devices, c)), Tally(open, FingerTasks(devices, c)))
  }

  function RemovedRows(rows: seq<Row>, p: Person, devices: seq<Device>): seq<Row> {
    rows + NewRows(OpenSlots(rows), PersonTasks(devices, p, DeletePerson))
  }

  function Requests(terminals: nat, cards: nat, fingers: nat): nat {
    terminals * (1 + cards + fingers)
  }

  lemma {:induction false} RequestsSplit(n: nat, a: nat, b: nat)
    ensures n * 1 + n * a + n * b == Requests(n, a, b)
  {
  }

  lemma {:induction false} HowManyRequests(p: Person, devices: seq<Device>, c: Credentials)
    ensures |BatchTasks(p, devices, c)| + |FingerTasks(devices, c)| == Requests(|devices|, |c.cards|, |c.fingers|)
  {
    HowMany(devices, [PersonItem(UpsertPerson, p)], {});
    HowMany(devices, CardItems(c.cards), c.held);
    HowMany(devices, FingerItems(c.fingers), c.held);
    RequestsSplit(|devices|, |c.cards|, |c.fingers|);
  }

  /** Every terminal is asked for the person, each card and each finger, and every request is accounted for. */
  lemma {:induction false} SyncConserves(open: set<Slot>, p: Person, devices: seq<Device>, c: Credentials)
    ensures var n := SyncCounts(open, p, devices, c);
            n.queued + n.manual + n.skipped == Requests(|devices|, |c.cards|, |c.fingers|)
  {
    EveryTaskIsCounted(open, BatchTasks(p, devices, c));
    EveryTaskIsCounted(open, FingerTasks(devices, c));
    HowManyRequests(p, devices, c);
  }

  lemma {:induction false} BatchIsDistinct(p: Person, devices: seq<Device>, c: Credentials)
    requires Keyed(devices, c)
    ensures DistinctSlots(BatchTasks(p, devices, c)) && DistinctSlots(FingerTasks(devices, c))
    ensures Slots(BatchTasks(p, devices, c)) !! Slots(FingerTasks(devices, c))
  {
    var people, cards, fingers := PersonTasks(devices, p, UpsertPerson), CardTasks(devices, c), FingerTasks(devices, c);
    AllDistinct(devices, [PersonItem(UpsertPerson, p)], {});
    AllDistinct(devices, CardItems(c.cards), c.held);
    AllDistinct(devices, FingerItems(c.fingers), c.held);
    forall slot ensures !(slot in Slots(people) && slot in Slots(cards))
                     && !(slot in Slots(fingers) && (slot in Slots(people) || slot in Slots(cards))) {
      SubjectKinds(devices, p, UpsertPerson, c, slot);
    }
    SlotsJoin(people, cards);
  }

  /** After a synchronisation all that was asked for is open, nothing was closed, and no slot is open twice. */
  lemma {:induction false} SyncOpensEverything(rows: seq<Row>, p: Person, devices: seq<Device>, c: Credentials)
    requires Keyed(devices, c)
    ensures OpenSlots(SyncedRows(rows, p, devices, c)) ==
            OpenSlots(rows) + Slots(BatchTasks(p, devices, c)) + Slots(FingerTasks(devices, c))
    ensures AtMostOneOpen(rows) ==> AtMostOneOpen(SyncedRows(rows, p, devices, c))
  {
    var open, batch, fingers := OpenSlots(rows), BatchTasks(p, devices, c), FingerTasks(devices, c);
    BatchIsDistinct(p, devices, c);
    NewRowsOpen(rows, open, fingers);
    NewRowsOpen(rows + NewRows(open, fingers), open, batch);
  }

  /** Synchronising again at once inserts nothing and skips every request. */
  lemma {:induction false} SyncAgainInsertsNothing(rows: seq<Row>, p: Person, devices: seq<Device>, c: Credentials, after: seq<Row>)
    requires Keyed(devices, c) && after == SyncedRows(rows, p, devices, c)
    ensures SyncedRows(after, p, devices, c) == after
    ensures SyncCounts(OpenSlots(after), p, devices, c) == Counts(0, 0, Requests(|devices|, |c.cards|, |c.fingers|))
  {
    AllIsOpen(rows, p, devices, c);
    AllOpenAlready(OpenSlots(after), p, devices, c);
    NothingAdded(after, NewRows(OpenSlots(after), FingerTasks(devices, c)), NewRows(OpenSlots(after), BatchTasks(p, devices, c)));
  }

  lemma {:induction false} NothingAdded(rows: seq<Row>, a: seq<Row>, b: seq<Row>)
    requires a == [] && b == []
    ensures rows + a + b == rows
  {
  }

  lemma {:induction false} AllIsOpen(rows: seq<Row>, p: Person, devices: seq<Device>, c: Credentials)
    requires Keyed(devices, c)
    ensures Slots(BatchTasks(p, devices, c)) + Slots(FingerTasks(devices, c)) <= OpenSlots(SyncedRows(rows, p, devices, c))
  {
    SyncOpensEverything(rows, p, devices, c);
  }

  lemma {:induction false} AllOpenAlready(open: set<Slot>, p: Person, devices: seq<Device>, c: Credentials)
    requires Slots(BatchTasks(p, devices, c)) + Slots(FingerTasks(devices, c)) <= open
    ensures NewRows(open, BatchTasks(p, devices, c)) == [] && NewRows(open, FingerTasks(devices, c)) == []
    ensures SyncCounts(open, p, devices, c) == Counts(0, 0, Requests(|devices|, |c.cards|, |c.fingers|))
  {
    NothingNew(open, BatchTasks(p, devices, c));
    NothingNew(open, FingerTasks(devices, c));
    HowManyRequests(p, devices, c);
  }

  /** The same of a removal, which asks once for each terminal. */
  lemma {:induction false} RemovalIsSound(rows: seq<Row>, p: Person, devices: seq<Device>)
    requires DistinctDevices(devices)
    ensures var after := RemovedRows(rows, p, devices);
            && OpenSlots(after) == OpenSlots(rows) + Slots(PersonTasks(devices, p, DeletePerson))
            && (AtMostOneOpen(rows) ==> AtMostOneOpen(after))
            && RemovedRows(after, p, devices) == after
            && Tally(OpenSlots(after), PersonTasks(devices, p, DeletePerson)) == Counts(0, 0, |devices|)
  {
    var tasks := PersonTasks(devices, p, DeletePerson);
    AllDistinct(devices, [PersonItem(DeletePerson, p)], {});
    NewRowsOpen(rows, OpenSlots(rows), tasks);
    HowMany(devices, [PersonItem(DeletePerson, p)], {});
    NothingNew(OpenSlots(RemovedRows(rows, p, devices)), tasks);
  }

  /** The terminals' states after a call: what is expected of each, counts kept, an old error cleared, and nobody else's touched. */
  lemma {:induction false} StatesAreRecorded(states: States, p: Person, devices: seq<Device>, removal: bool, now: int, key: StateKey)
    requires DistinctDevices(devices)
    ensures var after := StatesAfter(states, p, devices, removal, now);
            && (key.kind != p.kind || key.person != p.id || !Listed(devices, key.device) ==>
                  (key in after <==> key in states) && (key in states ==> after[key] == states[key]))
            && (forall k :: 0 <= k < |devices| && key == StateKey(p.kind, p.id, devices[k].id) ==>
                  key in after && Recorded(if key in states then Some(states[key]) else None, after[key], p, devices[k], removal))
    decreases |devices|
  {
    if devices != [] {
      var n := |devices| - 1;
      StatesAreRecorded(states, p, devices[..n], removal, now, key);
      ListedInFront(devices, key.device);
      forall k | 0 <= k < n && key == StateKey(p.kind, p.id, devices[k].id) ensures devices[k].id != devices[n].id {
        assert devices[..n][k] == devices[k];
      }
    }
  }

  /** One recorded state: a count not given is kept, an operation or error not given is cleared, and only "synced" sets the time. */
  lemma StateIsRecorded(states: States, p: Person, device: string, presence: Presence, options: StateOptions, now: int, key: StateKey)
    requires key == StateKey(p.kind, p.id, device)
    ensures var after := StateAfter(states, p, device, presence, options, now);
      && after.Keys == states.Keys + {key} && (forall k :: k in states && k != key ==> after[k] == states[k])
      && var s := after[key];
         && s.presence == presence && s.employeeNo == p.employeeNo && s.name == p.name
         && s.operation == options.operation && s.error == options.error
         && (options.fingerprints.Some? ==> s.fingerprints == options.fingerprints.value)
         && (options.cards.Some? ==> s.cards == options.cards.value)
         && (options.fingerprints.None? ==> s.fingerprints == if key in states then states[key].fingerprints else 0)
         && (options.cards.None? ==> s.cards == if key in states then states[key].cards else 0)
         && (presence == Synced ==> s.syncedAt == Some(now))
         && (presence != Synced ==> s.syncedAt == if key in states then states[key].syncedAt else None)
  {
  }

  lemma ListedInFront(devices: seq<Device>, id: string)
    requires devices != []
    ensures var n := |devices| - 1; Listed(devices, id) <==> Listed(devices[..n], id) || id == devices[n].id
  {
    var n := |devices| - 1;
    if Listed(devices[..n], id) {
      var k :| 0 <= k < n && devices[..n][k].id == id;
      assert devices[k].id == id;
    }
    if Listed(devices, id) && id != devices[n].id {
      var k :| 0 <= k < |devices| && devices[k].id == id;
      assert devices[..n][k].id == id;
    }
  }

  predicate Recorded(was: Option<PersonState>, s: PersonState, p: Person, d: Device, removal: bool) {
    && s.employeeNo == p.employeeNo && s.name == p.name && s.error == None && s.operation == None
    && s.presence == (if removal then Removed else if AgentCan(d, PersonRecord) then Awaiting else ByHand)
    && (was.Some? ==> s.fingerprints == was.value.fingerprints && s.cards == was.value.cards && s.syncedAt == was.value.syncedAt)
    && (was.None? ==> s.fingerprints == 0 && s.cards == 0 && s.syncedAt == None)
  }
}
