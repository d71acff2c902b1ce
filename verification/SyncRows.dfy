/** What each row is that a synchronisation or a removal inserts. */
module SyncRows {
  import opened Base
  import opened DeviceSync
  import opened SyncPerson
  import opened SyncTables

  /** An agent that advertises nothing does cards, visitors and doors; any other exactly what it advertises; no agent, nothing. */
  lemma WhatAgentsDo(id: string, capabilities: seq<Capability>, wanted: Capability)
    ensures !AgentCan(Device(id, false, capabilities), wanted)
    ensures AgentCan(Device(id, true, []), wanted) <==> wanted in {Card, Visitor, Door}
    ensures capabilities != [] ==> (AgentCan(Device(id, true, capabilities), wanted) <==> wanted in capabilities)
  {
  }

  function Work(ready: bool): Status {
    if ready then Pending else ManualActionRequired
  }

  /** What a terminal is to be told of a person, and by whom: pending for its agent, or left to an operator. */
  ghost predicate IsPersonRow(row: Row, d: Device, p: Person, operation: Operation) {
    row == Row(d.id, operation, OfPerson(p.kind, p.id), Work(AgentCan(d, PersonRecord)))
  }

  /** A live card is upserted and any other disabled. */
  ghost predicate IsCardRow(row: Row, d: Device, card: CardRow) {
    row == Row(d.id, if card.active then UpsertCard else DisableCard, OfCard(card.id), Work(AgentCan(d, Card)))
  }

  /** A finger goes to the agent when it is active and its template is still held. */
  ghost predicate IsFingerRow(row: Row, d: Device, finger: Finger, held: set<int>) {
    row == Row(d.id, UploadFingerprint, OfFinger(finger.id), Work(AgentCan(d, Fingerprint) && finger.active && finger.slot in held))
  }

  ghost predicate IsDue(row: Row, d: Device, p: Person, c: Credentials) {
    || IsPersonRow(row, d, p, UpsertPerson)
    || (exists k :: 0 <= k < |c.cards| && IsCardRow(row, d, c.cards[k]))
    || (exists k :: 0 <= k < |c.fingers| && IsFingerRow(row, d, c.fingers[k], c.held))
  }

  predicate OnFinger(operation: Operation) {
    operation == UploadFingerprint || operation == DeleteFingerprint
  }

  /** The same work, or for a finger either work, is waiting, sent or with an operator. */
  ghost predicate Standing(rows: seq<Row>, row: Row) {
    exists i :: 0 <= i < |rows| && rows[i].status in {Pending, Sent, ManualActionRequired} && Alike(rows[i], row)
  }

  predicate Alike(a: Row, b: Row) {
    a.device == b.device && a.subject == b.subject && (a.operation == b.operation || (OnFinger(a.operation) && OnFinger(b.operation)))
  }

  lemma {:induction false} StandingIsOpen(rows: seq<Row>, row: Row)
    ensures Standing(rows, row) <==> SlotOf(row) in OpenSlots(rows)
  {
    OpenSlotsHas(rows, SlotOf(row));
    forall i | 0 <= i < |rows| ensures Alike(rows[i], row) <==> SlotOf(rows[i]) == SlotOf(row) {
    }
  }

  // ---- From tasks to rows ----

  ghost predicate Among(tasks: seq<Task>, row: Row) {
    exists j :: 0 <= j < |tasks| && row == RowOf(tasks[j])
  }

  lemma {:induction false} RowFromTask(open: set<Slot>, tasks: seq<Task>, row: Row)
    ensures row in NewRows(open, tasks) <==> SlotOf(row) !in open && Among(tasks, row)
    decreases |tasks|
  {
    if tasks != [] {
      var n := |tasks| - 1;
      RowFromTask(open, tasks[..n], row);
      AmongJoin(tasks[..n], [tasks[n]], row);
      AmongOne(tasks[n], row);
      assert tasks == tasks[..n] + [tasks[n]];
    }
  }

  lemma {:induction false} AmongOne(t: Task, row: Row)
    ensures Among([t], row) <==> row == RowOf(t)
  {
    assert row == RowOf(t) ==> row == RowOf([t][0]);
  }

  lemma {:induction false} TaskOn(d: Device, items: seq<Item>, held: set<int>, j: nat)
    requires j < |items|
    ensures |TasksOn(d, items, held)| == |items| && TasksOn(d, items, held)[j] == TaskFor(d, items[j], held)
    decreases |items|
  {
    HowManyOn(d, items, held);
    var n := |items| - 1;
    HowManyOn(d, items[..n], held);
    if j < n { TaskOn(d, items[..n], held, j); }
  }

  ghost predicate AtSome(row: Row, devices: seq<Device>, items: seq<Item>, held: set<int>) {
    exists i :: 0 <= i < |devices| && FromItem(row, devices[i], items, held)
  }

  lemma {:induction false} AtSomeMore(row: Row, devices: seq<Device>, items: seq<Item>, held: set<int>, n: nat)
    requires |devices| == n + 1
    ensures AtSome(row, devices, items, held) <==> AtSome(row, devices[..n], items, held) || FromItem(row, devices[n], items, held)
  {
    if i :| 0 <= i < |devices| && FromItem(row, devices[i], items, held) {
      if i < n { assert FromItem(row, devices[..n][i], items, held); }
    }
    if i :| 0 <= i < n && FromItem(row, devices[..n][i], items, held) {
      assert FromItem(row, devices[i], items, held);
    }
  }

  /** Every terminal is given every item, and nothing else is given. */
  lemma {:induction false} RowFromItem(devices: seq<Device>, items: seq<Item>, held: set<int>, row: Row)
    ensures Among(AllTasks(devices, items, held), row) <==> AtSome(row, devices, items, held)
    decreases |devices|
  {
    if devices != [] {
      var n := |devices| - 1;
      RowFromItem(devices[..n], items, held, row);
      RowOnDevice(devices[n], items, held, row);
      AmongJoin(AllTasks(devices[..n], items, held), TasksOn(devices[n], items, held), row);
      AtSomeMore(row, devices, items, held, n);
    }
  }

  ghost predicate FromItem(row: Row, d: Device, items: seq<Item>, held: set<int>) {
    exists k :: 0 <= k < |items| && row == RowOf(TaskFor(d, items[k], held))
  }

  lemma {:induction false} AmongJoin(a: seq<Task>, b: seq<Task>, row: Row)
    ensures Among(a + b, row) <==> Among(a, row) || Among(b, row)
  {
    if j :| 0 <= j < |a| && row == RowOf(a[j]) { assert row == RowOf((a + b)[j]); }
    if j :| 0 <= j < |b| && row == RowOf(b[j]) { assert row == RowOf((a + b)[|a| + j]); }
  }

  lemma {:induction false} RowOnDevice(d: Device, items: seq<Item>, held: set<int>, row: Row)
    ensures Among(TasksOn(d, items, held), row) <==> FromItem(row, d, items, held)
  {
    HowManyOn(d, items, held);
    forall j | 0 <= j < |items| ensures TasksOn(d, items, held)[j] == TaskFor(d, items[j], held) {
      TaskOn(d, items, held, j);
    }
  }

  lemma {:induction false} NewRowIff(open: set<Slot>, devices: seq<Device>, items: seq<Item>, held: set<int>, row: Row)
    ensures row in NewRows(open, AllTasks(devices, items, held)) <==> SlotOf(row) !in open && AtSome(row, devices, items, held)
  {
    RowFromTask(open, AllTasks(devices, items, held), row);
    RowFromItem(devices, items, held, row);
  }

  lemma {:induction false} PersonIsItem(row: Row, d: Device, p: Person, operation: Operation)
    ensures FromItem(row, d, [PersonItem(operation, p)], {}) <==> IsPersonRow(row, d, p, operation)
  {
    var items := [PersonItem(operation, p)];
    assert row == RowOf(TaskFor(d, items[0], {})) <==> IsPersonRow(row, d, p, operation);
  }

  lemma {:induction false} CardIsItem(row: Row, d: Device, c: Credentials)
    ensures FromItem(row, d, CardItems(c.cards), c.held) <==> exists k :: 0 <= k < |c.cards| && IsCardRow(row, d, c.cards[k])
  {
    forall k | 0 <= k < |c.cards|
      ensures row == RowOf(TaskFor(d, CardItems(c.cards)[k], c.held)) <==> IsCardRow(row, d, c.cards[k]) {
    }
  }

  lemma {:induction false} FingerIsItem(row: Row, d: Device, c: Credentials)
    ensures FromItem(row, d, FingerItems(c.fingers), c.held) <==> exists k :: 0 <= k < |c.fingers| && IsFingerRow(row, d, c.fingers[k], c.held)
  {
    forall k | 0 <= k < |c.fingers|
      ensures row == RowOf(TaskFor(d, FingerItems(c.fingers)[k], c.held)) <==> IsFingerRow(row, d, c.fingers[k], c.held) {
    }
  }

  /** What is due at a terminal is what its items come to. */
  lemma {:induction false} DueFromItems(row: Row, d: Device, p: Person, c: Credentials)
    ensures IsDue(row, d, p, c) <==>
      || FromItem(row, d, [PersonItem(UpsertPerson, p)], {})
      || FromItem(row, d, CardItems(c.cards), c.held)
      || FromItem(row, d, FingerItems(c.fingers), c.held)
  {
    PersonIsItem(row, d, p, UpsertPerson);
    CardIsItem(row, d, c);
    FingerIsItem(row, d, c);
  }

  // ---- Main results ----

  /**
   * A synchronisation keeps every row, and adds exactly these: for each listed terminal the person, each
   * card and each finger, under the operation and the status that belong to it, unless the same work is
   * already standing.
   */
  lemma {:induction false} SyncAddsExactly(rows: seq<Row>, p: Person, devices: seq<Device>, c: Credentials, row: Row)
    ensures rows <= SyncedRows(rows, p, devices, c)
    ensures row in SyncedRows(rows, p, devices, c)[|rows|..] <==>
      !Standing(rows, row) && exists i :: 0 <= i < |devices| && IsDue(row, devices[i], p, c)
  {
    var open := OpenSlots(rows);
    var fingers, batch := NewRows(open, FingerTasks(devices, c)), NewRows(open, BatchTasks(p, devices, c));
    StandingIsOpen(rows, row);
    Behind(rows, fingers, batch);
    NewRowsJoin(open, PersonTasks(devices, p, UpsertPerson), CardTasks(devices, c));
    NewRowIff(open, devices, FingerItems(c.fingers), c.held, row);
    NewRowIff(open, devices, CardItems(c.cards), c.held, row);
    NewRowIff(open, devices, [PersonItem(UpsertPerson, p)], {}, row);
    forall i | 0 <= i < |devices|
      ensures IsDue(row, devices[i], p, c) <==>
        || FromItem(row, devices[i], [PersonItem(UpsertPerson, p)], {})
        || FromItem(row, devices[i], CardItems(c.cards), c.held)
        || FromItem(row, devices[i], FingerItems(c.fingers), c.held)
    {
      DueFromItems(row, devices[i], p, c);
    }
  }

  /** A removal keeps every row, and adds exactly the deletion of the person at each listed terminal, unless it is standing. */
  lemma {:induction false} RemovalAddsExactly(rows: seq<Row>, p: Person, devices: seq<Device>, row: Row)
    ensures rows <= RemovedRows(rows, p, devices)
    ensures row in RemovedRows(rows, p, devices)[|rows|..] <==>
      !Standing(rows, row) && exists i :: 0 <= i < |devices| && IsPersonRow(row, devices[i], p, DeletePerson)
  {
    var open := OpenSlots(rows);
    StandingIsOpen(rows, row);
    assert RemovedRows(rows, p, devices)[|rows|..] == NewRows(open, PersonTasks(devices, p, DeletePerson));
    NewRowIff(open, devices, [PersonItem(DeletePerson, p)], {}, row);
    forall i | 0 <= i < |devices|
      ensures FromItem(row, devices[i], [PersonItem(DeletePerson, p)], {}) <==> IsPersonRow(row, devices[i], p, DeletePerson)
    {
      PersonIsItem(row, devices[i], p, DeletePerson);
    }
  }

  // ---- What the counts count ----

  function HowMany(rows: seq<Row>, status: Status): nat {
    if rows == [] then 0
    else HowMany(rows[..|rows| - 1], status) + (if rows[|rows| - 1].status == status then 1 else 0)
  }

  lemma {:induction false} HowManyMore(rows: seq<Row>, row: Row, status: Status)
    ensures HowMany(rows + [row], status) == HowMany(rows, status) + (if row.status == status then 1 else 0)
  {
    assert (rows + [row])[..|rows|] == rows;
  }

  lemma {:induction false} HowManyJoin(a: seq<Row>, b: seq<Row>, status: Status)
    ensures HowMany(a + b, status) == HowMany(a, status) + HowMany(b, status)
    decreases |b|
  {
    if b == [] {
      assert a + b == a;
    } else {
      var n := |b| - 1;
      HowManyJoin(a, b[..n], status);
      HowManyMore(a + b[..n], b[n], status);
      assert a + b == a + b[..n] + [b[n]];
    }
  }

  ghost predicate CountsOf(n: Counts, added: seq<Row>, asked: int) {
    n.queued == HowMany(added, Pending) && n.manual == HowMany(added, ManualActionRequired) && n.skipped == asked - |added|
  }

  lemma {:induction false} CountsOneMore(n: Counts, rows: seq<Row>, asked: int, row: Row, ready: bool)
    requires CountsOf(n, rows, asked) && row.status == Work(ready)
    ensures CountsOf(Count(n, false, ready), rows + [row], asked + 1)
  {
    HowManyMore(rows, row, Pending);
    HowManyMore(rows, row, ManualActionRequired);
  }

  lemma {:induction false} CountsOfTasks(open: set<Slot>, tasks: seq<Task>)
    ensures CountsOf(Tally(open, tasks), NewRows(open, tasks), |tasks|)
    decreases |tasks|
  {
    if tasks != [] {
      var front, t := tasks[..|tasks| - 1], tasks[|tasks| - 1];
      CountsOfTasks(open, front);
      if TaskSlot(t) !in open { CountsOneMore(Tally(open, front), NewRows(open, front), |front|, RowOf(t), t.ready); }
    }
  }

  lemma {:induction false} CountsJoin(n: Counts, a: seq<Row>, asked: int, m: Counts, b: seq<Row>, more: int)
    requires CountsOf(n, a, asked) && CountsOf(m, b, more)
    ensures CountsOf(Sum(m, n), a + b, asked + more)
  {
    HowManyJoin(a, b, Pending);
    HowManyJoin(a, b, ManualActionRequired);
  }

  lemma {:induction false} Behind(rows: seq<Row>, a: seq<Row>, b: seq<Row>)
    ensures (rows + a + b)[|rows|..] == a + b
  {
  }

  /** A synchronisation reports as queued the rows it left to agents, as manual those left to operators, and the rest as skipped. */
  lemma {:induction false} SyncCountsItsRows(rows: seq<Row>, p: Person, devices: seq<Device>, c: Credentials)
    ensures CountsOf(SyncCounts(OpenSlots(rows), p, devices, c), SyncedRows(rows, p, devices, c)[|rows|..],
                     Requests(|devices|, |c.cards|, |c.fingers|))
  {
    var open, fingers, batch := OpenSlots(rows), FingerTasks(devices, c), BatchTasks(p, devices, c);
    Behind(rows, NewRows(open, fingers), NewRows(open, batch));
    CountsOfTasks(open, fingers);
    CountsOfTasks(open, batch);
    CountsJoin(Tally(open, fingers), NewRows(open, fingers), |fingers|, Tally(open, batch), NewRows(open, batch), |batch|);
    HowManyRequests(p, devices, c);
  }

  /** The same of a removal, which asks once of each terminal. */
  lemma {:induction false} RemovalCountsItsRows(rows: seq<Row>, p: Person, devices: seq<Device>)
    ensures CountsOf(Tally(OpenSlots(rows), PersonTasks(devices, p, DeletePerson)), RemovedRows(rows, p, devices)[|rows|..], |devices|)
  {
    var open, tasks := OpenSlots(rows), PersonTasks(devices, p, DeletePerson);
    assert RemovedRows(rows, p, devices)[|rows|..] == NewRows(open, tasks);
    CountsOfTasks(open, tasks);
    SyncPerson.HowMany(devices, [PersonItem(DeletePerson, p)], {});
  }
}
