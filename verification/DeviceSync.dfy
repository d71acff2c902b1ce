/** The queue of work for terminals: what a synchronisation asks for, and what it inserts. */
module DeviceSync {
  import opened Base

  datatype Kind = Account | Dependant

  datatype Capability = Card | PersonRecord | Fingerprint | Door | Visitor | Other(name: string)

  datatype Device = Device(id: string, hasAgent: bool, capabilities: seq<Capability>)

  datatype Person = Person(kind: Kind, id: string, name: string, employeeNo: Option<string>)

  datatype CardRow = CardRow(id: string, active: bool)

  datatype Finger = Finger(id: string, slot: int, active: bool)

  datatype Operation = UpsertPerson | DeletePerson | UpsertCard | DisableCard | UploadFingerprint | DeleteFingerprint

  datatype Subject = OfPerson(kind: Kind, id: string) | OfCard(id: string) | OfFinger(id: string)

  datatype Status = Pending | Sent | ManualActionRequired | Applied | Failed

  datatype Row = Row(device: string, operation: Operation, subject: Subject, status: Status)

  /** An agent that advertises nothing predates capabilities and keeps getting cards, visitors and door commands. */
  predicate AgentCan(device: Device, capability: Capability) {
    device.hasAgent
    && (if device.capabilities == [] then capability == Card || capability == Visitor || capability == Door
        else capability in device.capabilities)
  }

  // ---- Slots: work of which one piece at most may be open ----

  /** Both fingerprint operations share a slot; of persons and cards, each operation has its own. */
  datatype Slot = Slot(device: string, subject: Subject, operation: Operation)

  function SlotFor(device: string, operation: Operation, subject: Subject): Slot {
    Slot(device, subject, if operation == DeleteFingerprint then UploadFingerprint else operation)
  }

  function SlotOf(row: Row): Slot {
    SlotFor(row.device, row.operation, row.subject)
  }

  predicate IsOpen(status: Status) {
    status == Pending || status == Sent || status == ManualActionRequired
  }

  function OpenSlots(rows: seq<Row>): set<Slot> {
    if rows == [] then {}
    else
      var front, last := OpenSlots(rows[..|rows| - 1]), rows[|rows| - 1];
      if IsOpen(last.status) then front + {SlotOf(last)} else front
  }

  /** No two open operations are for the same slot. */
  predicate AtMostOneOpen(rows: seq<Row>) {
    forall i, j :: 0 <= i < j < |rows| && IsOpen(rows[i].status) && IsOpen(rows[j].status) ==> SlotOf(rows[i]) != SlotOf(rows[j])
  }

  lemma {:induction false} OpenSlotsHas(rows: seq<Row>, slot: Slot)
    ensures slot in OpenSlots(rows) <==> exists i :: 0 <= i < |rows| && IsOpen(rows[i].status) && SlotOf(rows[i]) == slot
    decreases |rows|
  {
    if rows != [] {
      var front, last := rows[..|rows| - 1], rows[|rows| - 1];
      OpenSlotsHas(front, slot);
      if slot in OpenSlots(front) {
        var i :| 0 <= i < |front| && IsOpen(front[i].status) && SlotOf(front[i]) == slot;
        assert rows[i] == front[i];
      }
      if i :| 0 <= i < |rows| && IsOpen(rows[i].status) && SlotOf(rows[i]) == slot {
        if i < |front| { assert front[i] == rows[i]; }
      }
    }
  }

  // ---- What a call asks for, and the rows that answer it ----

  datatype Task = Task(device: string, operation: Operation, subject: Subject, ready: bool)

  function TaskSlot(t: Task): Slot {
    SlotFor(t.device, t.operation, t.subject)
  }

  function RowOf(t: Task): Row {
    Row(t.device, t.operation, t.subject, if t.ready then Pending else ManualActionRequired)
  }

  /** One row for each task whose slot is not open. */
  function NewRows(open: set<Slot>, tasks: seq<Task>): seq<Row> {
    if tasks == [] then []
    else
      var front, last := NewRows(open, tasks[..|tasks| - 1]), tasks[|tasks| - 1];
      if TaskSlot(last) in open then front else front + [RowOf(last)]
  }

  datatype Counts = Counts(queued: nat, manual: nat, skipped: nat)

  function Count(c: Counts, open: bool, ready: bool): Counts {
    if open then c.(skipped := c.skipped + 1)
    else if ready then c.(queued := c.queued + 1) else c.(manual := c.manual + 1)
  }

  function Tally(open: set<Slot>, tasks: seq<Task>): Counts {
    if tasks == [] then Counts(0, 0, 0)
    else
      var last := tasks[|tasks| - 1];
      Count(Tally(open, tasks[..|tasks| - 1]), TaskSlot(last) in open, last.ready)
  }

  function Slots(tasks: seq<Task>): set<Slot> {
    if tasks == [] then {} else Slots(tasks[..|tasks| - 1]) + {TaskSlot(tasks[|tasks| - 1])}
  }

  predicate DistinctSlots(tasks: seq<Task>) {
    tasks == [] || (DistinctSlots(tasks[..|tasks| - 1]) && TaskSlot(tasks[|tasks| - 1]) !in Slots(tasks[..|tasks| - 1]))
  }

  lemma {:induction false} TaskMore(open: set<Slot>, tasks: seq<Task>, t: Task)
    ensures NewRows(open, tasks + [t]) == NewRows(open, tasks) + (if TaskSlot(t) in open then [] else [RowOf(t)])
    ensures Tally(open, tasks + [t]) == Count(Tally(open, tasks), TaskSlot(t) in open, t.ready)
    ensures Slots(tasks + [t]) == Slots(tasks) + {TaskSlot(t)}
    ensures DistinctSlots(tasks + [t]) <==> DistinctSlots(tasks) && TaskSlot(t) !in Slots(tasks)
  {
    assert (tasks + [t])[..|tasks|] == tasks;
  }

  // ---- What holds of any list of tasks ----

  /** Every task is counted once: queued for an agent, left to an operator, or skipped. */
  lemma {:induction false} EveryTaskIsCounted(open: set<Slot>, tasks: seq<Task>)
    ensures var c := Tally(open, tasks);
            c.queued + c.manual + c.skipped == |tasks| && |NewRows(open, tasks)| == c.queued + c.manual
    decreases |tasks|
  {
    if tasks != [] { EveryTaskIsCounted(open, tasks[..|tasks| - 1]); }
  }

  lemma {:induction false} RowMore(rows: seq<Row>, row: Row)
    ensures OpenSlots(rows + [row]) == OpenSlots(rows) + (if IsOpen(row.status) then {SlotOf(row)} else {})
  {
    assert (rows + [row])[..|rows|] == rows;
  }

  lemma {:induction false} OneMoreOpen(rows: seq<Row>, row: Row)
    requires AtMostOneOpen(rows) && SlotOf(row) !in OpenSlots(rows)
    ensures AtMostOneOpen(rows + [row])
  {
    OpenSlotsHas(rows, SlotOf(row));
  }

  /** The new rows open exactly the slots that were asked for and not open, each once. */
  lemma {:induction false} NewRowsOpen(rows: seq<Row>, open: set<Slot>, tasks: seq<Task>)
    requires OpenSlots(rows) * Slots(tasks) <= open
    ensures OpenSlots(rows + NewRows(open, tasks)) == OpenSlots(rows) + (Slots(tasks) - open)
    ensures AtMostOneOpen(rows) && DistinctSlots(tasks) ==> AtMostOneOpen(rows + NewRows(open, tasks))
    decreases |tasks|
  {
    if tasks == [] {
      assert rows + NewRows(open, tasks) == rows;
    } else {
      var front, t := tasks[..|tasks| - 1], tasks[|tasks| - 1];
      NewRowsOpen(rows, open, front);
      if TaskSlot(t) !in open {
        var before := rows + NewRows(open, front);
        assert rows + NewRows(open, tasks) == before + [RowOf(t)];
        RowMore(before, RowOf(t));
        if AtMostOneOpen(rows) && DistinctSlots(tasks) { OneMoreOpen(before, RowOf(t)); }
      }
    }
  }

  /** Tasks whose slots are all open insert nothing and are all skipped. */
  lemma {:induction false} NothingNew(open: set<Slot>, tasks: seq<Task>)
    requires Slots(tasks) <= open
    ensures NewRows(open, tasks) == [] && Tally(open, tasks) == Counts(0, 0, |tasks|)
    decreases |tasks|
  {
    if tasks != [] { NothingNew(open, tasks[..|tasks| - 1]); }
  }
}
