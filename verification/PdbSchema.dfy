/** The provenance schema over five linked tables, and inserting an anomaly with everything it refers to. */
module PdbSchema {
  import opened DuckdbTable
  import opened Wrappers

  // Cell contents are given as text.

  datatype EventEntry = EventEntry(entry: string, exit: string, fid: string)

  datatype CallStackEntry = CallStackEntry(id: string, event: EventEntry)

  datatype CounterEntry = CounterEntry(
    idx: string, value: string, timestamp: string, pid: string, rid: string, tid: string)

  datatype IoStepEntry = IoStepEntry(ioStep: string, pid: string, rid: string, tstart: string, tend: string)

  datatype AnomalyEntry = AnomalyEntry(
    eventId: string, entry: string, exit: string, fid: string, pid: string, rid: string, tid: string,
    ioStepIndex: string, runtimeExclusive: string, outlierScore: string, outlierSeverity: string,
    callStack: seq<CallStackEntry>, counters: seq<CounterEntry>, ioStep: IoStepEntry)

  const ANOMALIES := ["event_id", "entry", "exit", "fid", "pid", "rid", "tid", "io_step_index",
                      "runtime_exclusive", "outlier_score", "outlier_severity"]
  const CALL_STACKS := ["event_key", "call_stack_entry_event_id"]
  const EVENTS := ["call_stack_entry_event_id", "entry", "exit", "fid"]
  const COUNTER_VALUES := ["event_id", "counter_idx", "counter_value", "timestamp", "pid", "rid", "tid"]
  const IO_STEPS := ["io_step_index", "io_step", "pid", "rid", "io_step_tstart", "io_step_tend"]

  // ---------- The database as rows of text ----------

  type Row = seq<Option<string>>

  datatype Database = Database(
    anomalies: seq<Row>, callStacks: seq<Row>, events: seq<Row>, counters: seq<Row>, ioSteps: seq<Row>)

  function Filled(contents: seq<string>): (row: Row)
    ensures |row| == |contents|
  {
    seq(|contents|, c requires 0 <= c < |contents| => Some(contents[c]))
  }

  function AnomalyCells(e: AnomalyEntry): (cells: seq<string>)
    ensures |cells| == 11
  {
    [e.eventId, e.entry, e.exit, e.fid, e.pid, e.rid, e.tid, e.ioStepIndex,
     e.runtimeExclusive, e.outlierScore, e.outlierSeverity]
  }

  function CallStackCells(e: AnomalyEntry, c: CallStackEntry): (cells: seq<string>)
    ensures |cells| == 2
  {
    [e.eventId, c.id]
  }

  function EventCells(c: CallStackEntry): (cells: seq<string>)
    ensures |cells| == 4
  {
    [c.id, c.event.entry, c.event.exit, c.event.fid]
  }

  function CounterCells(e: AnomalyEntry, c: CounterEntry): (cells: seq<string>)
    ensures |cells| == 7
  {
    [e.eventId, c.idx, c.value, c.timestamp, c.pid, c.rid, c.tid]
  }

  function IoStepCells(e: AnomalyEntry): (cells: seq<string>)
    ensures |cells| == 6
  {
    [e.ioStepIndex, e.ioStep.ioStep, e.ioStep.pid, e.ioStep.rid, e.ioStep.tstart, e.ioStep.tend]
  }

  function CallStackRows(e: AnomalyEntry, n: nat): (rows: seq<Row>)
    requires n <= |e.callStack|
  {
    seq(n, i requires 0 <= i < n => Filled(CallStackCells(e, e.callStack[i])))
  }

  function EventRows(e: AnomalyEntry, n: nat): (rows: seq<Row>)
    requires n <= |e.callStack|
  {
    seq(n, i requires 0 <= i < n => Filled(EventCells(e.callStack[i])))
  }

  function CounterRows(e: AnomalyEntry, n: nat): (rows: seq<Row>)
    requires n <= |e.counters|
  {
    seq(n, i requires 0 <= i < n => Filled(CounterCells(e, e.counters[i])))
  }

  function Inserted(db: Database, e: AnomalyEntry): (r: Database) {
    Database(
      db.anomalies + [Filled(AnomalyCells(e))],
      db.callStacks + CallStackRows(e, |e.callStack|),
      db.events + EventRows(e, |e.callStack|),
      db.counters + CounterRows(e, |e.counters|),
      db.ioSteps + [Filled(IoStepCells(e))])
  }

  // ---------- Referential integrity ----------

  /** Column 0 of some row of the table holds the key. */
  ghost predicate Resolves(rows: seq<Row>, key: Option<string>) {
    exists i :: 0 <= i < |rows| && |rows[i]| > 0 && rows[i][0] == key
  }

  /**
   Every event key and counter event id is the id of an anomaly, every anomaly's io step is recorded beside it,
   and call stack rows and the events they name correspond one to one.
   */
  ghost predicate Linked(db: Database) {
    && (forall i | 0 <= i < |db.callStacks| :: |db.callStacks[i]| == 2 && Resolves(db.anomalies, db.callStacks[i][0]))
    && (forall i | 0 <= i < |db.counters| :: |db.counters[i]| == 7 && Resolves(db.anomalies, db.counters[i][0]))
    && |db.events| == |db.callStacks|
    && (forall i | 0 <= i < |db.events| :: |db.events[i]| == 4 && db.events[i][0] == db.callStacks[i][1])
    && |db.ioSteps| == |db.anomalies|
    && (forall i | 0 <= i < |db.anomalies| ::
          |db.anomalies[i]| == 11 && |db.ioSteps[i]| == 6 && db.ioSteps[i][0] == db.anomalies[i][7])
  }

  lemma StillResolves(rows: seq<Row>, added: Row, key: Option<string>)
    requires Resolves(rows, key) || (|added| > 0 && added[0] == key)
    ensures Resolves(rows + [added], key)
  {
    var all := rows + [added];
    if Resolves(rows, key) {
      var i :| 0 <= i < |rows| && |rows[i]| > 0 && rows[i][0] == key;
      assert all[i] == rows[i];
    } else {
      assert all[|rows|] == added;
    }
  }

  lemma InsertedStaysLinked(db: Database, e: AnomalyEntry)
    requires Linked(db)
    ensures Linked(Inserted(db, e))
  {
    hide Resolves;
    var r := Inserted(db, e);
    var anomaly := Filled(AnomalyCells(e));
    forall i | 0 <= i < |r.callStacks| ensures |r.callStacks[i]| == 2 && Resolves(r.anomalies, r.callStacks[i][0]) {
      assert i < |db.callStacks| ==> r.callStacks[i] == db.callStacks[i];
      StillResolves(db.anomalies, anomaly, r.callStacks[i][0]);
    }
    forall i | 0 <= i < |r.counters| ensures |r.counters[i]| == 7 && Resolves(r.anomalies, r.counters[i][0]) {
      assert i < |db.counters| ==> r.counters[i] == db.counters[i];
      StillResolves(db.anomalies, anomaly, r.counters[i][0]);
    }
  }

  function InsertedAll(db: Database, entries: seq<AnomalyEntry>): (r: Database) {
    if entries == [] then db else Inserted(InsertedAll(db, entries[..|entries| - 1]), entries[|entries| - 1])
  }

  const EMPTY := Database([], [], [], [], [])

  /** Starting from empty tables, every reference resolves after any sequence of inserts. */
  lemma {:induction false} EveryReferenceResolves(entries: seq<AnomalyEntry>)
    ensures Linked(InsertedAll(EMPTY, entries))
    decreases |entries|
  {
    if entries != [] {
      hide Linked, Inserted;
      EveryReferenceResolves(entries[..|entries| - 1]);
      InsertedStaysLinked(InsertedAll(EMPTY, entries[..|entries| - 1]), entries[|entries| - 1]);
    }
  }

  // ---------- Cells by column name ----------

  /** The row has the content in the column of that name. */
  ghost predicate Holds(row: Row, names: seq<string>, name: string, content: string) {
    |row| == |names| && exists c :: 0 <= c < |names| && names[c] == name && row[c] == Some(content)
  }

  lemma HoldsAt(row: Row, names: seq<string>, c: nat, content: string)
    requires |row| == |names| && c < |names| && row[c] == Some(content)
    ensures Holds(row, names, names[c], content)
  {
  }

  lemma AnomalyRow(e: AnomalyEntry)
    ensures var row := Filled(AnomalyCells(e));
      && Holds(row, ANOMALIES, "event_id", e.eventId) && Holds(row, ANOMALIES, "entry", e.entry)
      && Holds(row, ANOMALIES, "exit", e.exit) && Holds(row, ANOMALIES, "fid", e.fid)
      && Holds(row, ANOMALIES, "pid", e.pid) && Holds(row, ANOMALIES, "rid", e.rid)
      && Holds(row, ANOMALIES, "tid", e.tid)
  {
    hide Holds;
    var row := Filled(AnomalyCells(e));
    HoldsAt(row, ANOMALIES, 0, e.eventId);
    HoldsAt(row, ANOMALIES, 1, e.entry);
    HoldsAt(row, ANOMALIES, 2, e.exit);
    HoldsAt(row, ANOMALIES, 3, e.fid);
    HoldsAt(row, ANOMALIES, 4, e.pid);
    HoldsAt(row, ANOMALIES, 5, e.rid);
    HoldsAt(row, ANOMALIES, 6, e.tid);
  }

  lemma AnomalyScores(e: AnomalyEntry)
    ensures var row := Filled(AnomalyCells(e));
      && Holds(row, ANOMALIES, "io_step_index", e.ioStepIndex)
      && Holds(row, ANOMALIES, "runtime_exclusive", e.runtimeExclusive)
      && Holds(row, ANOMALIES, "outlier_score", e.outlierScore)
      && Holds(row, ANOMALIES, "outlier_severity", e.outlierSeverity)
  {
    hide Holds;
    var row := Filled(AnomalyCells(e));
    HoldsAt(row, ANOMALIES, 7, e.ioStepIndex);
    HoldsAt(row, ANOMALIES, 8, e.runtimeExclusive);
    HoldsAt(row, ANOMALIES, 9, e.outlierScore);
    HoldsAt(row, ANOMALIES, 10, e.outlierSeverity);
  }

  /** The row an insert adds to the anomalies holds each field in the column named after it. */
  lemma AnomalyByName(db: Database, e: AnomalyEntry)
    ensures var rows := Inserted(db, e).anomalies;
      |rows| == |db.anomalies| + 1 && rows[..|db.anomalies|] == db.anomalies &&
      var row := rows[|db.anomalies|];
      && Holds(row, ANOMALIES, "event_id", e.eventId) && Holds(row, ANOMALIES, "entry", e.entry)
      && Holds(row, ANOMALIES, "exit", e.exit) && Holds(row, ANOMALIES, "fid", e.fid)
      && Holds(row, ANOMALIES, "pid", e.pid) && Holds(row, ANOMALIES, "rid", e.rid)
      && Holds(row, ANOMALIES, "tid", e.tid) && Holds(row, ANOMALIES, "io_step_index", e.ioStepIndex)
      && Holds(row, ANOMALIES, "runtime_exclusive", e.runtimeExclusive)
      && Holds(row, ANOMALIES, "outlier_score", e.outlierScore)
      && Holds(row, ANOMALIES, "outlier_severity", e.outlierSeverity)
  {
    hide Holds, Filled, AnomalyCells;
    AnomalyRow(e);
    AnomalyScores(e);
  }

  /** The rows an insert adds for the call stack, entry by entry, and the events they name. */
  lemma CallStackByName(db: Database, e: AnomalyEntry, i: nat)
    requires i < |e.callStack|
    ensures var stacks, events, c := Inserted(db, e).callStacks, Inserted(db, e).events, e.callStack[i];
      |stacks| == |db.callStacks| + |e.callStack| && |events| == |db.events| + |e.callStack| &&
      var stack, event := stacks[|db.callStacks| + i], events[|db.events| + i];
      && Holds(stack, CALL_STACKS, "event_key", e.eventId)
      && Holds(stack, CALL_STACKS, "call_stack_entry_event_id", c.id)
      && Holds(event, EVENTS, "call_stack_entry_event_id", c.id) && Holds(event, EVENTS, "entry", c.event.entry)
      && Holds(event, EVENTS, "exit", c.event.exit) && Holds(event, EVENTS, "fid", c.event.fid)
  {
    hide Holds;
    var c := e.callStack[i];
    var stack, event := Filled(CallStackCells(e, c)), Filled(EventCells(c));
    HoldsAt(stack, CALL_STACKS, 0, e.eventId);
    HoldsAt(stack, CALL_STACKS, 1, c.id);
    HoldsAt(event, EVENTS, 0, c.id);
    HoldsAt(event, EVENTS, 1, c.event.entry);
    HoldsAt(event, EVENTS, 2, c.event.exit);
    HoldsAt(event, EVENTS, 3, c.event.fid);
  }

  lemma CounterByName(db: Database, e: AnomalyEntry, i: nat)
    requires i < |e.counters|
    ensures var rows, c := Inserted(db, e).counters, e.counters[i];
      |rows| == |db.counters| + |e.counters| &&
      var row := rows[|db.counters| + i];
      && Holds(row, COUNTER_VALUES, "event_id", e.eventId) && Holds(row, COUNTER_VALUES, "counter_idx", c.idx)
      && Holds(row, COUNTER_VALUES, "counter_value", c.value) && Holds(row, COUNTER_VALUES, "timestamp", c.timestamp)
      && Holds(row, COUNTER_VALUES, "pid", c.pid) && Holds(row, COUNTER_VALUES, "rid", c.rid)
      && Holds(row, COUNTER_VALUES, "tid", c.tid)
  {
    hide Holds;
    var c := e.counters[i];
    var row := Filled(CounterCells(e, c));
    HoldsAt(row, COUNTER_VALUES, 0, e.eventId);
    HoldsAt(row, COUNTER_VALUES, 1, c.idx);
    HoldsAt(row, COUNTER_VALUES, 2, c.value);
    HoldsAt(row, COUNTER_VALUES, 3, c.timestamp);
    HoldsAt(row, COUNTER_VALUES, 4, c.pid);
    HoldsAt(row, COUNTER_VALUES, 5, c.rid);
    HoldsAt(row, COUNTER_VALUES, 6, c.tid);
  }

  lemma IoStepByName(db: Database, e: AnomalyEntry)
    ensures var rows := Inserted(db, e).ioSteps;
      |rows| == |db.ioSteps| + 1 &&
      var row := rows[|db.ioSteps|];
      && Holds(row, IO_STEPS, "io_step_index", e.ioStepIndex) && Holds(row, IO_STEPS, "io_step", e.ioStep.ioStep)
      && Holds(row, IO_STEPS, "pid", e.ioStep.pid) && Holds(row, IO_STEPS, "rid", e.ioStep.rid)
      && Holds(row, IO_STEPS, "io_step_tstart", e.ioStep.tstart)
      && Holds(row, IO_STEPS, "io_step_tend", e.ioStep.tend)
  {
    hide Holds;
    var row := Filled(IoStepCells(e));
    HoldsAt(row, IO_STEPS, 0, e.ioStepIndex);
    HoldsAt(row, IO_STEPS, 1, e.ioStep.ioStep);
    HoldsAt(row, IO_STEPS, 2, e.ioStep.pid);
    HoldsAt(row, IO_STEPS, 3, e.ioStep.rid);
    HoldsAt(row, IO_STEPS, 4, e.ioStep.tstart);
    HoldsAt(row, IO_STEPS, 5, e.ioStep.tend);
  }

  // ---------- The tables ----------

  function Contents(rows: seq<seq<Value>>): (r: seq<Row>)
    ensures |r| == |rows|
  {
    seq(|rows|, i requires 0 <= i < |rows| => ContentsOf(rows[i]))
  }

  function ContentsOf(row: seq<Value>): (r: Row)
    ensures |r| == |row| && forall c | 0 <= c < |row| :: r[c] == row[c].content
  {
    seq(|row|, c requires 0 <= c < |row| => row[c].content)
  }

  /** `addRow` and one assignment by name for each cell. */
  method AppendRow(tab: Table, names: seq<string>, contents: seq<string>)
    requires tab.Valid() && tab.headers == names && |contents| == |names|
    modifies tab`values
    ensures tab.Valid() && Contents(tab.values) == Contents(old(tab.values)) + [Filled(contents)]
  {
    var r := tab.AddRow();
    for c := 0 to |names|
      invariant tab.Valid() && |tab.values| == r + 1 && tab.values[..r] == old(tab.values)
      invariant forall k | 0 <= k < c :: tab.values[r][k].content == Some(contents[k])
    {
      assert tab.headers[c] == names[c];
      tab.Set(r, names[c], contents[c]);
    }
    assert tab.values == old(tab.values) + [tab.values[r]];
    assert ContentsOf(tab.values[r]) == Filled(contents);
    assert Contents(tab.values) == Contents(old(tab.values)) + [ContentsOf(tab.values[r])];
  }

  lemma SchemaNamesDiffer()
    ensures Distinct(ANOMALIES) && Distinct(CALL_STACKS) && Distinct(EVENTS)
    ensures Distinct(COUNTER_VALUES) && Distinct(IO_STEPS)
  {
  }

  /** A table with the columns of one schema definition. */
  method Define(names: seq<string>, types: seq<ColumnType>) returns (tab: Table)
    requires |names| == |types| && Distinct(names)
    ensures fresh(tab) && tab.Valid() && tab.headers == names && tab.values == []
  {
    tab := new Table();
    for c := 0 to |names|
      invariant fresh(tab) && tab.Valid() && tab.headers == names[..c] && tab.values == []
    {
      tab.AddColumn(names[c], types[c]);
    }
  }

  class ProvDBTables {
    const anomalies: Table
    const callStacks: Table
    const events: Table
    const counterValues: Table
    const ioSteps: Table

    ghost predicate Valid()
      reads anomalies, callStacks, events, counterValues, ioSteps
    {
      && anomalies.Valid() && anomalies.headers == ANOMALIES
      && callStacks.Valid() && callStacks.headers == CALL_STACKS
      && events.Valid() && events.headers == EVENTS
      && counterValues.Valid() && counterValues.headers == COUNTER_VALUES
      && ioSteps.Valid() && ioSteps.headers == IO_STEPS
      && anomalies != callStacks && anomalies != events && anomalies != counterValues && anomalies != ioSteps
      && callStacks != events && callStacks != counterValues && callStacks != ioSteps
      && events != counterValues && events != ioSteps && counterValues != ioSteps
    }

    ghost function Abstract(): (db: Database)
      reads anomalies, callStacks, events, counterValues, ioSteps
    {
      Database(Contents(anomalies.values), Contents(callStacks.values), Contents(events.values),
               Contents(counterValues.values), Contents(ioSteps.values))
    }

    constructor ()
      ensures Valid() && Abstract() == EMPTY
      ensures fresh(anomalies) && fresh(callStacks) && fresh(events) && fresh(counterValues) && fresh(ioSteps)
    {
      hide Distinct;
      SchemaNamesDiffer();
      var a := Define(ANOMALIES,
        [StringColumn, UBigintColumn, UBigintColumn, IntColumn, IntColumn, IntColumn, IntColumn,
         IntColumn, UBigintColumn, DoubleColumn, DoubleColumn]);
      var c := Define(CALL_STACKS, [StringColumn, StringColumn]);
      var e := Define(EVENTS, [StringColumn, UBigintColumn, UBigintColumn, IntColumn]);
      var v := Define(COUNTER_VALUES,
        [StringColumn, IntColumn, UBigintColumn, UBigintColumn, IntColumn, IntColumn, IntColumn]);
      var s := Define(IO_STEPS, [IntColumn, IntColumn, IntColumn, IntColumn, UBigintColumn, UBigintColumn]);
      anomalies, callStacks, events, counterValues, ioSteps := a, c, e, v, s;
    }

    /** `CallStacksEntry::insert` for each entry: a call stack row and the event it names. */
    method InsertCallStack(e: AnomalyEntry)
      requires Valid()
      modifies callStacks`values, events`values
      ensures Valid()
      ensures Contents(callStacks.values) == old(Contents(callStacks.values)) + CallStackRows(e, |e.callStack|)
      ensures Contents(events.values) == old(Contents(events.values)) + EventRows(e, |e.callStack|)
    {
      hide Contents, Filled;
      for i := 0 to |e.callStack|
        invariant Valid()
        invariant Contents(callStacks.values) == old(Contents(callStacks.values)) + CallStackRows(e, i)
        invariant Contents(events.values) == old(Contents(events.values)) + EventRows(e, i)
      {
        AppendRow(callStacks, CALL_STACKS, CallStackCells(e, e.callStack[i]));
        AppendRow(events, EVENTS, EventCells(e.callStack[i]));
        assert CallStackRows(e, i + 1) == CallStackRows(e, i) + [Filled(CallStackCells(e, e.callStack[i]))];
        assert EventRows(e, i + 1) == EventRows(e, i) + [Filled(EventCells(e.callStack[i]))];
      }
    }

    /** `CounterValuesEntry::insert` for each entry. */
    method InsertCounters(e: AnomalyEntry)
      requires Valid()
      modifies counterValues`values
      ensures Valid()
      ensures Contents(counterValues.values) == old(Contents(counterValues.values)) + CounterRows(e, |e.counters|)
    {
      hide Contents, Filled;
      for i := 0 to |e.counters|
        invariant Valid()
        invariant Contents(counterValues.values) == old(Contents(counterValues.values)) + CounterRows(e, i)
      {
        AppendRow(counterValues, COUNTER_VALUES, CounterCells(e, e.counters[i]));
        assert CounterRows(e, i + 1) == CounterRows(e, i) + [Filled(CounterCells(e, e.counters[i]))];
      }
    }

    /** `AnomaliesEntry::insert`: the anomaly, its call stack with the events it names, its counters, its io step. */
    method Insert(e: AnomalyEntry)
      requires Valid()
      modifies anomalies`values, callStacks`values, events`values, counterValues`values, ioSteps`values
      ensures Valid() && Abstract() == Inserted(old(Abstract()), e)
    {
      hide Contents, Filled, CallStackRows, EventRows, CounterRows, AnomalyCells, IoStepCells;
      AppendRow(anomalies, ANOMALIES, AnomalyCells(e));
      InsertCallStack(e);
      InsertCounters(e);
      AppendRow(ioSteps, IO_STEPS, IoStepCells(e));
    }

    method InsertAll(entries: seq<AnomalyEntry>)
      requires Valid()
      modifies anomalies`values, callStacks`values, events`values, counterValues`values, ioSteps`values
      ensures Valid() && Abstract() == InsertedAll(old(Abstract()), entries)
    {
      hide Inserted;
      for i := 0 to |entries|
        invariant Valid() && Abstract() == InsertedAll(old(Abstract()), entries[..i])
      {
        assert entries[..i + 1][..i] == entries[..i];
        Insert(entries[i]);
      }
      assert entries[..|entries|] == entries;
    }
  }
}
