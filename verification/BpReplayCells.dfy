/**
 What a replay writes, cell by cell: which columns hold timestamps and ranks is said here by name and number,
 apart from the lookup that the loops use.
 */
module BpReplayCells {
  import opened BpReplay
  import opened Widths
  import opened Wrappers

  /** Column 7 of the communication data, column 5 of counters and events. */
  predicate IsStamp(name: string, j: nat) {
    || (name == "comm_timestamps" && j == 7)
    || (name == "counter_values" && j == 5)
    || (name == "event_timestamps" && j == 5)
  }

  /** Column 1 of the same three variables. */
  predicate IsRank(name: string, j: nat) {
    j == 1 && (name == "comm_timestamps" || name == "counter_values" || name == "event_timestamps")
  }

  /** Row `i` and column `j` of variable `v` of step `s`. */
  datatype Cell = Cell(s: nat, v: nat, i: nat, j: nat)

  predicate InFile(file: seq<BpStep>, c: Cell) {
    && c.s < |file| && c.v < |file[c.s]|
    && c.i < |file[c.s][c.v].rows| && c.j < |file[c.s][c.v].rows[c.i]|
  }

  function ValueAt(file: seq<BpStep>, c: Cell): (t: uint64)
    requires InFile(file, c)
  {
    file[c.s][c.v].rows[c.i][c.j]
  }

  predicate Stamp(file: seq<BpStep>, c: Cell) {
    InFile(file, c) && IsStamp(file[c.s][c.v].name, c.j)
  }

  /** The timestamps of the file lie between two of them. */
  ghost predicate Spans(file: seq<BpStep>, low: uint64, high: uint64) {
    && (forall c | Stamp(file, c) :: low <= ValueAt(file, c) <= high)
    && (exists c :: Stamp(file, c) && ValueAt(file, c) == low)
    && (exists c :: Stamp(file, c) && ValueAt(file, c) == high)
  }

  // ---------- The timestamps by place are the timestamps in order ----------

  lemma VariableStamp(v: Variable, i: nat, j: nat)
    requires WellFormed(v) && i < |v.rows| && j < v.width && IsStamp(v.name, j)
    ensures v.rows[i][j] in VariableTs(v)
  {
    assert VariableTs(v)[i] == v.rows[i][j];
  }

  lemma {:induction false} StampInStep(step: BpStep, v: nat, i: nat, j: nat)
    requires StepWellFormed(step) && v < |step| && i < |step[v].rows| && j < step[v].width && IsStamp(step[v].name, j)
    ensures step[v].rows[i][j] in StepTs(step)
    decreases |step|
  {
    var n := |step| - 1;
    if v == n {
      VariableStamp(step[v], i, j);
    } else {
      StampInStep(step[..n], v, i, j);
    }
  }

  lemma {:induction false} StampListed(file: seq<BpStep>, c: Cell)
    requires FileWellFormed(file) && Stamp(file, c)
    ensures ValueAt(file, c) in FileTs(file)
    decreases |file|
  {
    hide StepTs, IsStamp, WellFormed;
    var n := |file| - 1;
    WidthOf(file, c);
    if c.s == n {
      StampInStep(file[n], c.v, c.i, c.j);
    } else {
      StampListed(file[..n], c);
    }
  }

  lemma WidthOf(file: seq<BpStep>, c: Cell)
    requires FileWellFormed(file) && InFile(file, c)
    ensures StepWellFormed(file[c.s]) && WellFormed(file[c.s][c.v])
    ensures |file[c.s][c.v].rows[c.i]| == file[c.s][c.v].width
  {
  }

  lemma ListedInVariable(v: Variable, t: uint64) returns (i: nat, j: nat)
    requires WellFormed(v) && t in VariableTs(v)
    ensures i < |v.rows| && j < v.width && IsStamp(v.name, j) && v.rows[i][j] == t
  {
    i :| 0 <= i < |VariableTs(v)| && VariableTs(v)[i] == t;
    j := TsColumn(v.name).value;
  }

  lemma {:induction false} ListedInStep(step: BpStep, t: uint64) returns (v: nat, i: nat, j: nat)
    requires StepWellFormed(step) && t in StepTs(step)
    ensures v < |step| && i < |step[v].rows| && j < step[v].width && IsStamp(step[v].name, j) && step[v].rows[i][j] == t
    decreases |step|
  {
    hide VariableTs, IsStamp, WellFormed;
    var n := |step| - 1;
    if t in VariableTs(step[n]) {
      v := n;
      i, j := ListedInVariable(step[n], t);
    } else {
      v, i, j := ListedInStep(step[..n], t);
    }
  }

  lemma {:induction false} ListedIsStamp(file: seq<BpStep>, t: uint64) returns (c: Cell)
    requires FileWellFormed(file) && t in FileTs(file)
    ensures Stamp(file, c) && ValueAt(file, c) == t
    decreases |file|
  {
    hide StepTs, IsStamp, WellFormed;
    var n := |file| - 1;
    if t in StepTs(file[n]) {
      var v, i, j := ListedInStep(file[n], t);
      VariableAt(file[n], v);
      c := Cell(n, v, i, j);
    } else {
      c := ListedIsStamp(file[..n], t);
    }
  }

  lemma VariableAt(step: BpStep, v: nat)
    requires StepWellFormed(step) && v < |step|
    ensures forall i | 0 <= i < |step[v].rows| :: |step[v].rows[i]| == step[v].width
  {
  }

  lemma SpansMeans(file: seq<BpStep>, low: uint64, high: uint64)
    requires FileWellFormed(file) && Spans(file, low, high)
    ensures FileTs(file) != [] && Smallest(file) == low && Largest(file) == high
  {
    hide FileTs, MaxFrom, MinFrom, FileWellFormed, IsStamp;
    var ts := FileTs(file);
    var lowest :| Stamp(file, lowest) && ValueAt(file, lowest) == low;
    var highest :| Stamp(file, highest) && ValueAt(file, highest) == high;
    StampListed(file, lowest);
    StampListed(file, highest);
    forall i | 0 <= i < |ts| ensures low <= ts[i] <= high {
      var c := ListedIsStamp(file, ts[i]);
    }
    Extremes(0, ts);
    Extremes(TWO_64 - 1, ts);
  }

  // ---------- The output ----------

  /** Where step `s` of replay `r` stands in the output. */
  lemma {:induction false} OutputStep(file: seq<BpStep>, n: nat, spoof: Option<int>, r: nat, s: nat)
    requires FileWellFormed(file) && r < n && s < |file|
    ensures |Replayed(file, n, spoof)| == n * |file| && Place(r, s, |file|) < n * |file|
    ensures Replayed(file, n, spoof)[Place(r, s, |file|)] == ShiftStep(file[s], DeltaOf(file, r), spoof)
    decreases n
  {
    hide DeltaOf, ShiftStep, FileWellFormed;
    OutputLength(file, n - 1, spoof);
    OutputLength(file, n, spoof);
    ProductMonotone(r + 1, n, |file|);
    assert (r + 1) * |file| == r * |file| + |file|;
    if r < n - 1 {
      OutputStep(file, n - 1, spoof, r, s);
    }
  }

  lemma {:induction false} OutputLength(file: seq<BpStep>, n: nat, spoof: Option<int>)
    requires FileWellFormed(file)
    ensures |Replayed(file, n, spoof)| == n * |file|
  {
    hide DeltaOf, ShiftStep, FileWellFormed;
    if n > 0 {
      OutputLength(file, n - 1, spoof);
      assert n * |file| == (n - 1) * |file| + |file|;
    }
  }

  lemma ShiftedCell(v: Variable, delta: uint64, spoof: Option<int>, i: nat, j: nat)
    requires WellFormed(v) && i < |v.rows| && j < v.width
    ensures var w := ShiftVariable(v, delta, spoof);
      && w.name == v.name && w.width == v.width && |w.rows| == |v.rows| && |w.rows[i]| == v.width
      && w.rows[i][j] ==
           if IsStamp(v.name, j) then (v.rows[i][j] + delta) % TWO_64
           else if IsRank(v.name, j) && spoof.Some? then spoof.value % TWO_64
           else v.rows[i][j]
  {
  }

  /** A variable without rows is written without rows. */
  lemma ShiftedShape(v: Variable, delta: uint64, spoof: Option<int>)
    requires WellFormed(v)
    ensures var w := ShiftVariable(v, delta, spoof);
      w.name == v.name && w.width == v.width && |w.rows| == |v.rows|
  {
  }

  /** The output consists of the steps of the file, once per replay, with the same variables of the same shape. */
  lemma ReplayedShape(file: seq<BpStep>, n: nat, spoof: Option<int>, r: nat, s: nat, v: nat)
    requires FileWellFormed(file) && r < n && s < |file| && v < |file[s]|
    ensures var out := Replayed(file, n, spoof);
      && |out| == n * |file| && Place(r, s, |file|) < |out| && |out[Place(r, s, |file|)]| == |file[s]|
      && var w := out[Place(r, s, |file|)][v];
         w.name == file[s][v].name && w.width == file[s][v].width && |w.rows| == |file[s][v].rows|
  {
    hide Place, ShiftVariable, DeltaOf, Replayed;
    OutputStep(file, n, spoof, r, s);
    ShiftedShape(file[s][v], DeltaOf(file, r), spoof);
  }

  /**
   Cell by cell: timestamps are moved by whole spans modulo 2^64, ranks are replaced if asked for, and everything
   else is written as it was read.
   */
  lemma ReplayedCell(file: seq<BpStep>, n: nat, spoof: Option<int>, low: uint64, high: uint64, r: nat, c: Cell)
    requires FileWellFormed(file) && r < n && InFile(file, c)
    requires Spans(file, low, high) || forall d :: !Stamp(file, d)
    ensures var out, name := Replayed(file, n, spoof), file[c.s][c.v].name;
      var d := c.(s := Place(r, c.s, |file|));
      && InFile(out, d)
      && ValueAt(out, d) ==
           if IsStamp(name, c.j) then (ValueAt(file, c) + r * (high - low + 1)) % TWO_64
           else if IsRank(name, c.j) && spoof.Some? then spoof.value % TWO_64
           else ValueAt(file, c)
  {
    hide Place, ShiftVariable, DeltaOf, Replayed, IsStamp, IsRank, Spans;
    var v := file[c.s][c.v];
    WidthOf(file, c);
    OutputStep(file, n, spoof, r, c.s);
    ShiftedCell(v, DeltaOf(file, r), spoof, c.i, c.j);
    if IsStamp(v.name, c.j) {
      assert Stamp(file, c);
      SpansMeans(file, low, high);
      MovedBySpans(file, r, ValueAt(file, c));
    }
  }

  lemma MovedBySpans(file: seq<BpStep>, r: nat, t: uint64)
    requires FileWellFormed(file)
    ensures (t + DeltaOf(file, r)) % TWO_64 == (t + r * (Largest(file) - Smallest(file) + 1)) % TWO_64
  {
    hide DeltaOf, Largest, Smallest;
    DeltaIsMultiple(file, r);
    ModuloSum(r * Span(file), t);
  }
}
