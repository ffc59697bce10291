/**
 Replaying a BP file several times as if it were one run: every replay shifts the timestamps by what the
 earlier replays span. Timestamps are `unsigned long`, so all arithmetic is modulo 2^64.
 */
module BpReplay {
  import opened Widths
  import opened Wrappers

  /** A two-dimensional variable of a step: rows of equal width. */
  datatype Variable = Variable(name: string, width: nat, rows: seq<seq<uint64>>)

  type BpStep = seq<Variable>

  /** `ts_column`. */
  function TsColumn(name: string): (col: Option<nat>) {
    if name == "comm_timestamps" then Some(7)
    else if name in ["counter_values", "event_timestamps"] then Some(5)
    else None
  }

  predicate WellFormed(v: Variable) {
    && (forall i | 0 <= i < |v.rows| :: |v.rows[i]| == v.width)
    && (v.name == "comm_timestamps" ==> 7 < v.width)
    && (v.name in ["counter_values", "event_timestamps"] ==> 5 < v.width)
  }

  predicate StepWellFormed(step: BpStep) {
    forall i | 0 <= i < |step| :: WellFormed(step[i])
  }

  predicate FileWellFormed(file: seq<BpStep>) {
    forall i | 0 <= i < |file| :: StepWellFormed(file[i])
  }

  // ---------- The timestamps of the input ----------

  function VariableTs(v: Variable): (ts: seq<uint64>)
    requires WellFormed(v)
    ensures |ts| == if TsColumn(v.name).None? then 0 else |v.rows|
  {
    match TsColumn(v.name)
    case None => []
    case Some(col) => seq(|v.rows|, i requires 0 <= i < |v.rows| => v.rows[i][col])
  }

  function StepTs(step: BpStep): (ts: seq<uint64>)
    requires StepWellFormed(step)
  {
    if step == [] then [] else StepTs(step[..|step| - 1]) + VariableTs(step[|step| - 1])
  }

  function FileTs(file: seq<BpStep>): (ts: seq<uint64>)
    requires FileWellFormed(file)
  {
    if file == [] then [] else FileTs(file[..|file| - 1]) + StepTs(file[|file| - 1])
  }

  lemma NoStepTs()
    ensures StepTs([]) == []
  {
  }

  lemma NoFileTs()
    ensures FileTs([]) == []
  {
  }

  lemma StepTsAppends(step: BpStep, i: nat)
    requires StepWellFormed(step) && i < |step|
    ensures StepWellFormed(step[..i]) && StepWellFormed(step[..i + 1])
    ensures StepTs(step[..i + 1]) == StepTs(step[..i]) + VariableTs(step[i])
  {
    assert step[..i + 1][..i] == step[..i];
  }

  lemma FileTsAppends(file: seq<BpStep>, i: nat)
    requires FileWellFormed(file) && i < |file|
    ensures FileWellFormed(file[..i]) && FileWellFormed(file[..i + 1])
    ensures FileTs(file[..i + 1]) == FileTs(file[..i]) + StepTs(file[i])
  {
    assert file[..i + 1][..i] == file[..i];
  }

  function MaxFrom(init: uint64, ts: seq<uint64>): (m: uint64) {
    if ts == [] then init
    else
      var before, last := MaxFrom(init, ts[..|ts| - 1]), ts[|ts| - 1];
      if before < last then last else before
  }

  function MinFrom(init: uint64, ts: seq<uint64>): (m: uint64) {
    if ts == [] then init
    else
      var before, last := MinFrom(init, ts[..|ts| - 1]), ts[|ts| - 1];
      if last < before then last else before
  }

  lemma {:induction false} MaxAppends(init: uint64, a: seq<uint64>, b: seq<uint64>)
    ensures MaxFrom(init, a + b) == MaxFrom(MaxFrom(init, a), b)
    ensures MinFrom(init, a + b) == MinFrom(MinFrom(init, a), b)
    decreases |b|
  {
    if b == [] {
      assert a + b == a;
    } else {
      assert (a + b)[..|a + b| - 1] == a + b[..|b| - 1];
      MaxAppends(init, a, b[..|b| - 1]);
    }
  }

  lemma NoneSeen(init: uint64)
    ensures MaxFrom(init, []) == init && MinFrom(init, []) == init
  {
  }

  lemma MaxOne(init: uint64, ts: seq<uint64>, c: nat)
    requires c < |ts|
    ensures MaxFrom(init, ts[..c + 1]) == if MaxFrom(init, ts[..c]) < ts[c] then ts[c] else MaxFrom(init, ts[..c])
    ensures MinFrom(init, ts[..c + 1]) == if ts[c] < MinFrom(init, ts[..c]) then ts[c] else MinFrom(init, ts[..c])
  {
    assert ts[..c + 1][..c] == ts[..c];
  }

  /** They are the bounds, and they are attained unless the start value is. */
  lemma {:induction false} Extremes(init: uint64, ts: seq<uint64>)
    ensures forall i | 0 <= i < |ts| :: MinFrom(init, ts) <= ts[i] <= MaxFrom(init, ts)
    ensures MinFrom(init, ts) <= init <= MaxFrom(init, ts)
    ensures MaxFrom(init, ts) == init || exists i :: 0 <= i < |ts| && ts[i] == MaxFrom(init, ts)
    ensures MinFrom(init, ts) == init || exists i :: 0 <= i < |ts| && ts[i] == MinFrom(init, ts)
    decreases |ts|
  {
    if ts != [] {
      var before := ts[..|ts| - 1];
      Extremes(init, before);
      assert forall i | 0 <= i < |before| :: before[i] == ts[i];
    }
  }

  /** Having seen a file already, seeing it again changes neither bound. */
  lemma {:induction false} SeenAgain(high: uint64, low: uint64, ts: seq<uint64>)
    requires forall i | 0 <= i < |ts| :: low <= ts[i] <= high
    ensures MaxFrom(high, ts) == high && MinFrom(low, ts) == low
    decreases |ts|
  {
    if ts != [] {
      var before := ts[..|ts| - 1];
      assert forall i | 0 <= i < |before| :: before[i] == ts[i];
      SeenAgain(high, low, before);
    }
  }

  function Largest(file: seq<BpStep>): (m: uint64)
    requires FileWellFormed(file)
  {
    MaxFrom(0, FileTs(file))
  }

  function Smallest(file: seq<BpStep>): (m: uint64)
    requires FileWellFormed(file)
  {
    MinFrom(TWO_64 - 1, FileTs(file))
  }

  // ---------- What a replay writes ----------

  function ToUnsigned(x: int): (u: uint64) {
    x % TWO_64
  }

  function ShiftRow(row: seq<uint64>, col: nat, delta: uint64, spoof: Option<int>): (r: seq<uint64>)
    requires 1 < col < |row|
    ensures |r| == |row|
  {
    var ranked := if spoof.Some? then row[1 := ToUnsigned(spoof.value)] else row;
    ranked[col := ToUnsigned(row[col] + delta)]
  }

  function ShiftVariable(v: Variable, delta: uint64, spoof: Option<int>): (w: Variable)
    requires WellFormed(v)
  {
    match TsColumn(v.name)
    case None => v
    case Some(col) => v.(rows := seq(|v.rows|, i requires 0 <= i < |v.rows| => ShiftRow(v.rows[i], col, delta, spoof)))
  }

  function ShiftStep(step: BpStep, delta: uint64, spoof: Option<int>): (r: BpStep)
    requires StepWellFormed(step)
  {
    seq(|step|, i requires 0 <= i < |step| => ShiftVariable(step[i], delta, spoof))
  }

  function ShiftFile(file: seq<BpStep>, delta: uint64, spoof: Option<int>): (r: seq<BpStep>)
    requires FileWellFormed(file)
  {
    seq(|file|, i requires 0 <= i < |file| => ShiftStep(file[i], delta, spoof))
  }

  /** The offset of replay `r`, as accumulated modulo 2^64. */
  function DeltaOf(file: seq<BpStep>, r: nat): (delta: uint64)
    requires FileWellFormed(file)
  {
    if r == 0 then 0 else ToUnsigned(DeltaOf(file, r - 1) + (Largest(file) - Smallest(file) + 1))
  }

  function Replayed(file: seq<BpStep>, n: nat, spoof: Option<int>): (out: seq<BpStep>)
    requires FileWellFormed(file)
  {
    if n == 0 then [] else Replayed(file, n - 1, spoof) + ShiftFile(file, DeltaOf(file, n - 1), spoof)
  }

  // ---------- The loops ----------

  function Rows(t: array2<uint64>): (rows: seq<seq<uint64>>)
    reads t
    ensures |rows| == t.Length0 && forall i | 0 <= i < t.Length0 :: |rows[i]| == t.Length1
    ensures forall i, j | 0 <= i < t.Length0 && 0 <= j < t.Length1 :: rows[i][j] == t[i, j]
  {
    seq(t.Length0, i requires 0 <= i < t.Length0 reads t =>
      seq(t.Length1, j requires 0 <= j < t.Length1 reads t => t[i, j]))
  }

  class Replayer {
    var tsDelta: uint64
    var inputTsLargest: uint64
    var inputTsSmallest: uint64

    constructor ()
      ensures tsDelta == 0 && inputTsLargest == 0 && inputTsSmallest == TWO_64 - 1
    {
      tsDelta, inputTsLargest, inputTsSmallest := 0, 0, TWO_64 - 1;
    }

    /** Rank spoofing: the second column of every row. */
    method SpoofRank(t: array2<uint64>, rank: int)
      requires t.Length1 > 1
      modifies t
      ensures forall i, j | 0 <= i < t.Length0 && 0 <= j < t.Length1 ::
        t[i, j] == if j == 1 then ToUnsigned(rank) else old(t[i, j])
    {
      var c := 0;
      while c < t.Length0
        invariant 0 <= c <= t.Length0
        invariant forall i, j | 0 <= i < t.Length0 && 0 <= j < t.Length1 ::
          t[i, j] == if j == 1 && i < c then ToUnsigned(rank) else old(t[i, j])
      {
        t[c, 1] := ToUnsigned(rank);
        c := c + 1;
      }
    }

    /** The timestamp offset, and the bounds of the timestamps before it is applied. */
    method ShiftTimestamps(t: array2<uint64>, col: nat, ghost ts: seq<uint64>)
      requires col < t.Length1 && |ts| == t.Length0 && forall i | 0 <= i < |ts| :: ts[i] == t[i, col]
      modifies t, this`inputTsLargest, this`inputTsSmallest
      ensures inputTsLargest == MaxFrom(old(inputTsLargest), ts) && inputTsSmallest == MinFrom(old(inputTsSmallest), ts)
      ensures forall i, j | 0 <= i < t.Length0 && 0 <= j < t.Length1 ::
        t[i, j] == if j == col then ToUnsigned(old(t[i, j]) + tsDelta) else old(t[i, j])
    {
      hide MaxFrom, MinFrom, ToUnsigned;
      var c := 0;
      NoneSeen(inputTsLargest);
      NoneSeen(inputTsSmallest);
      assert ts[..0] == [];
      while c < t.Length0
        invariant 0 <= c <= t.Length0
        invariant inputTsLargest == MaxFrom(old(inputTsLargest), ts[..c])
        invariant inputTsSmallest == MinFrom(old(inputTsSmallest), ts[..c])
        invariant forall i, j | 0 <= i < t.Length0 && 0 <= j < t.Length1 ::
          t[i, j] == if j == col && i < c then ToUnsigned(old(t[i, j]) + tsDelta) else old(t[i, j])
      {
        var tsIn := t[c, col];
        MaxOne(old(inputTsLargest), ts, c);
        MaxOne(old(inputTsSmallest), ts, c);
        inputTsLargest := if tsIn < inputTsLargest then inputTsLargest else tsIn;
        inputTsSmallest := if inputTsSmallest < tsIn then inputTsSmallest else tsIn;
        t[c, col] := ToUnsigned(tsIn + tsDelta);
        c := c + 1;
      }
      assert ts[..c] == ts;
    }

    /** What the two loops leave in the tensor is the shifted variable. */
    lemma ShiftedRows(v: Variable, col: nat, spoof: Option<int>, rows: seq<seq<uint64>>)
      requires WellFormed(v) && TsColumn(v.name) == Some(col) && |rows| == |v.rows|
      requires forall i | 0 <= i < |rows| :: |rows[i]| == v.width
      requires forall i, j | 0 <= i < |rows| && 0 <= j < v.width ::
        rows[i][j] == if j == col then ToUnsigned(v.rows[i][j] + tsDelta)
                      else if j == 1 && spoof.Some? then ToUnsigned(spoof.value) else v.rows[i][j]
      ensures v.(rows := rows) == ShiftVariable(v, tsDelta, spoof)
    {
      hide ToUnsigned;
      forall i | 0 <= i < |rows| ensures rows[i] == ShiftRow(v.rows[i], col, tsDelta, spoof) {
      }
    }

    method ReplayVariable(v: Variable, spoof: Option<int>) returns (w: Variable)
      requires WellFormed(v)
      modifies this`inputTsLargest, this`inputTsSmallest
      ensures w == ShiftVariable(v, tsDelta, spoof)
      ensures inputTsLargest == MaxFrom(old(inputTsLargest), VariableTs(v))
      ensures inputTsSmallest == MinFrom(old(inputTsSmallest), VariableTs(v))
    {
      hide ToUnsigned, ShiftRow, MaxFrom, MinFrom;
      w := v;
      match TsColumn(v.name) {
        case None =>
          NoneSeen(inputTsLargest);
          NoneSeen(inputTsSmallest);
        case Some(col) =>
          var t := new uint64[|v.rows|, v.width]((i, j) requires 0 <= i < |v.rows| && 0 <= j < v.width => v.rows[i][j]);
          if spoof.Some? {
            SpoofRank(t, spoof.value);
          }
          ShiftTimestamps(t, col, VariableTs(v));
          w := v.(rows := Rows(t));
          ShiftedRows(v, col, spoof, w.rows);
      }
    }

    method ReplayStep(step: BpStep, spoof: Option<int>) returns (out: BpStep)
      requires StepWellFormed(step)
      modifies this`inputTsLargest, this`inputTsSmallest
      ensures out == ShiftStep(step, tsDelta, spoof)
      ensures inputTsLargest == MaxFrom(old(inputTsLargest), StepTs(step))
      ensures inputTsSmallest == MinFrom(old(inputTsSmallest), StepTs(step))
    {
      hide MaxFrom, MinFrom, ShiftVariable, VariableTs, StepTs, WellFormed;
      out := [];
      NoStepTs();
      NoneSeen(inputTsLargest);
      NoneSeen(inputTsSmallest);
      for i := 0 to |step|
        invariant |out| == i && forall k | 0 <= k < i :: out[k] == ShiftVariable(step[k], tsDelta, spoof)
        invariant StepWellFormed(step[..i])
        invariant inputTsLargest == MaxFrom(old(inputTsLargest), StepTs(step[..i]))
        invariant inputTsSmallest == MinFrom(old(inputTsSmallest), StepTs(step[..i]))
      {
        StepTsAppends(step, i);
        MaxAppends(old(inputTsLargest), StepTs(step[..i]), VariableTs(step[i]));
        MaxAppends(old(inputTsSmallest), StepTs(step[..i]), VariableTs(step[i]));
        var w := ReplayVariable(step[i], spoof);
        out := out + [w];
      }
      assert step[..|step|] == step;
    }

    method ReplayFile(file: seq<BpStep>, spoof: Option<int>) returns (out: seq<BpStep>)
      requires FileWellFormed(file)
      modifies this`inputTsLargest, this`inputTsSmallest
      ensures out == ShiftFile(file, tsDelta, spoof)
      ensures inputTsLargest == MaxFrom(old(inputTsLargest), FileTs(file))
      ensures inputTsSmallest == MinFrom(old(inputTsSmallest), FileTs(file))
    {
      hide MaxFrom, MinFrom, ShiftStep, StepTs, FileTs, StepWellFormed;
      out := [];
      NoFileTs();
      NoneSeen(inputTsLargest);
      NoneSeen(inputTsSmallest);
      for i := 0 to |file|
        invariant |out| == i && forall k | 0 <= k < i :: out[k] == ShiftStep(file[k], tsDelta, spoof)
        invariant FileWellFormed(file[..i])
        invariant inputTsLargest == MaxFrom(old(inputTsLargest), FileTs(file[..i]))
        invariant inputTsSmallest == MinFrom(old(inputTsSmallest), FileTs(file[..i]))
      {
        FileTsAppends(file, i);
        MaxAppends(old(inputTsLargest), FileTs(file[..i]), StepTs(file[i]));
        MaxAppends(old(inputTsSmallest), FileTs(file[..i]), StepTs(file[i]));
        var step := ReplayStep(file[i], spoof);
        out := out + [step];
      }
      assert file[..|file|] == file;
    }

    /** All replays: the offset grows after each but the last. */
    method Replay(file: seq<BpStep>, nreplay: int, spoof: Option<int>) returns (out: seq<BpStep>)
      requires FileWellFormed(file)
      requires tsDelta == 0 && inputTsLargest == 0 && inputTsSmallest == TWO_64 - 1
      modifies this
      ensures out == Replayed(file, if nreplay < 0 then 0 else nreplay, spoof)
    {
      hide MaxFrom, MinFrom, FileTs, ShiftFile, ToUnsigned, FileWellFormed;
      out := [];
      var r := 0;
      while r < nreplay
        invariant 0 <= r && (r <= nreplay || r == 0)
        invariant out == Replayed(file, r, spoof)
        invariant r < nreplay ==> tsDelta == DeltaOf(file, r)
        invariant r == 0 ==> inputTsLargest == 0 && inputTsSmallest == TWO_64 - 1
        invariant r > 0 ==> inputTsLargest == Largest(file) && inputTsSmallest == Smallest(file)
      {
        Extremes(0, FileTs(file));
        Extremes(TWO_64 - 1, FileTs(file));
        if r > 0 {
          SeenAgain(inputTsLargest, inputTsSmallest, FileTs(file));
        }
        var replay := ReplayFile(file, spoof);
        out := out + replay;
        if r != nreplay - 1 {
          tsDelta := ToUnsigned(tsDelta + (inputTsLargest - inputTsSmallest + 1));
        }
        r := r + 1;
      }
    }
  }

  // ---------- One run ----------

  /** The time a replay spans, in unbounded arithmetic. */
  function Span(file: seq<BpStep>): (d: int)
    requires FileWellFormed(file)
  {
    Largest(file) - Smallest(file) + 1
  }

  /** The last timestamp of the last of `n` replays fits 64 bits. */
  predicate NoOverflow(file: seq<BpStep>, n: int)
    requires FileWellFormed(file)
  {
    Largest(file) + (n - 1) * Span(file) < TWO_64
  }

  /** The timestamp replay `r` writes for an input timestamp. */
  function Written(file: seq<BpStep>, r: nat, t: uint64): (w: uint64)
    requires FileWellFormed(file)
  {
    ToUnsigned(t + DeltaOf(file, r))
  }

  lemma {:induction false} DeltaIsMultiple(file: seq<BpStep>, r: nat)
    requires FileWellFormed(file)
    ensures DeltaOf(file, r) == (r * Span(file)) % TWO_64
  {
    if r > 0 {
      DeltaIsMultiple(file, r - 1);
      var d := Span(file);
      assert r * d == (r - 1) * d + d;
      ModuloSum((r - 1) * d, d);
    }
  }

  lemma ModuloSum(a: int, b: int)
    ensures (a % TWO_64 + b) % TWO_64 == (a + b) % TWO_64
  {
  }

  predicate ExactAt(file: seq<BpStep>, r: nat, t: uint64)
    requires FileWellFormed(file)
  {
    Written(file, r, t) == t + r * Span(file)
  }

  /** The shift is exact for every timestamp of every replay. */
  ghost predicate ShiftsExactly(file: seq<BpStep>, n: nat)
    requires FileWellFormed(file)
  {
    forall r: nat, i: nat | r < n && i < |FileTs(file)| :: ExactAt(file, r, FileTs(file)[i])
  }

  lemma Bounds(file: seq<BpStep>)
    requires FileWellFormed(file) && FileTs(file) != []
    ensures exists i :: 0 <= i < |FileTs(file)| && FileTs(file)[i] == Largest(file)
    ensures forall i | 0 <= i < |FileTs(file)| :: Smallest(file) <= FileTs(file)[i] <= Largest(file)
    ensures Span(file) >= 1
  {
    hide FileTs, MaxFrom, MinFrom;
    var ts := FileTs(file);
    Extremes(0, ts);
    Extremes(TWO_64 - 1, ts);
    assert Smallest(file) <= ts[0] <= Largest(file);
  }

  lemma ProductMonotone(a: nat, b: nat, d: nat)
    requires a <= b
    ensures a * d <= b * d
  {
  }

  /**
   The replays are shifted by exactly `r * (largest - smallest + 1)` if and only if the last timestamp of the
   last replay fits 64 bits.
   */
  lemma {:induction false} ExactWhenNoOverflow(file: seq<BpStep>, n: nat)
    requires FileWellFormed(file) && FileTs(file) != [] && n >= 1
    ensures ShiftsExactly(file, n) <==> NoOverflow(file, n)
  {
    hide FileTs, Largest, DeltaOf;
    Bounds(file);
    var ts, d := FileTs(file), Span(file);
    if ShiftsExactly(file, n) {
      var i :| 0 <= i < |ts| && ts[i] == Largest(file);
      assert ExactAt(file, n - 1, ts[i]);
    } else if NoOverflow(file, n) {
      forall r: nat, i: nat | r < n && i < |ts| ensures ExactAt(file, r, ts[i]) {
        WrittenExactly(file, n, r, i);
      }
    }
  }

  lemma WrittenExactly(file: seq<BpStep>, n: nat, r: nat, i: nat)
    requires FileWellFormed(file) && i < |FileTs(file)| && r < n
    requires NoOverflow(file, n)
    ensures ExactAt(file, r, FileTs(file)[i])
  {
    hide FileTs, Largest, Smallest, DeltaOf;
    var t := FileTs(file)[i];
    Bounds(file);
    ProductMonotone(r, n - 1, Span(file));
    DeltaIsMultiple(file, r);
    ModuloSum(r * Span(file), t);
  }

  /** Then every timestamp of a later replay exceeds every timestamp of an earlier one: one run. */
  lemma {:induction false} ReplaysFollowEachOther(file: seq<BpStep>, n: nat, r: nat, later: nat, i: nat, k: nat)
    requires FileWellFormed(file) && i < |FileTs(file)| && k < |FileTs(file)| && r < later < n
    requires NoOverflow(file, n)
    ensures Written(file, r, FileTs(file)[i]) < Written(file, later, FileTs(file)[k])
  {
    hide FileTs, Largest, Smallest, DeltaOf, Written;
    Bounds(file);
    WrittenExactly(file, n, r, i);
    WrittenExactly(file, n, later, k);
    var d := Span(file);
    ProductMonotone(r + 1, later, d);
    assert (r + 1) * d == r * d + d;
  }

  /** Every timestamp of a replay comes before every timestamp of each later replay. */
  ghost predicate InOrder(file: seq<BpStep>, n: nat)
    requires FileWellFormed(file)
  {
    forall r: nat, later: nat, i: nat, k: nat | r < later < n && i < |FileTs(file)| && k < |FileTs(file)| ::
      Written(file, r, FileTs(file)[i]) < Written(file, later, FileTs(file)[k])
  }

  /** The first replay that overflows. */
  lemma {:induction false} FirstOverflow(file: seq<BpStep>, n: nat) returns (r: nat)
    requires FileWellFormed(file) && FileTs(file) != [] && !NoOverflow(file, n)
    ensures 1 <= r < n && NoOverflow(file, r) && !NoOverflow(file, r + 1)
    decreases n
  {
    hide FileTs, Largest, Smallest;
    Bounds(file);
    if NoOverflow(file, n - 1) {
      r := n - 1;
    } else {
      r := FirstOverflow(file, n - 1);
    }
  }

  lemma ReducedOnce(x: int)
    requires TWO_64 <= x < 2 * TWO_64
    ensures x % TWO_64 == x - TWO_64
  {
  }

  /** It writes the largest timestamp no later than the replay before did: a span is at most 2^64. */
  lemma WrapsBack(file: seq<BpStep>, r: nat, i: nat)
    requires FileWellFormed(file) && i < |FileTs(file)| && FileTs(file)[i] == Largest(file)
    requires 1 <= r && NoOverflow(file, r) && !NoOverflow(file, r + 1)
    ensures Written(file, r, Largest(file)) <= Written(file, r - 1, Largest(file))
  {
    hide FileTs, Largest, Smallest, DeltaOf;
    var high, d := Largest(file), Span(file);
    WrittenExactly(file, r, r - 1, i);
    DeltaIsMultiple(file, r);
    ModuloSum(r * d, high);
    assert r * d == (r - 1) * d + d;
    ReducedOnce(high + r * d);
  }

  /** The output is in order, replay after replay, if and only if nothing overflows. */
  lemma {:induction false} InOrderWhenNoOverflow(file: seq<BpStep>, n: nat)
    requires FileWellFormed(file) && FileTs(file) != []
    ensures InOrder(file, n) <==> NoOverflow(file, n)
  {
    hide FileTs, Largest, Smallest, DeltaOf, Written, NoOverflow;
    var ts := FileTs(file);
    if NoOverflow(file, n) {
      forall r: nat, later: nat, i: nat, k: nat | r < later < n && i < |ts| && k < |ts|
        ensures Written(file, r, ts[i]) < Written(file, later, ts[k])
      {
        ReplaysFollowEachOther(file, n, r, later, i, k);
      }
    } else {
      var r := FirstOverflow(file, n);
      Bounds(file);
      var i :| 0 <= i < |ts| && ts[i] == Largest(file);
      WrapsBack(file, r, i);
      assert !(Written(file, r - 1, ts[i]) < Written(file, r, ts[i]));
    }
  }

  function OneEvent(t: uint64): (v: Variable) {
    Variable("event_timestamps", 6, [[0, 0, 0, 0, 0, t]])
  }

  lemma OneEventTs(t: uint64)
    ensures WellFormed(OneEvent(t)) && VariableTs(OneEvent(t)) == [t]
  {
    assert TsColumn("event_timestamps") == Some(5);
  }

  lemma OneStep(v: Variable)
    requires WellFormed(v)
    ensures FileWellFormed([[v]]) && FileTs([[v]]) == VariableTs(v)
  {
    hide WellFormed, VariableTs;
    var step: BpStep, none: BpStep := [v], [];
    var file: seq<BpStep>, nothing: seq<BpStep> := [step], [];
    assert step == none + [v] && step[..0] == none && step[..1] == step;
    StepTsAppends(step, 0);
    assert file == nothing + [step] && file[..0] == nothing && file[..1] == file;
    FileTsAppends(file, 0);
    assert [] + VariableTs(v) == VariableTs(v);
  }

  lemma OnlyTimestamp(file: seq<BpStep>, t: uint64)
    requires FileWellFormed(file) && FileTs(file) == [t]
    ensures Largest(file) == t && Smallest(file) == t
  {
    hide FileTs, MaxFrom, MinFrom;
    assert [t][..1] == [t] && [t][..0] == [];
    NoneSeen(0);
    NoneSeen(TWO_64 - 1);
    MaxOne(0, [t], 0);
    MaxOne(TWO_64 - 1, [t], 0);
  }

  /** One event at the last instant a timestamp can hold: the second replay of the file overflows. */
  lemma LastInstantOverflows()
    ensures var file := [[OneEvent(TWO_64 - 1)]];
      FileWellFormed(file) && FileTs(file) == [TWO_64 - 1]
      && !NoOverflow(file, 2) && !ShiftsExactly(file, 2) && !InOrder(file, 2)
  {
    hide FileTs, Largest, Smallest, FileWellFormed, VariableTs, WellFormed, OneEvent, ShiftsExactly, InOrder;
    var v := OneEvent(TWO_64 - 1);
    OneEventTs(TWO_64 - 1);
    OneStep(v);
    OnlyTimestamp([[v]], TWO_64 - 1);
    ExactWhenNoOverflow([[v]], 2);
    InOrderWhenNoOverflow([[v]], 2);
  }

  /** A file without timestamps is shifted too: the bounds start out crossed, and their difference wraps to 2. */
  lemma NoTimestamps(file: seq<BpStep>)
    requires FileWellFormed(file) && FileTs(file) == []
    ensures ToUnsigned(Span(file)) == 2
  {
  }

  // ---------- The timestamps of the output ----------

  function ShiftTs(ts: seq<uint64>, delta: uint64): (r: seq<uint64>)
    ensures |r| == |ts| && forall i | 0 <= i < |ts| :: r[i] == ToUnsigned(ts[i] + delta)
  {
    seq(|ts|, i requires 0 <= i < |ts| => ToUnsigned(ts[i] + delta))
  }

  lemma ShiftedVariable(v: Variable, delta: uint64, spoof: Option<int>)
    requires WellFormed(v)
    ensures WellFormed(ShiftVariable(v, delta, spoof))
    ensures VariableTs(ShiftVariable(v, delta, spoof)) == ShiftTs(VariableTs(v), delta)
  {
  }

  lemma StepTsLast(step: BpStep)
    requires StepWellFormed(step) && step != []
    ensures StepWellFormed(step[..|step| - 1]) && WellFormed(step[|step| - 1])
    ensures StepTs(step) == StepTs(step[..|step| - 1]) + VariableTs(step[|step| - 1])
  {
  }

  lemma ShiftTsConcat(a: seq<uint64>, b: seq<uint64>, delta: uint64)
    ensures ShiftTs(a + b, delta) == ShiftTs(a, delta) + ShiftTs(b, delta)
  {
    hide ToUnsigned;
  }

  lemma {:induction false} ShiftedStep(step: BpStep, delta: uint64, spoof: Option<int>)
    requires StepWellFormed(step)
    ensures StepWellFormed(ShiftStep(step, delta, spoof))
    ensures StepTs(ShiftStep(step, delta, spoof)) == ShiftTs(StepTs(step), delta)
    decreases |step|
  {
    hide ShiftVariable, VariableTs, WellFormed, ShiftTs, ToUnsigned;
    forall i | 0 <= i < |step| ensures WellFormed(ShiftVariable(step[i], delta, spoof)) {
      ShiftedVariable(step[i], delta, spoof);
    }
    if step != [] {
      hide StepTs;
      var n := |step| - 1;
      ShiftedStep(step[..n], delta, spoof);
      ShiftedVariable(step[n], delta, spoof);
      StepTsLast(step);
      StepTsLast(ShiftStep(step, delta, spoof));
      ShiftTsConcat(StepTs(step[..n]), VariableTs(step[n]), delta);
      assert ShiftStep(step, delta, spoof)[..n] == ShiftStep(step[..n], delta, spoof);
    }
  }

  lemma {:induction false} ShiftedFile(file: seq<BpStep>, delta: uint64, spoof: Option<int>)
    requires FileWellFormed(file)
    ensures FileWellFormed(ShiftFile(file, delta, spoof))
    ensures FileTs(ShiftFile(file, delta, spoof)) == ShiftTs(FileTs(file), delta)
    decreases |file|
  {
    hide ShiftStep, StepTs, StepWellFormed, ToUnsigned;
    forall i | 0 <= i < |file| ensures StepWellFormed(ShiftStep(file[i], delta, spoof)) {
      ShiftedStep(file[i], delta, spoof);
    }
    if file != [] {
      var n := |file| - 1;
      ShiftedFile(file[..n], delta, spoof);
      ShiftedStep(file[n], delta, spoof);
      assert ShiftFile(file, delta, spoof)[..n] == ShiftFile(file[..n], delta, spoof);
    }
  }

  lemma {:induction false} FileTsConcat(a: seq<BpStep>, b: seq<BpStep>)
    requires FileWellFormed(a) && FileWellFormed(b)
    ensures FileWellFormed(a + b) && FileTs(a + b) == FileTs(a) + FileTs(b)
    decreases |b|
  {
    hide StepTs, StepWellFormed;
    if b == [] {
      assert a + b == a;
    } else {
      var n := |b| - 1;
      FileTsConcat(a, b[..n]);
      assert (a + b)[..|a + b| - 1] == a + b[..n];
    }
  }

  /** Where the output holds the timestamp at `i` of replay `r`. */
  function Place(r: nat, i: nat, size: nat): (place: nat) {
    r * size + i
  }

  /** The output holds, replay after replay, every input timestamp with the offset of its replay. */
  lemma {:induction false} OutputTimestamps(file: seq<BpStep>, n: nat, spoof: Option<int>, r: nat, i: nat)
    requires FileWellFormed(file) && r < n && i < |FileTs(file)|
    ensures FileWellFormed(Replayed(file, n, spoof))
    ensures |FileTs(Replayed(file, n, spoof))| == n * |FileTs(file)|
    ensures Place(r, i, |FileTs(file)|) < n * |FileTs(file)|
    ensures FileTs(Replayed(file, n, spoof))[Place(r, i, |FileTs(file)|)] == Written(file, r, FileTs(file)[i])
    decreases n
  {
    hide FileTs, FileWellFormed, ToUnsigned, ShiftFile, DeltaOf;
    var size := |FileTs(file)|;
    OutputSize(file, n - 1, spoof);
    OutputSize(file, n, spoof);
    ProductMonotone(r + 1, n, size);
    assert (r + 1) * size == r * size + size;
    var last := ShiftFile(file, DeltaOf(file, n - 1), spoof);
    ShiftedFile(file, DeltaOf(file, n - 1), spoof);
    FileTsConcat(Replayed(file, n - 1, spoof), last);
    if r < n - 1 {
      OutputTimestamps(file, n - 1, spoof, r, i);
    }
  }

  lemma NoOutput(file: seq<BpStep>, spoof: Option<int>)
    requires FileWellFormed(file)
    ensures FileWellFormed(Replayed(file, 0, spoof)) && FileTs(Replayed(file, 0, spoof)) == []
  {
  }

  lemma {:induction false} OutputSize(file: seq<BpStep>, n: nat, spoof: Option<int>)
    requires FileWellFormed(file)
    ensures FileWellFormed(Replayed(file, n, spoof))
    ensures |FileTs(Replayed(file, n, spoof))| == n * |FileTs(file)|
  {
    hide ToUnsigned, ShiftFile, DeltaOf, FileTs, FileWellFormed;
    if n == 0 {
      NoOutput(file, spoof);
    } else {
      OutputSize(file, n - 1, spoof);
      ShiftedFile(file, DeltaOf(file, n - 1), spoof);
      FileTsConcat(Replayed(file, n - 1, spoof), ShiftFile(file, DeltaOf(file, n - 1), spoof));
      assert n * |FileTs(file)| == (n - 1) * |FileTs(file)| + |FileTs(file)|;
    }
  }

  /**
   The output reads as one run: without overflow every timestamp written is the input's, moved by whole spans,
   and lies after every timestamp of the replays before.
   */
  lemma {:induction false} OneRun(file: seq<BpStep>, n: nat, spoof: Option<int>, r: nat, later: nat, i: nat, k: nat)
    requires FileWellFormed(file) && i < |FileTs(file)| && k < |FileTs(file)| && r < later < n
    requires NoOverflow(file, n)
    ensures FileWellFormed(Replayed(file, n, spoof))
    ensures var out, size := FileTs(Replayed(file, n, spoof)), |FileTs(file)|;
      && |out| == n * size && Place(r, i, size) < |out| && Place(later, k, size) < |out|
      && out[Place(r, i, size)] == FileTs(file)[i] + r * Span(file)
      && out[Place(r, i, size)] < out[Place(later, k, size)]
  {
    hide FileTs, FileWellFormed, NoOverflow, Span, Written, Replayed, Place;
    OutputTimestamps(file, n, spoof, r, i);
    OutputTimestamps(file, n, spoof, later, k);
    WrittenExactly(file, n, r, i);
    ReplaysFollowEachOther(file, n, r, later, i, k);
  }
}
