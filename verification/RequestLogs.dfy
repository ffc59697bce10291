/**
 Request accounting over the provenance-database logs: what each rank reports, the combination of ranks into
 shards by report index, and the aggregate deficit. Requests are conserved through all of it.
 */
module RequestLogs {
  import opened Wrappers

  /** The numbers of one matching log line. */
  datatype Entry = Entry(ts: int, ioSteps: nat, incomplete: nat, total: nat)

  /** The lists of one rank. */
  datatype RankLog = RankLog(
    times: seq<int>, ioSteps: seq<int>, incomplete: seq<int>, total: seq<int>, serviced: seq<int>, newReq: seq<int>)

  function Sum(xs: seq<int>): (s: int) {
    if xs == [] then 0 else Sum(xs[..|xs| - 1]) + xs[|xs| - 1]
  }

  lemma SumAppends(xs: seq<int>, x: int)
    ensures Sum(xs + [x]) == Sum(xs) + x
  {
    assert (xs + [x])[..|xs|] == xs;
  }

  /** Up to every report, what was serviced is all that was requested and is not incomplete; nothing is lost. */
  ghost predicate Conserves(log: RankLog) {
    && |log.incomplete| == |log.times| && |log.total| == |log.times| && |log.ioSteps| == |log.times|
    && |log.serviced| == |log.times| && |log.newReq| == |log.times|
    && forall k | 0 <= k < |log.times| ::
         && Sum(log.serviced[..k + 1]) == log.total[k] - log.incomplete[k]
         && Sum(log.newReq[..k + 1]) == log.total[k]
  }

  /** The entries of the matching lines. */
  function Entries(lines: seq<Option<Entry>>): (es: seq<Entry>) {
    if lines == [] then []
    else
      var last := lines[|lines| - 1];
      Entries(lines[..|lines| - 1]) + if last.Some? then [last.value] else []
  }

  lemma EntriesStep(lines: seq<Option<Entry>>, i: nat)
    requires i < |lines|
    ensures Entries(lines[..i + 1]) == Entries(lines[..i]) + if lines[i].Some? then [lines[i].value] else []
  {
    assert lines[..i + 1][..i] == lines[..i];
  }

  ghost predicate Reports(log: RankLog, es: seq<Entry>) {
    && |log.times| == |es| && |log.ioSteps| == |es| && |log.incomplete| == |es| && |log.total| == |es|
    && forall k | 0 <= k < |es| ::
         es[k] == Entry(log.times[k], es[k].ioSteps, es[k].incomplete, es[k].total)
         && log.ioSteps[k] == es[k].ioSteps && log.incomplete[k] == es[k].incomplete && log.total[k] == es[k].total
  }

  class RankData {
    var rank: int
    var ndata: nat
    var times: seq<int>
    var ioSteps: seq<int>
    var incomplete: seq<int>
    var total: seq<int>
    var serviced: seq<int>
    var newReq: seq<int>

    constructor ()
      ensures Log() == RankLog([], [], [], [], [], []) && ndata == 0
    {
      rank, ndata := -1, 0;
      times, ioSteps, incomplete, total, serviced, newReq := [], [], [], [], [], [];
    }

    function Log(): (log: RankLog)
      reads this
    {
      RankLog(times, ioSteps, incomplete, total, serviced, newReq)
    }

    /** One report: requests since the last one, and how many of those and of the carried-over ones were serviced. */
    method Append(e: Entry)
      requires Conserves(Log()) && ndata == |times|
      modifies this`ndata, this`times, this`ioSteps, this`incomplete, this`total, this`serviced, this`newReq
      ensures Conserves(Log()) && ndata == |times|
      ensures times == old(times) + [e.ts] && ioSteps == old(ioSteps) + [e.ioSteps]
      ensures incomplete == old(incomplete) + [e.incomplete] && total == old(total) + [e.total]
    {
      hide Sum, Conserves;
      LastReport(Log());
      var servicedNow, newNow := 0, 0;
      if ndata == 0 {
        newNow := e.total;
        servicedNow := e.total - e.incomplete;
      } else {
        newNow := e.total - total[|total| - 1];
        var carryover := incomplete[|incomplete| - 1];
        servicedNow := carryover + newNow - e.incomplete;
      }
      ghost var before := Log();
      SumAppends(serviced, servicedNow);
      SumAppends(newReq, newNow);
      times := times + [e.ts];
      ioSteps := ioSteps + [e.ioSteps];
      incomplete := incomplete + [e.incomplete];
      total := total + [e.total];
      serviced := serviced + [servicedNow];
      newReq := newReq + [newNow];
      ndata := ndata + 1;
      ReportAppended(before, Log());
    }

    method Parse(rank: int, lines: seq<Option<Entry>>)
      requires Log() == RankLog([], [], [], [], [], []) && ndata == 0
      modifies this
      ensures this.rank == rank
      ensures Conserves(Log()) && Reports(Log(), Entries(lines))
    {
      hide Entries, Conserves;
      NoReports();
      this.rank := rank;
      assert lines[..0] == [];
      for i := 0 to |lines|
        invariant this.rank == rank
        invariant ndata == |times| && Conserves(Log()) && Reports(Log(), Entries(lines[..i]))
      {
        EntriesStep(lines, i);
        if lines[i].Some? {
          Append(lines[i].value);
        }
      }
      assert lines[..|lines|] == lines;
    }
  }

  lemma NoReports()
    ensures Conserves(RankLog([], [], [], [], [], [])) && Entries([]) == []
  {
  }

  /** The last report accounts for everything so far. */
  lemma LastReport(log: RankLog)
    requires Conserves(log)
    ensures |log.incomplete| == |log.times| && |log.total| == |log.times| && |log.ioSteps| == |log.times|
    ensures |log.serviced| == |log.times| && |log.newReq| == |log.times|
    ensures log.times == [] ==> Sum(log.serviced) == 0 && Sum(log.newReq) == 0
    ensures log.times != [] ==>
      var last := |log.times| - 1;
      Sum(log.serviced) == log.total[last] - log.incomplete[last] && Sum(log.newReq) == log.total[last]
  {
    if log.times != [] {
      hide Sum;
      assert log.serviced[..|log.times|] == log.serviced && log.newReq[..|log.times|] == log.newReq;
      assert Sum(log.serviced[..|log.times| - 1 + 1]) == Sum(log.serviced);
    }
  }

  lemma ReportAppended(before: RankLog, after: RankLog)
    requires Conserves(before)
    requires |after.times| == |before.times| + 1
    requires |after.ioSteps| == |after.times| && |after.incomplete| == |after.times|
    requires |after.total| == |after.times| && |after.serviced| == |after.times| && |after.newReq| == |after.times|
    requires after.incomplete[..|before.times|] == before.incomplete && after.total[..|before.times|] == before.total
    requires after.serviced[..|before.times|] == before.serviced && after.newReq[..|before.times|] == before.newReq
    requires Sum(after.serviced) == after.total[|before.times|] - after.incomplete[|before.times|]
    requires Sum(after.newReq) == after.total[|before.times|]
    ensures Conserves(after)
  {
    hide Sum;
    var n := |before.times|;
    forall k | 0 <= k < |after.times|
      ensures Sum(after.serviced[..k + 1]) == after.total[k] - after.incomplete[k]
      ensures Sum(after.newReq[..k + 1]) == after.total[k]
    {
      if k < n {
        assert after.serviced[..k + 1] == before.serviced[..k + 1] && after.newReq[..k + 1] == before.newReq[..k + 1];
        assert after.total[k] == before.total[k] && after.incomplete[k] == before.incomplete[k];
      } else {
        assert after.serviced[..k + 1] == after.serviced && after.newReq[..k + 1] == after.newReq;
      }
    }
  }

  // ---------- Combining the ranks of a shard ----------

  datatype Field = Incomplete | Total | Serviced | NewReq

  function ListOf(log: RankLog, f: Field): (xs: seq<int>) {
    match f
    case Incomplete => log.incomplete
    case Total => log.total
    case Serviced => log.serviced
    case NewReq => log.newReq
  }

  /** A rank's number in bin `b`; nothing after its last report. */
  function AtBin(log: RankLog, f: Field, b: nat): (x: int) {
    if b < |ListOf(log, f)| then ListOf(log, f)[b] else 0
  }

  function BinTotal(logs: seq<RankLog>, f: Field, b: nat): (x: int) {
    if logs == [] then 0 else BinTotal(logs[..|logs| - 1], f, b) + AtBin(logs[|logs| - 1], f, b)
  }

  lemma BinTotalAppends(logs: seq<RankLog>, log: RankLog, f: Field, b: nat)
    ensures BinTotal(logs + [log], f, b) == BinTotal(logs, f, b) + AtBin(log, f, b)
  {
    assert (logs + [log])[..|logs|] == logs;
  }

  predicate FitsBins(log: RankLog, n: nat) {
    && |log.times| <= n
    && |log.incomplete| == |log.times| && |log.total| == |log.times|
    && |log.serviced| == |log.times| && |log.newReq| == |log.times|
  }

  class ShardData {
    var incomplete: seq<int>
    var total: seq<int>
    var serviced: seq<int>
    var newReq: seq<int>

    function Bins(f: Field): (xs: seq<int>)
      reads this
    {
      match f
      case Incomplete => incomplete
      case Total => total
      case Serviced => serviced
      case NewReq => newReq
    }

    constructor (ndataLargest: nat)
      ensures forall f: Field :: Bins(f) == seq(ndataLargest, _ => 0)
    {
      var zeros := seq(ndataLargest, _ => 0);
      incomplete, total, serviced, newReq := zeros, zeros, zeros, zeros;
    }

    /** Adds a rank, report by report. */
    method Insert(r: RankLog, n: nat)
      requires FitsBins(r, n)
      requires |incomplete| == n && |total| == n && |serviced| == n && |newReq| == n
      modifies this
      ensures forall f: Field ::
        |Bins(f)| == n && forall b | 0 <= b < n :: Bins(f)[b] == old(Bins(f))[b] + AtBin(r, f, b)
      ensures |incomplete| == n && |total| == n && |serviced| == n && |newReq| == n
      ensures forall b | 0 <= b < n ::
        && incomplete[b] == old(incomplete[b]) + (if b < |r.times| then r.incomplete[b] else 0)
        && total[b] == old(total[b]) + (if b < |r.times| then r.total[b] else 0)
        && serviced[b] == old(serviced[b]) + (if b < |r.times| then r.serviced[b] else 0)
        && newReq[b] == old(newReq[b]) + (if b < |r.times| then r.newReq[b] else 0)
    {
      var i := 0;
      while i < |r.times|
        invariant 0 <= i <= |r.times|
        invariant |incomplete| == n && |total| == n && |serviced| == n && |newReq| == n
        invariant forall b | 0 <= b < n ::
          && incomplete[b] == old(incomplete[b]) + (if b < i then r.incomplete[b] else 0)
          && total[b] == old(total[b]) + (if b < i then r.total[b] else 0)
          && serviced[b] == old(serviced[b]) + (if b < i then r.serviced[b] else 0)
          && newReq[b] == old(newReq[b]) + (if b < i then r.newReq[b] else 0)
        invariant forall f: Field, b | 0 <= b < n ::
          Bins(f)[b] == old(Bins(f))[b] + if b < i then AtBin(r, f, b) else 0
      {
        incomplete := incomplete[i := incomplete[i] + r.incomplete[i]];
        total := total[i := total[i] + r.total[i]];
        serviced := serviced[i := serviced[i] + r.serviced[i]];
        newReq := newReq[i := newReq[i] + r.newReq[i]];
        i := i + 1;
      }
    }
  }

  // ---------- Ranks over shards ----------

  predicate ShardMap(shardOf: seq<nat>, ranks: nat, shards: nat) {
    |shardOf| == ranks && forall r | 0 <= r < ranks :: shardOf[r] < shards
  }

  function ShardsTotal(shardLogs: seq<seq<RankLog>>, f: Field, b: nat): (x: int) {
    if shardLogs == [] then 0
    else ShardsTotal(shardLogs[..|shardLogs| - 1], f, b) + BinTotal(shardLogs[|shardLogs| - 1], f, b)
  }

  lemma {:induction false} ShardsTotalUpdate(shardLogs: seq<seq<RankLog>>, s: nat, log: RankLog, f: Field, b: nat)
    requires s < |shardLogs|
    ensures ShardsTotal(shardLogs[s := shardLogs[s] + [log]], f, b) == ShardsTotal(shardLogs, f, b) + AtBin(log, f, b)
    decreases |shardLogs|
  {
    hide BinTotal, AtBin;
    var n := |shardLogs| - 1;
    var updated := shardLogs[s := shardLogs[s] + [log]];
    if s == n {
      assert updated[..n] == shardLogs[..n];
      BinTotalAppends(shardLogs[s], log, f, b);
    } else {
      assert updated[..n] == shardLogs[..n][s := shardLogs[..n][s] + [log]];
      ShardsTotalUpdate(shardLogs[..n], s, log, f, b);
    }
  }

  lemma {:induction false} ShardsTotalEmpty(shards: nat, f: Field, b: nat)
    ensures ShardsTotal(seq(shards, _ => []), f, b) == 0
  {
    if shards > 0 {
      var empty: seq<seq<RankLog>> := seq(shards, _ => []);
      assert empty[..shards - 1] == seq(shards - 1, _ => []);
      ShardsTotalEmpty(shards - 1, f, b);
    }
  }

  lemma AssignOne(shardLogs: seq<seq<RankLog>>, s: nat, logs: seq<RankLog>, r: nat)
    requires s < |shardLogs| && r < |logs|
    requires forall f: Field, b: nat :: ShardsTotal(shardLogs, f, b) == BinTotal(logs[..r], f, b)
    ensures var updated, upTo := shardLogs[s := shardLogs[s] + [logs[r]]], logs[..r + 1];
      forall f: Field, b: nat :: ShardsTotal(updated, f, b) == BinTotal(upTo, f, b)
  {
    var updated, upTo := shardLogs[s := shardLogs[s] + [logs[r]]], logs[..r + 1];
    assert upTo == logs[..r] + [logs[r]];
    forall f: Field, b: nat ensures ShardsTotal(updated, f, b) == BinTotal(upTo, f, b) {
      ShardsTotalUpdate(shardLogs, s, logs[r], f, b);
      BinTotalAppends(logs[..r], logs[r], f, b);
    }
  }

  /** The assignment loop: whatever the map, the shards together hold every rank's reports once. */
  method AssignRanks(logs: seq<RankLog>, shardOf: seq<nat>, shards: nat) returns (shardLogs: seq<seq<RankLog>>)
    requires ShardMap(shardOf, |logs|, shards)
    ensures |shardLogs| == shards
    ensures forall f: Field, b: nat :: ShardsTotal(shardLogs, f, b) == BinTotal(logs, f, b)
    ensures forall s | 0 <= s < shards :: forall i | 0 <= i < |shardLogs[s]| :: shardLogs[s][i] in logs
  {
    shardLogs := seq(shards, _ => []);
    forall f: Field, b: nat ensures ShardsTotal(shardLogs, f, b) == 0 {
      ShardsTotalEmpty(shards, f, b);
    }
    for r := 0 to |logs|
      invariant |shardLogs| == shards
      invariant forall f: Field, b: nat :: ShardsTotal(shardLogs, f, b) == BinTotal(logs[..r], f, b)
      invariant forall s | 0 <= s < shards :: forall i | 0 <= i < |shardLogs[s]| :: shardLogs[s][i] in logs
    {
      AssignOne(shardLogs, shardOf[r], logs, r);
      shardLogs := shardLogs[shardOf[r] := shardLogs[shardOf[r]] + [logs[r]]];
    }
    assert logs[..|logs|] == logs;
  }

  // ---------- Deficits ----------

  function Deficit(logs: seq<RankLog>, b: nat): (d: int) {
    BinTotal(logs, Serviced, b) - BinTotal(logs, NewReq, b)
  }

  /** The deficits of the bins before `n`, summed. */
  function AggregateDeficit(logs: seq<RankLog>, n: nat): (d: int) {
    if n == 0 then 0 else AggregateDeficit(logs, n - 1) + Deficit(logs, n - 1)
  }

  /** A rank's incomplete requests in bin `b`: those of its last report once it has stopped reporting. */
  function IncompleteBy(log: RankLog, b: nat): (x: int)
    requires |log.incomplete| == |log.times|
  {
    if log.times == [] then 0 else log.incomplete[if b < |log.times| then b else |log.times| - 1]
  }

  function AllIncompleteBy(logs: seq<RankLog>, b: nat): (x: int)
    requires forall i | 0 <= i < |logs| :: Conserves(logs[i])
  {
    if logs == [] then 0
    else
      assert Conserves(logs[|logs| - 1]);
      AllIncompleteBy(logs[..|logs| - 1], b) + IncompleteBy(logs[|logs| - 1], b)
  }

  lemma DeficitAppends(logs: seq<RankLog>, log: RankLog, b: nat)
    ensures Deficit(logs + [log], b) == Deficit(logs, b) + Deficit([log], b)
    ensures Deficit([log], b) == AtBin(log, Serviced, b) - AtBin(log, NewReq, b)
  {
    hide BinTotal, AtBin;
    BinTotalAppends(logs, log, Serviced, b);
    BinTotalAppends(logs, log, NewReq, b);
    BinTotalAppends([], log, Serviced, b);
    BinTotalAppends([], log, NewReq, b);
    assert [] + [log] == [log];
    NoRanks(b);
  }

  lemma {:induction false} AggregateAppends(logs: seq<RankLog>, log: RankLog, n: nat)
    ensures AggregateDeficit(logs + [log], n) == AggregateDeficit(logs, n) + AggregateDeficit([log], n)
  {
    hide Deficit;
    if n > 0 {
      AggregateAppends(logs, log, n - 1);
      DeficitAppends(logs, log, n - 1);
    }
  }

  lemma NoRanks(b: nat)
    ensures forall f: Field :: BinTotal([], f, b) == 0
  {
  }

  /** The deficits of one rank add up to what its lists add up to. */
  lemma {:induction false} RankDeficit(log: RankLog, n: nat)
    requires n <= |log.serviced| == |log.newReq|
    ensures AggregateDeficit([log], n) == Sum(log.serviced[..n]) - Sum(log.newReq[..n])
  {
    hide Sum, Deficit;
    if n == 0 {
      assert log.serviced[..0] == [] && log.newReq[..0] == [];
    } else {
      RankDeficit(log, n - 1);
      DeficitAppends([], log, n - 1);
      SumAppends(log.serviced[..n - 1], log.serviced[n - 1]);
      SumAppends(log.newReq[..n - 1], log.newReq[n - 1]);
      assert log.serviced[..n - 1] + [log.serviced[n - 1]] == log.serviced[..n];
      assert log.newReq[..n - 1] + [log.newReq[n - 1]] == log.newReq[..n];
    }
  }

  /** Once a rank has ended, it adds nothing. */
  lemma {:induction false} RankEnded(log: RankLog, n: nat)
    requires |log.serviced| == |log.newReq| <= n
    ensures AggregateDeficit([log], n) == AggregateDeficit([log], |log.serviced|)
  {
    hide Deficit;
    if n > |log.serviced| {
      RankEnded(log, n - 1);
      DeficitAppends([], log, n - 1);
    }
  }

  /** After bin `b` the aggregate deficit is exactly what is still incomplete, over all ranks. */
  lemma {:induction false} AggregateIsIncomplete(logs: seq<RankLog>, b: nat)
    requires forall i | 0 <= i < |logs| :: Conserves(logs[i])
    ensures AggregateDeficit(logs, b + 1) == -AllIncompleteBy(logs, b)
    decreases |logs|
  {
    if logs == [] {
      NoDeficit(b + 1);
    } else {
      var rest, log := logs[..|logs| - 1], logs[|logs| - 1];
      assert Conserves(log);
      assert forall i | 0 <= i < |rest| :: rest[i] == logs[i];
      AggregateIsIncomplete(rest, b);
      assert logs == rest + [log];
      AggregateAppends(rest, log, b + 1);
      OneRankIncomplete(log, b);
    }
  }

  lemma {:induction false} NoDeficit(n: nat)
    ensures AggregateDeficit([], n) == 0
  {
    if n > 0 {
      NoDeficit(n - 1);
    }
  }

  lemma OneRankIncomplete(log: RankLog, b: nat)
    requires Conserves(log)
    ensures AggregateDeficit([log], b + 1) == -IncompleteBy(log, b)
  {
    hide Sum, AggregateDeficit;
    var n := |log.times|;
    var k := if b < n then b + 1 else n;
    if n <= b + 1 {
      RankEnded(log, b + 1);
    }
    RankDeficit(log, k);
    if n == 0 {
      assert log.serviced[..0] == [] && log.newReq[..0] == [];
      NoSum();
    } else {
      assert Sum(log.serviced[..k - 1 + 1]) == log.total[k - 1] - log.incomplete[k - 1];
    }
  }

  lemma NoSum()
    ensures Sum([]) == 0
  {
  }

  function ShardsDeficit(shardLogs: seq<seq<RankLog>>, b: nat): (d: int) {
    if shardLogs == [] then 0
    else ShardsDeficit(shardLogs[..|shardLogs| - 1], b) + Deficit(shardLogs[|shardLogs| - 1], b)
  }

  lemma {:induction false} ShardsDeficitIsDifference(shardLogs: seq<seq<RankLog>>, b: nat)
    ensures ShardsDeficit(shardLogs, b) == ShardsTotal(shardLogs, Serviced, b) - ShardsTotal(shardLogs, NewReq, b)
    decreases |shardLogs|
  {
    if shardLogs != [] {
      ShardsDeficitIsDifference(shardLogs[..|shardLogs| - 1], b);
    }
  }

  /** The shard totals, bin by bin. */
  method CombineShard(logs: seq<RankLog>, n: nat) returns (shard: ShardData)
    requires forall i | 0 <= i < |logs| :: FitsBins(logs[i], n)
    ensures fresh(shard)
    ensures forall f: Field :: |shard.Bins(f)| == n && forall b | 0 <= b < n :: shard.Bins(f)[b] == BinTotal(logs, f, b)
  {
    hide BinTotal, AtBin, FitsBins;
    shard := new ShardData(n);
    assert logs[..0] == [];
    forall f: Field, b: nat ensures BinTotal(logs[..0], f, b) == 0 {
      NoRanks(b);
    }
    for i := 0 to |logs|
      invariant fresh(shard)
      invariant forall f: Field ::
        |shard.Bins(f)| == n && forall b | 0 <= b < n :: shard.Bins(f)[b] == BinTotal(logs[..i], f, b)
    {
      assert |shard.Bins(Incomplete)| == |shard.Bins(Total)| == |shard.Bins(Serviced)| == |shard.Bins(NewReq)| == n;
      shard.Insert(logs[i], n);
      forall f: Field, b: nat | b < n ensures shard.Bins(f)[b] == BinTotal(logs[..i + 1], f, b) {
        BinTotalAppends(logs[..i], logs[i], f, b);
        assert logs[..i] + [logs[i]] == logs[..i + 1];
      }
    }
    assert logs[..|logs|] == logs;
  }

  ghost predicate Combined(combined: seq<ShardData>, shardLogs: seq<seq<RankLog>>, n: nat)
    requires |combined| <= |shardLogs|
    reads combined
  {
    && (forall k | 0 <= k < |combined| :: |combined[k].serviced| == n && |combined[k].newReq| == n)
    && (forall k, b | 0 <= k < |combined| && 0 <= b < n ::
          && combined[k].serviced[b] == BinTotal(shardLogs[k], Serviced, b)
          && combined[k].newReq[b] == BinTotal(shardLogs[k], NewReq, b))
  }

  /** One combined object per shard. */
  method CombineShards(shardLogs: seq<seq<RankLog>>, n: nat) returns (combined: seq<ShardData>)
    requires forall s | 0 <= s < |shardLogs| :: forall i | 0 <= i < |shardLogs[s]| :: FitsBins(shardLogs[s][i], n)
    ensures |combined| == |shardLogs| && Combined(combined, shardLogs, n)
  {
    hide FitsBins, BinTotal;
    combined := [];
    for s := 0 to |shardLogs|
      invariant |combined| == s && Combined(combined, shardLogs, n)
    {
      var shard := CombineShard(shardLogs[s], n);
      assert shard.Bins(Serviced) == shard.serviced && shard.Bins(NewReq) == shard.newReq;
      combined := combined + [shard];
    }
  }

  ghost predicate HaveBin(combined: seq<ShardData>, b: nat)
    reads combined
  {
    forall k | 0 <= k < |combined| :: b < |combined[k].serviced| && b < |combined[k].newReq|
  }

  /** What the combined objects serviced in a bin, less what was newly requested. */
  ghost function Shortfall(combined: seq<ShardData>, b: nat): (d: int)
    requires HaveBin(combined, b)
    reads combined
  {
    if combined == [] then 0
    else
      var k := |combined| - 1;
      Shortfall(combined[..k], b) + (combined[k].serviced[b] - combined[k].newReq[b])
  }

  lemma {:induction false} ShortfallOfLogs(combined: seq<ShardData>, shardLogs: seq<seq<RankLog>>, n: nat, b: nat)
    requires |combined| == |shardLogs| && Combined(combined, shardLogs, n) && b < n
    ensures HaveBin(combined, b)
    ensures Shortfall(combined, b) == ShardsTotal(shardLogs, Serviced, b) - ShardsTotal(shardLogs, NewReq, b)
    decreases |combined|
  {
    hide BinTotal, ShardsTotal;
    ShardsDeficitIsDifference(shardLogs, b);
    if combined != [] {
      var k := |combined| - 1;
      ShortfallOfLogs(combined[..k], shardLogs[..k], n, b);
      ShardsDeficitIsDifference(shardLogs[..k], b);
    }
  }

  /** The deficit of one bin over all shards. */
  method BinDeficit(combined: seq<ShardData>, b: nat) returns (deficit: int)
    requires HaveBin(combined, b)
    ensures deficit == Shortfall(combined, b)
  {
    deficit := 0;
    for s := 0 to |combined|
      invariant deficit == Shortfall(combined[..s], b)
    {
      assert combined[..s + 1][..s] == combined[..s];
      deficit := deficit + (combined[s].serviced[b] - combined[s].newReq[b]);
    }
    assert combined[..|combined|] == combined;
  }

  /**
   The aggregate deficit printed per bin, from the rank logs and any rank-to-shard map: minus the requests
   still incomplete over all ranks, each rank counted with its last report once it has ended.
   */
  method AggregateDeficits(logs: seq<RankLog>, shardOf: seq<nat>, shards: nat, n: nat) returns (sums: seq<int>)
    requires ShardMap(shardOf, |logs|, shards)
    requires forall i | 0 <= i < |logs| :: Conserves(logs[i]) && FitsBins(logs[i], n)
    ensures |sums| == n && forall b | 0 <= b < n :: sums[b] == -AllIncompleteBy(logs, b)
  {
    hide Conserves, FitsBins, BinTotal, ShardsTotal, AllIncompleteBy, Combined;
    var shardLogs := AssignRanks(logs, shardOf, shards);
    var combined := CombineShards(shardLogs, n);
    sums := [];
    var deficitSum := 0;
    for b := 0 to n
      invariant Combined(combined, shardLogs, n)
      invariant |sums| == b && deficitSum == AggregateDeficit(logs, b)
      invariant forall k | 0 <= k < b :: sums[k] == -AllIncompleteBy(logs, k)
    {
      ShortfallOfLogs(combined, shardLogs, n, b);
      var deficit := BinDeficit(combined, b);
      deficitSum := deficitSum + deficit;
      AggregateIsIncomplete(logs, b);
      sums := sums + [deficitSum];
    }
  }
}
