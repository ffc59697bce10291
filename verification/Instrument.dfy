/** The two loops of the source instrumenter together: from tokens and lines to instrumented lines. */
module Instrument {
  import opened InstrumentScan
  import opened InstrumentSplice
  import opened InstrumentTokens
  import opened Wrappers

  /** Token positions are 1-based and index the source text. */
  predicate PositionsIndex(ts: seq<Token>, flines: seq<string>) {
    forall i | 0 <= i < |ts| ::
      && 1 <= ts[i].line <= |flines| && 1 <= ts[i].column && ts[i].text != ""
      && ts[i].column - 1 + |ts[i].text| <= |flines[ts[i].line - 1]|
      && flines[ts[i].line - 1][ts[i].column - 1..ts[i].column - 1 + |ts[i].text|] == ts[i].text
  }

  function RecordedAll(ts: seq<Token>, bodies: seq<Body>): (fs: seq<Function>)
    requires forall n | 0 <= n < |bodies| :: bodies[n].open < |ts| && bodies[n].close < |ts|
    ensures |fs| == |bodies| && forall n | 0 <= n < |fs| :: fs[n] == Recorded(ts, bodies[n])
  {
    seq(|bodies|, n requires 0 <= n < |bodies| => Recorded(ts, bodies[n]))
  }

  ghost predicate AreDefinitions(ts: seq<Token>, bodies: seq<Body>) {
    && (forall n | 0 <= n < |bodies| :: IsDefinition(ts, bodies[n]))
    && InOrder(bodies, 2)
  }

  lemma AllBodiesAreDefinitions(ts: seq<Token>)
    requires AllBodies(ts).Some?
    ensures AreDefinitions(ts, AllBodies(ts).value)
  {
    BodiesAreDefinitions(ts, 2);
  }

  lemma InsideText(ts: seq<Token>, bodies: seq<Body>)
    requires AreDefinitions(ts, bodies)
    ensures forall n | 0 <= n < |bodies| :: bodies[n].open < |ts| && bodies[n].close < |ts|
    ensures forall m, n | 0 <= m < n < |bodies| :: bodies[m].open < bodies[n].open
    ensures forall n | 0 <= n < |bodies| :: ts[bodies[n].open].text == "{"
  {
  }

  /** The order the scan guarantees is the order the splice loop needs. */
  lemma {:induction false} ScanOrderSuffices(ts: seq<Token>, bodies: seq<Body>, flines: seq<string>)
    requires PositionsIncrease(ts) && PositionsIndex(ts, flines) && AreDefinitions(ts, bodies)
    ensures forall n | 0 <= n < |bodies| :: bodies[n].open < |ts| && bodies[n].close < |ts|
    ensures Placeable(flines, Insertions(RecordedAll(ts, bodies)))
  {
    hide AreDefinitions;
    InsideText(ts, bodies);
    var xs := Insertions(RecordedAll(ts, bodies));
    forall i, j | 0 <= i < j < |xs| && xs[i].line == xs[j].line ensures xs[i].column < xs[j].column {
      assert Before(ts[bodies[i].open], ts[bodies[j].open]);
    }
  }

  lemma {:induction false} OnLineConcat(xs: seq<Insertion>, ys: seq<Insertion>, line: int)
    ensures OnLine(xs + ys, line) == OnLine(xs, line) + OnLine(ys, line)
  {
    if xs == [] {
      assert xs + ys == ys;
    } else {
      assert (xs + ys)[1..] == xs[1..] + ys;
      OnLineConcat(xs[1..], ys, line);
    }
  }

  /** The `n`-th insertion comes after those of its line among the first `n`. */
  lemma OnLineHas(xs: seq<Insertion>, n: nat)
    requires n < |xs|
    ensures var on, before := OnLine(xs, xs[n].line), OnLine(xs[..n], xs[n].line);
      |before| < |on| && on[|before|] == xs[n] && on[..|before|] == before
  {
    var line := xs[n].line;
    assert OnLine([xs[n]], line) == [xs[n]];
    hide OnLine;
    assert xs == xs[..n] + ([xs[n]] + xs[n + 1..]);
    OnLineConcat(xs[..n], [xs[n]] + xs[n + 1..], line);
    OnLineConcat([xs[n]], xs[n + 1..], line);
  }

  /** In an instrumented line, `text` stands immediately after an opening brace. */
  ghost predicate TimerAfterBrace(line: string, at: nat, text: string) {
    0 < at && at + |text| <= |line| && line[at - 1] == '{' && line[at..at + |text|] == text
  }

  /** The `n`-th text of a woven file stands right after the original character at its position. */
  lemma WovenPlaces(flines: seq<string>, xs: seq<Insertion>, n: nat)
    requires Placeable(flines, xs) && n < |xs|
    ensures 1 <= xs[n].line <= |flines| && 1 <= xs[n].column <= |flines[xs[n].line - 1]|
    ensures var x := xs[n];
      var w, at := Woven(flines, xs, x.line - 1), x.column + TotalLength(OnLine(xs[..n], x.line));
      && at + |x.text| <= |w|
      && w[at - 1] == flines[x.line - 1][x.column - 1]
      && w[at..at + |x.text|] == x.text
  {
    hide Weave, TotalLength, Ascends, OnLine;
    var x := xs[n];
    OnLineHas(xs, n);
    LineAscends(flines, xs, x.line);
    WeavePlaces(flines[x.line - 1], 0, OnLine(xs, x.line), |OnLine(xs[..n], x.line)|);
  }

  lemma BraceInText(ts: seq<Token>, flines: seq<string>, i: nat)
    requires PositionsIndex(ts, flines) && i < |ts| && ts[i].text == "{"
    ensures 1 <= ts[i].line <= |flines| && 1 <= ts[i].column <= |flines[ts[i].line - 1]|
    ensures flines[ts[i].line - 1][ts[i].column - 1] == '{'
  {
  }

  /**
   Every recorded body gets its timer right after its own opening brace: the brace is where it was, moved
   only by the timers of the earlier bodies on its line.
   */
  lemma {:induction false} TimerPlaced(ts: seq<Token>, bodies: seq<Body>, flines: seq<string>, n: nat)
    requires PositionsIncrease(ts) && PositionsIndex(ts, flines) && AreDefinitions(ts, bodies) && n < |bodies|
    ensures forall m | 0 <= m < |bodies| :: bodies[m].open < |ts| && bodies[m].close < |ts|
    ensures Placeable(flines, Insertions(RecordedAll(ts, bodies)))
    ensures var xs, brace := Insertions(RecordedAll(ts, bodies)), ts[bodies[n].open];
      var at := brace.column + TotalLength(OnLine(xs[..n], brace.line));
      && brace.text == "{" && 1 <= brace.line <= |flines|
      && TimerAfterBrace(Woven(flines, xs, brace.line - 1), at,
           if bodies[n].isMain then INIT + TIMER else TIMER)
  {
    hide AreDefinitions, Placeable, Woven, TotalLength, OnLine, PositionsIndex, PositionsIncrease;
    hide IsDefinition;
    InsideText(ts, bodies);
    ScanOrderSuffices(ts, bodies, flines);
    var xs := Insertions(RecordedAll(ts, bodies));
    BraceInText(ts, flines, bodies[n].open);
    WovenPlaces(flines, xs, n);
  }

  /** Tokens in, instrumented lines out; None for the IndexError of the scan. */
  method InstrumentFile(ts: seq<Token>, original: seq<string>) returns (r: Option<seq<string>>)
    requires PositionsIncrease(ts) && PositionsIndex(ts, original)
    ensures r.Some? <==> AllBodies(ts).Some?
    ensures r.Some? ==>
      var bodies := AllBodies(ts).value;
      && (forall n | 0 <= n < |bodies| :: bodies[n].open < |ts| && bodies[n].close < |ts|)
      && Placeable(original, Insertions(RecordedAll(ts, bodies)))
      && |r.value| == |original|
      && forall l | 0 <= l < |original| :: r.value[l] == Woven(original, Insertions(RecordedAll(ts, bodies)), l)
  {
    hide AllBodies, Placeable, Woven, AreDefinitions, PositionsIncrease, PositionsIndex;
    var scanner := new Scanner(ts);
    var ok := scanner.Scan();
    if !ok {
      return None;
    }
    AllBodiesAreDefinitions(ts);
    ScanOrderSuffices(ts, scanner.bodies, original);
    assert scanner.functions == RecordedAll(ts, scanner.bodies);
    var flines := Splice(original, scanner.functions);
    return Some(flines);
  }

  /** Deleting the inserted timers from an instrumented line gives back the original line. */
  lemma {:induction false} OriginalRecovered(flines: seq<string>, xs: seq<Insertion>, l: nat)
    requires Placeable(flines, xs) && l < |flines|
    ensures Strip(Woven(flines, xs, l), 0, OnLine(xs, l + 1)) == flines[l]
  {
    LineAscends(flines, xs, l + 1);
    StripWeave(flines[l], 0, OnLine(xs, l + 1));
  }
}
