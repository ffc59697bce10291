/**
 The second loop of the source instrumenter: a timer is spliced in after each opening brace, column by column,
 with a running offset per line. What each line becomes is stated without offsets.
 */
module InstrumentSplice {
  import opened InstrumentScan

  /** A text to insert after a (1-based) line and column of the original. */
  datatype Insertion = Insertion(line: int, column: int, text: string)

  const TIMER := "PERFSTUBS_SCOPED_TIMER_FUNC();"
  const INIT := "PS_SCOPED_INIT(); "

  function TimerText(isMain: bool): (text: string) {
    if isMain then INIT + TIMER else TIMER
  }

  function ForFunction(f: Function): (x: Insertion) {
    Insertion(f.openLine, f.openColumn, TimerText(f.isMain))
  }

  // ---------- What a line becomes ----------

  /** The insertions on one line, in order. */
  function OnLine(xs: seq<Insertion>, line: int): (r: seq<Insertion>)
    ensures forall x | x in r :: x in xs && x.line == line
  {
    if xs == [] then [] else (if xs[0].line == line then [xs[0]] else []) + OnLine(xs[1..], line)
  }

  lemma {:induction false} OnLineAppends(xs: seq<Insertion>, x: Insertion, line: int)
    ensures OnLine(xs + [x], line) == OnLine(xs, line) + if x.line == line then [x] else []
  {
    if xs != [] {
      assert (xs + [x])[1..] == xs[1..] + [x];
      OnLineAppends(xs[1..], x, line);
    }
  }

  /** Columns of one line, ascending from `from` and within the line. */
  predicate Ascends(xs: seq<Insertion>, from: int, size: nat) {
    if xs == [] then from <= size else from < xs[0].column && Ascends(xs[1..], xs[0].column, size)
  }

  /** The text of a line from column `from` on, with the insertions in their places. */
  function Weave(s: string, from: nat, xs: seq<Insertion>): (w: string)
    requires Ascends(xs, from, |s|)
    ensures |w| == |s| - from + TotalLength(xs)
    decreases |xs|
  {
    AscendsBounds(xs, from, |s|);
    if xs == [] then s[from..]
    else s[from..xs[0].column] + xs[0].text + Weave(s, xs[0].column, xs[1..])
  }

  lemma {:induction false} AscendsBounds(xs: seq<Insertion>, from: int, size: nat)
    requires Ascends(xs, from, size)
    ensures from <= size
    ensures forall i | 0 <= i < |xs| :: from < xs[i].column <= size
  {
    if xs != [] {
      AscendsBounds(xs[1..], xs[0].column, size);
    }
  }

  function TotalLength(xs: seq<Insertion>): (n: nat) {
    if xs == [] then 0 else |xs[0].text| + TotalLength(xs[1..])
  }

  lemma {:induction false} TotalLengthAppends(xs: seq<Insertion>, x: Insertion)
    ensures TotalLength(xs + [x]) == TotalLength(xs) + |x.text|
  {
    if xs != [] {
      assert (xs + [x])[1..] == xs[1..] + [x];
      TotalLengthAppends(xs[1..], x);
    }
  }

  lemma {:induction false} AscendsAppends(xs: seq<Insertion>, x: Insertion, from: int, size: nat)
    requires Ascends(xs, from, size) && from < x.column <= size
    requires forall i | 0 <= i < |xs| :: xs[i].column < x.column
    ensures Ascends(xs + [x], from, size)
  {
    if xs != [] {
      assert (xs + [x])[1..] == xs[1..] + [x];
      AscendsAppends(xs[1..], x, xs[0].column, size);
    }
  }

  function InsertAt(w: string, at: nat, text: string): (r: string)
    requires at <= |w|
  {
    w[..at] + text + w[at..]
  }

  lemma InsertAfterHead(head: string, tail: string, text: string, below: nat)
    requires below <= |tail|
    ensures head + InsertAt(tail, below, text) == InsertAt(head + tail, |head| + below, text)
  {
  }

  lemma WeaveCons(s: string, from: nat, y: Insertion, rest: seq<Insertion>)
    requires Ascends([y] + rest, from, |s|)
    ensures from < y.column <= |s| && Ascends(rest, y.column, |s|)
    ensures Weave(s, from, [y] + rest) == s[from..y.column] + y.text + Weave(s, y.column, rest)
    ensures TotalLength([y] + rest) == |y.text| + TotalLength(rest)
  {
    assert ([y] + rest)[1..] == rest;
    AscendsBounds(rest, y.column, |s|);
  }

  lemma WeaveFirst(s: string, from: nat, x: Insertion)
    requires Ascends([], from, |s|) && Ascends([] + [x], from, |s|)
    ensures TotalLength([]) == 0 && from <= x.column <= |s| && Weave(s, from, []) == s[from..]
    ensures Weave(s, from, [] + [x]) == InsertAt(s[from..], x.column - from, x.text)
  {
    assert [x] + [] == [x] == [] + [x];
    WeaveCons(s, from, x, []);
    assert s[from..][..x.column - from] == s[from..x.column] && s[from..][x.column - from..] == s[x.column..];
  }

  /** Inserting at the column shifted by what is already there is weaving in one more text. */
  lemma {:induction false} WeaveAppends(s: string, from: nat, xs: seq<Insertion>, x: Insertion)
    requires Ascends(xs, from, |s|) && Ascends(xs + [x], from, |s|)
    ensures 0 <= x.column - from + TotalLength(xs) <= |Weave(s, from, xs)|
    ensures Weave(s, from, xs + [x]) == InsertAt(Weave(s, from, xs), x.column - from + TotalLength(xs), x.text)
    decreases |xs|
  {
    hide Weave, Ascends, TotalLength, InsertAt;
    if xs == [] {
      WeaveFirst(s, from, x);
    } else {
      var y, rest := xs[0], xs[1..];
      assert xs == [y] + rest && xs + [x] == [y] + (rest + [x]);
      WeaveCons(s, from, y, rest);
      WeaveCons(s, from, y, rest + [x]);
      WeaveAppends(s, y.column, rest, x);
      var below := x.column - y.column + TotalLength(rest);
      InsertAfterHead(s[from..y.column] + y.text, Weave(s, y.column, rest), x.text, below);
    }
  }

  // ---------- The loop ----------

  /** Line by line, each insertion comes after the ones before it and inside the original text. */
  predicate Placeable(flines: seq<string>, xs: seq<Insertion>) {
    && (forall i | 0 <= i < |xs| :: 1 <= xs[i].line <= |flines| && 1 <= xs[i].column <= |flines[xs[i].line - 1]|)
    && (forall i, j | 0 <= i < j < |xs| && xs[i].line == xs[j].line :: xs[i].column < xs[j].column)
  }

  lemma PlaceablePrefix(flines: seq<string>, xs: seq<Insertion>, x: Insertion)
    requires Placeable(flines, xs + [x])
    ensures Placeable(flines, xs)
    ensures 1 <= x.line <= |flines| && 1 <= x.column <= |flines[x.line - 1]|
    ensures forall y | y in xs && y.line == x.line :: y.column < x.column
  {
    var all := xs + [x];
    assert all[|xs|] == x;
    assert forall i | 0 <= i < |xs| :: all[i] == xs[i];
  }

  lemma NothingAscends(size: nat, line: int)
    ensures Ascends(OnLine([], line), 0, size)
  {
  }

  lemma {:induction false} LineAscends(flines: seq<string>, xs: seq<Insertion>, line: int)
    requires Placeable(flines, xs) && 1 <= line <= |flines|
    ensures Ascends(OnLine(xs, line), 0, |flines[line - 1]|)
    decreases |xs|
  {
    hide Placeable, OnLine, Ascends;
    if xs == [] {
      NothingAscends(|flines[line - 1]|, line);
    } else {
      var init, x := xs[..|xs| - 1], xs[|xs| - 1];
      assert xs == init + [x];
      PlaceablePrefix(flines, init, x);
      LineAscends(flines, init, line);
      OnLineAppends(init, x, line);
      if x.line == line {
        var on := OnLine(init, line);
        assert forall i | 0 <= i < |on| :: on[i] in on;
        AscendsAppends(on, x, 0, |flines[line - 1]|);
      } else {
        assert OnLine(init, line) + [] == OnLine(init, line);
      }
    }
  }

  function Woven(flines: seq<string>, xs: seq<Insertion>, l: nat): (w: string)
    requires l < |flines| && Placeable(flines, xs)
    ensures |w| == |flines[l]| + TotalLength(OnLine(xs, l + 1))
  {
    LineAscends(flines, xs, l + 1);
    Weave(flines[l], 0, OnLine(xs, l + 1))
  }

  /** One round on the line it changes. */
  lemma WovenRound(flines: seq<string>, xs: seq<Insertion>, x: Insertion)
    requires Placeable(flines, xs + [x])
    ensures Placeable(flines, xs) && 1 <= x.line <= |flines| && 1 <= x.column
    ensures var l := x.line - 1;
      var w, at := Woven(flines, xs, l), x.column + TotalLength(OnLine(xs, x.line));
      at <= |w| && Woven(flines, xs + [x], l) == InsertAt(w, at, x.text)
    ensures TotalLength(OnLine(xs + [x], x.line)) == TotalLength(OnLine(xs, x.line)) + |x.text|
    ensures forall l | 0 <= l < |flines| && l + 1 != x.line :: Woven(flines, xs + [x], l) == Woven(flines, xs, l)
    ensures forall line | line != x.line :: OnLine(xs + [x], line) == OnLine(xs, line)
  {
    hide Weave, Ascends, TotalLength, OnLine, Placeable;
    PlaceablePrefix(flines, xs, x);
    forall line ensures OnLine(xs + [x], line) == if x.line == line then OnLine(xs, line) + [x] else OnLine(xs, line) {
      OnLineAppends(xs, x, line);
      assert OnLine(xs, line) + [] == OnLine(xs, line);
    }
    LineAscends(flines, xs, x.line);
    LineAscends(flines, xs + [x], x.line);
    WeaveAppends(flines[x.line - 1], 0, OnLine(xs, x.line), x);
    TotalLengthAppends(OnLine(xs, x.line), x);
  }

  function Insertions(functions: seq<Function>): (xs: seq<Insertion>)
    ensures |xs| == |functions| && forall i | 0 <= i < |xs| :: xs[i] == ForFunction(functions[i])
  {
    seq(|functions|, i requires 0 <= i < |functions| => ForFunction(functions[i]))
  }

  ghost predicate Spliced(original: seq<string>, xs: seq<Insertion>, flines: seq<string>) {
    && Placeable(original, xs) && |flines| == |original|
    && forall l | 0 <= l < |flines| :: flines[l] == Woven(original, xs, l)
  }

  function OffsetOn(lineOffsets: map<int, int>, line: int): (offset: int) {
    if line in lineOffsets then lineOffsets[line] else 0
  }

  ghost predicate OffsetsAre(xs: seq<Insertion>, lineOffsets: map<int, int>) {
    forall line :: OffsetOn(lineOffsets, line) == TotalLength(OnLine(xs, line))
  }

  /** One round of the loop keeps the lines woven and the offsets exact. */
  lemma SpliceRound(original: seq<string>, xs: seq<Insertion>, x: Insertion,
                    flines: seq<string>, lineOffsets: map<int, int>)
    requires Spliced(original, xs, flines) && OffsetsAre(xs, lineOffsets) && Placeable(original, xs + [x])
    ensures 1 <= x.line <= |flines| && OffsetOn(lineOffsets, x.line) >= 0 && x.column >= 1
    ensures var offset, l := OffsetOn(lineOffsets, x.line), x.line - 1;
      && x.column + offset <= |flines[l]|
      && Spliced(original, xs + [x], flines[l := InsertAt(flines[l], x.column + offset, x.text)])
      && OffsetsAre(xs + [x], lineOffsets[x.line := offset + |x.text|])
  {
    hide OnLine, TotalLength, Placeable, InsertAt, Woven;
    WovenRound(original, xs, x);
  }

  /** The splice loop: each line ends up with its insertions in their original places. */
  method Splice(original: seq<string>, functions: seq<Function>) returns (flines: seq<string>)
    requires Placeable(original, Insertions(functions))
    ensures |flines| == |original|
    ensures forall l | 0 <= l < |flines| :: flines[l] == Woven(original, Insertions(functions), l)
  {
    hide Woven, Placeable, Insertions, OffsetsAre, Spliced;
    ghost var xs := Insertions(functions);
    flines := original;
    var lineOffsets: map<int, int> := map[];
    NothingWoven(original);
    for n := 0 to |functions|
      invariant Spliced(original, xs[..n], flines) && OffsetsAre(xs[..n], lineOffsets)
    {
      var func := functions[n];
      assert xs[..n + 1] == xs[..n] + [xs[n]];
      PlaceableUpTo(original, xs, n + 1);
      SpliceRound(original, xs[..n], xs[n], flines, lineOffsets);
      var line, col := func.openLine, func.openColumn;
      var iline, icol := line - 1, col - 1;
      if line in lineOffsets {
        icol := icol + lineOffsets[line];
      }
      var toins := TIMER;
      if func.isMain {
        toins := INIT + toins;
      }
      var orig := flines[iline];
      flines := flines[iline := orig[..icol + 1] + toins + orig[icol + 1..]];
      if line in lineOffsets {
        lineOffsets := lineOffsets[line := lineOffsets[line] + |toins|];
      } else {
        lineOffsets := lineOffsets[line := |toins|];
      }
    }
    assert xs[..|functions|] == xs;
    SplicedMeans(original, xs, flines);
  }

  lemma SplicedMeans(original: seq<string>, xs: seq<Insertion>, flines: seq<string>)
    requires Spliced(original, xs, flines)
    ensures Placeable(original, xs) && |flines| == |original|
    ensures forall l | 0 <= l < |flines| :: flines[l] == Woven(original, xs, l)
  {
  }

  lemma NothingWoven(original: seq<string>)
    ensures Spliced(original, [], original) && OffsetsAre([], map[])
  {
  }

  lemma PlaceableUpTo(flines: seq<string>, xs: seq<Insertion>, n: nat)
    requires Placeable(flines, xs) && n <= |xs|
    ensures Placeable(flines, xs[..n])
  {
  }

  // ---------- What weaving means ----------

  /** Cutting the inserted texts out again, at the places where they went in. */
  function Strip(w: string, from: int, xs: seq<Insertion>): (s: string)
    decreases |xs|
  {
    if xs == [] then w
    else
      var cut := xs[0].column - from;
      if cut < 0 || |w| < cut + |xs[0].text| then w
      else w[..cut] + Strip(w[cut + |xs[0].text|..], xs[0].column, xs[1..])
  }

  /** Deleting the inserted texts gives back the original line. */
  lemma {:induction false} StripWeave(s: string, from: nat, xs: seq<Insertion>)
    requires Ascends(xs, from, |s|)
    ensures from <= |s| && Strip(Weave(s, from, xs), from, xs) == s[from..]
    decreases |xs|
  {
    AscendsBounds(xs, from, |s|);
    if xs != [] {
      hide Weave, Ascends, TotalLength;
      var y, rest := xs[0], xs[1..];
      assert xs == [y] + rest;
      WeaveCons(s, from, y, rest);
      var head, tail := s[from..y.column], Weave(s, y.column, rest);
      hide Strip;
      StripFirst(head, tail, from, y, rest);
      StripWeave(s, y.column, rest);
      assert head + s[y.column..] == s[from..];
    }
  }

  lemma StripFirst(head: string, tail: string, from: int, y: Insertion, rest: seq<Insertion>)
    requires |head| == y.column - from
    ensures Strip(head + y.text + tail, from, [y] + rest) == head + Strip(tail, y.column, rest)
  {
    var w := head + y.text + tail;
    assert ([y] + rest)[1..] == rest && w[..|head|] == head && w[|head| + |y.text|..] == tail;
  }

  /** The `j`-th text stands right after the original character at its column. */
  lemma {:induction false} WeavePlaces(s: string, from: nat, xs: seq<Insertion>, j: nat)
    requires Ascends(xs, from, |s|) && j < |xs|
    ensures from < xs[j].column <= |s|
    ensures var w, at := Weave(s, from, xs), xs[j].column - from + TotalLength(xs[..j]);
      && 0 < at && at + |xs[j].text| <= |w|
      && w[at - 1] == s[xs[j].column - 1]
      && w[at..at + |xs[j].text|] == xs[j].text
    decreases |xs|
  {
    hide Weave, Ascends, TotalLength;
    var y, rest := xs[0], xs[1..];
    assert xs == [y] + rest;
    WeaveCons(s, from, y, rest);
    var head, tail := s[from..y.column], Weave(s, y.column, rest);
    if j == 0 {
      assert xs[..0] == [];
      NoLength();
      PlacedInTail(head, y.text + tail, 0, y.text);
      assert head + (y.text + tail) == head + y.text + tail;
    } else {
      assert rest[j - 1] == xs[j];
      WeavePlaces(s, y.column, rest, j - 1);
      LengthBefore(xs, j);
      var below := xs[j].column - y.column + TotalLength(rest[..j - 1]);
      PlacedInTail(head + y.text, tail, below, xs[j].text);
      assert |head + y.text| + below == xs[j].column - from + TotalLength(xs[..j]);
    }
  }

  lemma LengthBefore(xs: seq<Insertion>, j: nat)
    requires 0 < j <= |xs|
    ensures TotalLength(xs[..j]) == |xs[0].text| + TotalLength(xs[1..][..j - 1])
  {
    hide TotalLength;
    assert xs[..j] == [xs[0]] + xs[1..][..j - 1];
    TotalLengthCons(xs[0], xs[1..][..j - 1]);
  }

  lemma NoLength()
    ensures TotalLength([]) == 0
  {
  }

  lemma TotalLengthCons(y: Insertion, rest: seq<Insertion>)
    ensures TotalLength([y] + rest) == |y.text| + TotalLength(rest)
  {
    assert ([y] + rest)[1..] == rest;
  }

  lemma PlacedInTail(head: string, tail: string, below: nat, text: string)
    requires 0 <= below && below + |text| <= |tail| && tail[below..below + |text|] == text && 0 < |head|
    ensures var w, at := head + tail, |head| + below;
      w[at - 1] == (if below == 0 then head[|head| - 1] else tail[below - 1]) && w[at..at + |text|] == text
  {
  }

  /** The offsets rely on the order: with the later column first, the other text goes astray. */
  lemma OrderIsNeeded()
    ensures var s, late, early := "{}{}", Insertion(1, 3, ";"), Insertion(1, 1, ";");
      var once := s[..late.column] + late.text + s[late.column..];
      var at := early.column + |late.text|;
      once[..at] + early.text + once[at..] == "{};{;}" && Weave(s, 0, [early, late]) == "{;}{;}"
  {
    var xs := [Insertion(1, 1, ";"), Insertion(1, 3, ";")];
    assert xs[1..] == [Insertion(1, 3, ";")] && xs[1..][1..] == [];
    var s := "{}{}";
    assert s[0..1] == "{" && s[1..3] == "}{" && s[3..] == "}";
  }
}
