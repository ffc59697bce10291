/**
 What the scan of the source instrumenter finds and passes over: every parenthesis that may start a definition is
 accounted for, from the tokens alone and apart from the searches that find the bodies.
 */
module InstrumentReadings {
  import opened InstrumentTokens
  import opened Wrappers

  // ---------- Depths ----------

  function Places(ts: seq<Token>, text: string, i: int): (places: set<int>)
    requires i < |ts|
  {
    set j: int | 2 <= j <= i && ts[j].text == text
  }

  /** A depth is the number of opening brackets less that of closing ones, from the third token on. */
  lemma {:induction false} DepthCounts(ts: seq<Token>, left: string, right: string, i: int)
    requires i < |ts| && left != right
    ensures Depth(ts, left, right, i) == |Places(ts, left, i)| - |Places(ts, right, i)|
    decreases i
  {
    if i < 2 {
      assert Places(ts, left, i) == {} && Places(ts, right, i) == {};
    } else {
      DepthCounts(ts, left, right, i - 1);
      PlacesGrow(ts, left, i);
      PlacesGrow(ts, right, i);
    }
  }

  lemma PlacesGrow(ts: seq<Token>, text: string, i: int)
    requires 2 <= i < |ts|
    ensures |Places(ts, text, i)| == |Places(ts, text, i - 1)| + if ts[i].text == text then 1 else 0
  {
    var before := Places(ts, text, i - 1);
    assert Places(ts, text, i) == if ts[i].text == text then before + {i} else before;
  }

  // ---------- Preprocessor lines ----------

  predicate Directive(ts: seq<Token>, p: int) {
    2 <= p < |ts| && ts[p].kind == Keyword && ts[p - 1].text == "#"
  }

  /** `lines[j]` is the line the directive has reached at token `j`: the same, or the next after a backslash. */
  predicate Continues(ts: seq<Token>, lines: seq<int>, j: int)
    requires 1 <= j < |ts| == |lines|
  {
    if ts[j].line == lines[j - 1] then lines[j] == lines[j - 1]
    else ts[j - 1].text == BACKSLASH && lines[j] == lines[j - 1] + 1
  }

  /** Token `i` is on the logical line of the directive at `p`, the last one before it. */
  predicate OnLogicalLine(ts: seq<Token>, p: int, i: int, lines: seq<int>) {
    && 2 <= p <= i < |ts| == |lines| && Directive(ts, p) && lines[p] == ts[p].line
    && (forall j | p < j <= i :: !Directive(ts, j))
    && (forall j | p < j <= i :: Continues(ts, lines, j))
  }

  ghost predicate OnDirective(ts: seq<Token>, i: int) {
    exists p: int, lines: seq<int> :: OnLogicalLine(ts, p, i, lines)
  }

  lemma {:induction false} PreprocessorLine(ts: seq<Token>, i: int) returns (p: int, lines: seq<int>)
    requires i < |ts| && Preproc(ts, i).on
    ensures OnLogicalLine(ts, p, i, lines) && lines[i] == Preproc(ts, i).at
    decreases i
  {
    if Directive(ts, i) {
      p, lines := i, seq(|ts|, _ => ts[i].line);
    } else {
      var before: seq<int>;
      p, before := PreprocessorLine(ts, i - 1);
      lines := before[i := Preproc(ts, i).at];
      forall j | p < j <= i ensures Continues(ts, lines, j) {
        assert j < i ==> Continues(ts, before, j);
      }
    }
  }

  lemma {:induction false} LineIsPreprocessor(ts: seq<Token>, p: int, i: int, lines: seq<int>)
    requires OnLogicalLine(ts, p, i, lines)
    ensures Preproc(ts, i).on && Preproc(ts, i).at == lines[i]
    decreases i
  {
    if p < i {
      LineIsPreprocessor(ts, p, i - 1, lines);
      assert Continues(ts, lines, i) && !Directive(ts, i);
    }
  }

  /** The preprocessor flag marks the tokens of the logical lines of directives. */
  lemma PreprocessorMeans(ts: seq<Token>, i: int)
    requires i < |ts|
    ensures Preproc(ts, i).on <==> OnDirective(ts, i)
  {
    hide Preproc, OnLogicalLine;
    if Preproc(ts, i).on {
      var p, lines := PreprocessorLine(ts, i);
    } else if OnDirective(ts, i) {
      var p: int, lines: seq<int> :| OnLogicalLine(ts, p, i, lines);
      LineIsPreprocessor(ts, p, i, lines);
    }
  }

  // ---------- Templates and classes ----------

  predicate TemplateWord(ts: seq<Token>, q: int) {
    2 <= q < |ts| && ts[q].kind == Keyword && ts[q].text == "template"
  }

  predicate ClosesAngle(ts: seq<Token>, q: int, j: int)
    requires q < |ts| && j < |ts| && 0 <= j
  {
    ts[j].text == ">" && Trib(ts, j) == Trib(ts, q)
  }

  /** The list of the last `template` before `i` is open: no bracket has returned to its depth. */
  predicate InListOf(ts: seq<Token>, q: int, i: int) {
    && TemplateWord(ts, q) && q <= i < |ts|
    && forall j | q < j <= i :: !TemplateWord(ts, j) && !ClosesAngle(ts, q, j)
  }

  ghost predicate InTemplate(ts: seq<Token>, i: int) {
    exists q: int :: InListOf(ts, q, i)
  }

  lemma {:induction false} TemplateOpen(ts: seq<Token>, i: int) returns (q: int)
    requires i < |ts| && Template(ts, i).on
    ensures InListOf(ts, q, i) && Template(ts, i).at == Trib(ts, q)
    decreases i
  {
    hide Depth;
    if TemplateWord(ts, i) {
      q := i;
    } else {
      q := TemplateOpen(ts, i - 1);
    }
  }

  lemma {:induction false} ListIsTemplate(ts: seq<Token>, q: int, i: int)
    requires InListOf(ts, q, i)
    ensures Template(ts, i).on && Template(ts, i).at == Trib(ts, q)
    decreases i
  {
    hide Depth;
    if q < i {
      ListIsTemplate(ts, q, i - 1);
      assert !TemplateWord(ts, i) && !ClosesAngle(ts, q, i);
    }
  }

  lemma TemplateMeans(ts: seq<Token>, i: int)
    requires i < |ts|
    ensures Template(ts, i).on <==> InTemplate(ts, i)
  {
    hide Template, InListOf;
    if Template(ts, i).on {
      var q := TemplateOpen(ts, i);
    } else if InTemplate(ts, i) {
      var q: int :| InListOf(ts, q, i);
      ListIsTemplate(ts, q, i);
    }
  }

  /** A class or struct keyword that is no template parameter. */
  ghost predicate ClassWord(ts: seq<Token>, p: int) {
    2 <= p < |ts| && (ts[p].text == "class" || ts[p].text == "struct") && !InTemplate(ts, p)
  }

  predicate ClosesBody(ts: seq<Token>, p: int, j: int)
    requires p < |ts| && j < |ts| && 0 <= j
  {
    ts[j].text == "}" && Brace(ts, j) == Brace(ts, p)
  }

  /** The class of the last such keyword before `i` is open: no brace has returned to its depth. */
  ghost predicate InClassOf(ts: seq<Token>, p: int, i: int) {
    && ClassWord(ts, p) && p <= i < |ts|
    && forall j | p < j <= i :: !ClassWord(ts, j) && !ClosesBody(ts, p, j)
  }

  ghost predicate InClass(ts: seq<Token>, i: int) {
    exists p: int :: InClassOf(ts, p, i)
  }

  lemma ClassWordMeans(ts: seq<Token>, i: int)
    requires i < |ts|
    ensures OpensClass(ts, i) <==> ClassWord(ts, i)
  {
    hide Template, InTemplate;
    if i >= 2 {
      TemplateMeans(ts, i);
    }
  }

  lemma {:induction false} ClassOpen(ts: seq<Token>, i: int) returns (p: int)
    requires i < |ts| && Class(ts, i).on
    ensures InClassOf(ts, p, i) && Class(ts, i).at == Brace(ts, p)
    decreases i
  {
    hide Depth, OpensClass, ClassWord;
    ClassWordMeans(ts, i);
    if OpensClass(ts, i) {
      NeedsIndex(ts, i);
      p := i;
    } else {
      p := ClassOpen(ts, i - 1);
    }
  }

  lemma NeedsIndex(ts: seq<Token>, i: int)
    requires i < |ts| && OpensClass(ts, i)
    ensures i >= 2
  {
  }

  lemma {:induction false} BodyIsClass(ts: seq<Token>, p: int, i: int)
    requires InClassOf(ts, p, i)
    ensures Class(ts, i).on && Class(ts, i).at == Brace(ts, p)
    decreases i
  {
    hide Depth, OpensClass, InTemplate;
    ClassWordMeans(ts, i);
    if p < i {
      BodyIsClass(ts, p, i - 1);
      assert !ClassWord(ts, i) && !ClosesBody(ts, p, i);
    }
  }

  /** The class flag marks what lies between a class keyword and the brace that closes the class. */
  lemma ClassMeans(ts: seq<Token>, i: int)
    requires i < |ts|
    ensures Class(ts, i).on <==> InClass(ts, i)
  {
    hide Class, InClassOf;
    if Class(ts, i).on {
      var p := ClassOpen(ts, i);
    } else if InClass(ts, i) {
      var p: int :| InClassOf(ts, p, i);
      BodyIsClass(ts, p, i);
    }
  }

  // ---------- What may start a definition ----------

  /** A skipped keyword at `j`, with no closing brace or semicolon from there to `i`. */
  predicate SkippedFrom(ts: seq<Token>, j: int, i: int) {
    && 0 <= j <= i < |ts|
    && (ts[j].text == "constexpr" || ts[j].text == "global__" || ts[j].text == "device__")
    && forall k | j <= k <= i :: ts[k].text != "}" && ts[k].text != ";"
  }

  ghost predicate SkippedBefore(ts: seq<Token>, i: int) {
    exists j: int :: SkippedFrom(ts, j, i)
  }

  lemma {:induction false} KeywordMeans(ts: seq<Token>, i: int)
    requires i < |ts|
    ensures KeywordBefore(ts, i) <==> SkippedBefore(ts, i)
    decreases i
  {
    if i >= 0 {
      KeywordMeans(ts, i - 1);
      if ts[i].text in ["}", ";"] {
      } else if ts[i].text in SKIPPED_KEYWORDS {
        assert SkippedFrom(ts, i, i);
      } else if KeywordBefore(ts, i - 1) {
        var j: int :| SkippedFrom(ts, j, i - 1);
        assert SkippedFrom(ts, j, i);
      } else {
        forall j: int ensures !SkippedFrom(ts, j, i) {
          assert !SkippedFrom(ts, j, i - 1);
        }
      }
    }
  }

  /**
   An opening parenthesis after an identifier that is no control keyword, off the preprocessor lines, with no
   skipped keyword back to the previous closing brace or semicolon.
   */
  ghost predicate Eligible(ts: seq<Token>, a: int) {
    && 2 <= a < |ts| && ts[a].text == "("
    && ts[a - 1].kind == Identifier
    && ts[a - 1].text != "for" && ts[a - 1].text != "while" && ts[a - 1].text != "if"
    && !OnDirective(ts, a)
    && !SkippedBefore(ts, a - 3)
  }

  /** A function called `main`, unqualified and outside any class. */
  ghost predicate IsMain(ts: seq<Token>, a: int)
    requires 2 <= a < |ts|
  {
    ts[a - 1].text == "main" && ts[a - 2].text != "::" && !InClass(ts, a)
  }

  lemma CandidateMeans(ts: seq<Token>, a: int)
    requires 2 <= a < |ts|
    ensures Candidate(ts, a) <==> Eligible(ts, a)
    ensures NamedMain(ts, a) <==> IsMain(ts, a)
  {
    hide Preproc, OnDirective, Class, InClass, KeywordBefore, SkippedBefore;
    PreprocessorMeans(ts, a);
    KeywordMeans(ts, a - 3);
    ClassMeans(ts, a);
  }

  // ---------- Readings ----------

  /** After arguments that close at `b`, this token means that no definition follows. */
  predicate Forbids(ts: seq<Token>, b: nat, k: int)
    requires b + 1 < |ts| && b < k < |ts|
  {
    || ts[k].text == ";"
    || (ts[k].kind == Identifier && ts[b + 1].text != ":" && ts[b + 1].text != "->")
  }

  /** A brace outside the parentheses that initializes no member. */
  predicate BodyBrace(ts: seq<Token>, a: nat, b: nat, k: int)
    requires a < b && b + 1 < |ts| && b < k < |ts|
  {
    && ts[k].text == "{" && Paren(ts, k) == Paren(ts, a) - 1
    && !(ts[b + 1].text == ":" && ts[k - 1].kind == Identifier)
  }

  predicate Undecided(ts: seq<Token>, a: nat, b: nat, end: int)
    requires a < b && b + 1 < |ts| && end <= |ts|
  {
    forall k | b < k < end :: !Forbids(ts, b, k) && !BodyBrace(ts, a, b, k)
  }

  /** The tokens from `start` to `end` are read as one possible definition, which may turn out to be none. */
  datatype Reading = Reading(start: nat, end: nat, body: Option<Body>)

  ghost predicate ReadsBody(ts: seq<Token>, start: nat, end: nat, body: Body) {
    && body.argOpen == start && body.close == end
    && Matches(ts, "(", ")", start, body.argClose) && body.argClose < body.open < end < |ts|
    && Undecided(ts, start, body.argClose, body.open)
    && BodyBrace(ts, start, body.argClose, body.open) && !Forbids(ts, body.argClose, body.open)
    && Matches(ts, "{", "}", body.open, end)
    && (body.isMain <==> IsMain(ts, start))
  }

  /** Parentheses that never close, arguments that no body follows, or a body that never closes. */
  ghost predicate ReadsNone(ts: seq<Token>, start: nat, end: nat) {
    || (end == |ts| - 1 && forall b: nat :: !Matches(ts, "(", ")", start, b))
    || (exists b: nat :: Matches(ts, "(", ")", start, b) && b + 1 < |ts| && EndsWithoutBody(ts, start, b, end))
  }

  ghost predicate EndsWithoutBody(ts: seq<Token>, start: nat, b: nat, end: nat)
    requires start < b && b + 1 < |ts|
  {
    || (b < end < |ts| && Undecided(ts, start, b, end) && Forbids(ts, b, end))
    || (end == |ts| - 1 && Undecided(ts, start, b, |ts|))
    || (end == |ts| - 1 && exists k: nat :: UnclosedBody(ts, start, b, k))
  }

  ghost predicate UnclosedBody(ts: seq<Token>, start: nat, b: nat, k: nat)
    requires start < b && b + 1 < |ts|
  {
    && b < k < |ts| && Undecided(ts, start, b, k) && BodyBrace(ts, start, b, k) && !Forbids(ts, b, k)
    && forall c: nat :: !Matches(ts, "{", "}", k, c)
  }

  ghost predicate Reads(ts: seq<Token>, r: Reading) {
    && Eligible(ts, r.start) && r.start <= r.end < |ts|
    && match r.body
       case Some(body) => ReadsBody(ts, r.start, r.end, body)
       case None => ReadsNone(ts, r.start, r.end)
  }

  function BodiesOf(rs: seq<Reading>): (bodies: seq<Body>) {
    if rs == [] then [] else (if rs[0].body.Some? then [rs[0].body.value] else []) + BodiesOf(rs[1..])
  }

  /** One reading after the other, from token `from` on. */
  predicate Successive(rs: seq<Reading>, from: int) {
    && (forall n | 0 <= n < |rs| :: from <= rs[n].start)
    && (forall m, n | 0 <= m < n < |rs| :: rs[m].end < rs[n].start)
  }

  ghost predicate Covers(rs: seq<Reading>, a: int) {
    exists n :: 0 <= n < |rs| && rs[n].start <= a <= rs[n].end
  }

  /** Every parenthesis that may start a definition, from `from` up to `to`, is in one of the readings. */
  ghost predicate Complete(ts: seq<Token>, rs: seq<Reading>, from: int, to: int) {
    forall a | from <= a < to && Eligible(ts, a) :: Covers(rs, a)
  }

  ghost predicate Readings(ts: seq<Token>, rs: seq<Reading>, from: int, to: int) {
    && (forall n | 0 <= n < |rs| :: Reads(ts, rs[n]))
    && Successive(rs, from) && Complete(ts, rs, from, to)
  }

  // ---------- The search reads every parenthesis ----------

  lemma NoReadings(ts: seq<Token>, from: int, to: int)
    requires to <= from
    ensures Readings(ts, [], from, to) && BodiesOf([]) == []
  {
  }

  lemma SkipsOne(ts: seq<Token>, rs: seq<Reading>, from: int, to: int)
    requires Readings(ts, rs, from + 1, to) && !Eligible(ts, from)
    ensures Readings(ts, rs, from, to)
  {
    hide Reads, Eligible;
    forall a | from <= a < to && Eligible(ts, a) ensures Covers(rs, a) {
    }
  }

  lemma ReadsFirst(ts: seq<Token>, r: Reading, rs: seq<Reading>, to: int)
    requires Reads(ts, r) && r.start <= r.end && Readings(ts, rs, r.end + 1, to)
    ensures Readings(ts, [r] + rs, r.start, to)
    ensures BodiesOf([r] + rs) == (if r.body.Some? then [r.body.value] else []) + BodiesOf(rs)
  {
    hide Reads, Eligible;
    var all := [r] + rs;
    assert all[1..] == rs;
    forall a | r.start <= a < to && Eligible(ts, a) ensures Covers(all, a) {
      if a <= r.end {
        assert all[0] == r;
      } else {
        var n :| 0 <= n < |rs| && rs[n].start <= a <= rs[n].end;
        assert all[n + 1] == rs[n];
      }
    }
  }

  lemma Unmatched(ts: seq<Token>, left: string, right: string, outside: int, open: nat)
    requires 2 <= open < |ts| && outside == Depth(ts, left, right, open) - 1
    requires forall n | open < n < |ts| :: !Closes(ts, left, right, outside, n)
    ensures forall c: nat :: !Matches(ts, left, right, open, c)
  {
    hide Depth;
    forall c: nat ensures !Matches(ts, left, right, open, c) {
      if open < c < |ts| {
        assert !Closes(ts, left, right, outside, c);
      }
    }
  }

  lemma NoParenthesis(ts: seq<Token>, a: nat)
    requires 2 <= a < |ts| && First(ts, CloseParen(Paren(ts, a) - 1), a + 1) == |ts|
    ensures forall b: nat :: !Matches(ts, "(", ")", a, b)
  {
    hide Depth, Matches;
    var g := CloseParen(Paren(ts, a) - 1);
    forall n | a < n < |ts| ensures !Closes(ts, "(", ")", g.depth, n) {
      assert !Met(ts, g, n);
    }
    Unmatched(ts, "(", ")", g.depth, a);
  }

  lemma NoBrace(ts: seq<Token>, k: nat)
    requires 2 <= k < |ts| && First(ts, CloseBrace(Brace(ts, k) - 1), k + 1) == |ts|
    ensures forall c: nat :: !Matches(ts, "{", "}", k, c)
  {
    hide Depth, Matches;
    var g := CloseBrace(Brace(ts, k) - 1);
    forall n | k < n < |ts| ensures !Closes(ts, "{", "}", g.depth, n) {
      assert !Met(ts, g, n);
    }
    Unmatched(ts, "{", "}", g.depth, k);
  }

  lemma GoalMeans(ts: seq<Token>, a: nat, b: nat, k: int)
    requires 2 <= a < b && b + 1 < |ts| && b < k < |ts|
    ensures var g := BodyGoal(ts, a, b);
      && (Abandons(ts, g, k) <==> Forbids(ts, b, k))
      && (OpensBody(ts, g, k) <==> BodyBrace(ts, a, b, k) && !Forbids(ts, b, k))
      && (Met(ts, g, k) <==> Forbids(ts, b, k) || BodyBrace(ts, a, b, k))
  {
    hide Depth;
  }

  lemma UndecidedUntil(ts: seq<Token>, a: nat, b: nat)
    requires 2 <= a < b && b + 1 < |ts|
    ensures Undecided(ts, a, b, First(ts, BodyGoal(ts, a, b), b + 1))
  {
    hide Depth, Met, BodyGoal, Forbids, BodyBrace;
    var g := BodyGoal(ts, a, b);
    forall k | b < k < First(ts, g, b + 1) ensures !Forbids(ts, b, k) && !BodyBrace(ts, a, b, k) {
      GoalMeans(ts, a, b, k);
    }
  }

  lemma EndUnread(ts: seq<Token>, a: nat)
    requires 2 <= a < |ts| && Candidate(ts, a) && First(ts, CloseParen(Paren(ts, a) - 1), a + 1) == |ts|
    ensures Reads(ts, Reading(a, |ts| - 1, None))
  {
    hide Candidate, Eligible, Matches, First, Depth;
    CandidateMeans(ts, a);
    NoParenthesis(ts, a);
  }

  lemma ReadWithoutBody(ts: seq<Token>, a: nat, b: nat, end: nat)
    requires 2 <= a < |ts| && Candidate(ts, a) && Matches(ts, "(", ")", a, b) && b + 1 < |ts|
    requires a <= end < |ts| && EndsWithoutBody(ts, a, b, end)
    ensures Reads(ts, Reading(a, end, None))
  {
    hide Candidate, Eligible, Matches, EndsWithoutBody;
    CandidateMeans(ts, a);
  }

  lemma ReadWithBody(ts: seq<Token>, a: nat, b: nat, k: nat, c: nat)
    requires 2 <= a < b < k < c < |ts| && Candidate(ts, a)
    requires Matches(ts, "(", ")", a, b) && Matches(ts, "{", "}", k, c)
    requires Undecided(ts, a, b, k) && BodyBrace(ts, a, b, k) && !Forbids(ts, b, k)
    ensures Reads(ts, Reading(a, c, Some(Body(NamedMain(ts, a), a, b, k, c))))
  {
    hide Candidate, Eligible, Matches, NamedMain, IsMain, Undecided, BodyBrace, Forbids;
    CandidateMeans(ts, a);
  }

  lemma {:induction false} ReadFrom(ts: seq<Token>, i: nat) returns (rs: seq<Reading>)
    requires 2 <= i && Bodies(ts, i).Some?
    ensures Readings(ts, rs, i, |ts|) && BodiesOf(rs) == Bodies(ts, i).value
    decreases |ts| - i
  {
    hide Depth, First, Candidate, Eligible, Matches, Met, Reads, Readings, NamedMain, BodiesOf;
    hide Undecided, Forbids, BodyBrace, EndsWithoutBody, BodyGoal, OpensBody;
    if i >= |ts| {
      rs := [];
      NoReadings(ts, i, |ts|);
    } else if !Candidate(ts, i) {
      rs := ReadFrom(ts, i + 1);
      CandidateMeans(ts, i);
      SkipsOne(ts, rs, i, |ts|);
    } else {
      var b := First(ts, CloseParen(Paren(ts, i) - 1), i + 1);
      assert Bodies(ts, i) == FromArguments(ts, i, b);
      if b == |ts| {
        EndUnread(ts, i);
        rs := ReadToEnd(ts, Reading(i, |ts| - 1, None));
      } else {
        OpensWithParenthesis(ts, i);
        ArgumentsMatch(ts, i, b);
        rs := ReadArguments(ts, i, b);
      }
    }
  }

  lemma OpensWithParenthesis(ts: seq<Token>, i: nat)
    requires 2 <= i < |ts| && Candidate(ts, i)
    ensures ts[i].text == "("
  {
  }

  lemma ReadToEnd(ts: seq<Token>, r: Reading) returns (rs: seq<Reading>)
    requires Reads(ts, r) && r.start <= r.end == |ts| - 1 && r.body.None?
    ensures Readings(ts, rs, r.start, |ts|) && BodiesOf(rs) == []
  {
    hide Reads, Readings, BodiesOf;
    NoReadings(ts, |ts|, |ts|);
    ReadsFirst(ts, r, [], |ts|);
    rs := [r] + [];
  }

  /** The cases after the arguments have closed at `b`. */
  lemma {:induction false} ReadArguments(ts: seq<Token>, i: nat, b: nat) returns (rs: seq<Reading>)
    requires 2 <= i < b < |ts| && Candidate(ts, i) && Matches(ts, "(", ")", i, b)
    requires FromArguments(ts, i, b).Some?
    ensures Readings(ts, rs, i, |ts|) && BodiesOf(rs) == FromArguments(ts, i, b).value
    decreases |ts| - i, 0
  {
    hide Depth, First, Candidate, Eligible, Matches, Met, Reads, Readings, NamedMain, BodiesOf;
    hide Undecided, Forbids, BodyBrace, EndsWithoutBody, BodyGoal, OpensBody, Bodies;
    var g := BodyGoal(ts, i, b);
    var k := First(ts, g, b + 1);
    assert FromArguments(ts, i, b) == FromGoal(ts, i, b, k);
    UndecidedUntil(ts, i, b);
    if k == |ts| {
      NothingFollows(ts, i, b);
      ReadWithoutBody(ts, i, b, |ts| - 1);
      rs := ReadToEnd(ts, Reading(i, |ts| - 1, None));
    } else {
      GoalMeans(ts, i, b, k);
      GoalKind(ts, i, b);
      if !OpensBody(ts, g, k) {
        ForbiddenFollows(ts, i, b, k);
        ReadWithoutBody(ts, i, b, k);
        var rest := ReadFrom(ts, k + 1);
        ReadsFirst(ts, Reading(i, k, None), rest, |ts|);
        rs := [Reading(i, k, None)] + rest;
        assert [] + BodiesOf(rest) == BodiesOf(rest);
      } else {
        BraceText(ts, i, b, k);
        var c := First(ts, CloseBrace(Brace(ts, k) - 1), k + 1);
        assert FromGoal(ts, i, b, k) == FromBody(ts, i, b, k, c);
        if c == |ts| {
          NoBrace(ts, k);
          BodyNeverCloses(ts, i, b, k);
          ReadWithoutBody(ts, i, b, |ts| - 1);
          rs := ReadToEnd(ts, Reading(i, |ts| - 1, None));
        } else {
          BodyMatches(ts, k, c);
          ReadWithBody(ts, i, b, k, c);
          var rest := ReadFrom(ts, c + 1);
          var r := Reading(i, c, Some(Body(NamedMain(ts, i), i, b, k, c)));
          ReadsFirst(ts, r, rest, |ts|);
          rs := [r] + rest;
        }
      }
    }
  }

  lemma GoalKind(ts: seq<Token>, a: nat, b: nat)
    requires 2 <= a < b && b + 1 < |ts|
    ensures BodyGoal(ts, a, b).BodyOrNone?
  {
  }

  lemma NothingFollows(ts: seq<Token>, a: nat, b: nat)
    requires a < b && b + 1 < |ts| && Undecided(ts, a, b, |ts|)
    ensures EndsWithoutBody(ts, a, b, |ts| - 1)
  {
    hide Undecided;
  }

  lemma ForbiddenFollows(ts: seq<Token>, a: nat, b: nat, k: nat)
    requires a < b < k < |ts| && Undecided(ts, a, b, k) && Forbids(ts, b, k)
    ensures EndsWithoutBody(ts, a, b, k)
  {
    hide Undecided, Forbids;
  }

  lemma BodyNeverCloses(ts: seq<Token>, a: nat, b: nat, k: nat)
    requires a < b < k < |ts| && Undecided(ts, a, b, k) && BodyBrace(ts, a, b, k) && !Forbids(ts, b, k)
    requires forall c: nat :: !Matches(ts, "{", "}", k, c)
    ensures EndsWithoutBody(ts, a, b, |ts| - 1)
  {
    hide Undecided, Forbids, BodyBrace, Matches;
    assert UnclosedBody(ts, a, b, k);
  }

  lemma BraceText(ts: seq<Token>, a: nat, b: nat, k: nat)
    requires a < b < k < |ts| && BodyBrace(ts, a, b, k)
    ensures ts[k].text == "{"
  {
  }

  /**
   The scan accounts for every parenthesis that may start a definition: each is the start of a reading or inside an
   earlier one, and the bodies found are those of the readings, in order.
   */
  lemma ScanReadsAll(ts: seq<Token>) returns (rs: seq<Reading>)
    requires AllBodies(ts).Some?
    ensures Readings(ts, rs, 2, |ts|) && BodiesOf(rs) == AllBodies(ts).value
  {
    hide Readings, Bodies, OpensClass;
    rs := ReadFrom(ts, 2);
  }

  // ---------- When it fails ----------

  /** The readings so far, and arguments that close with the last token: looking past it fails. */
  ghost predicate FailsAt(ts: seq<Token>, rs: seq<Reading>, from: int, a: nat) {
    && Readings(ts, rs, from, a) && (forall n | 0 <= n < |rs| :: rs[n].end < a)
    && from <= a < |ts| && Eligible(ts, a) && Matches(ts, "(", ")", a, |ts| - 1)
  }

  lemma FailsLater(ts: seq<Token>, r: Reading, rs: seq<Reading>, a: nat)
    requires Reads(ts, r) && r.start <= r.end && FailsAt(ts, rs, r.end + 1, a)
    ensures FailsAt(ts, [r] + rs, r.start, a)
  {
    hide Reads, Eligible, Matches, Readings, BodiesOf;
    ReadsFirst(ts, r, rs, a);
  }

  lemma FailsHere(ts: seq<Token>, a: nat)
    requires 2 <= a < |ts| && Candidate(ts, a) && Matches(ts, "(", ")", a, |ts| - 1)
    ensures FailsAt(ts, [], a, a)
  {
    hide Candidate, Eligible, Matches, Readings;
    CandidateMeans(ts, a);
    NoReadings(ts, a, a);
  }

  lemma FailsPast(ts: seq<Token>, rs: seq<Reading>, from: int, a: nat)
    requires FailsAt(ts, rs, from + 1, a) && !Eligible(ts, from)
    ensures FailsAt(ts, rs, from, a)
  {
    hide Eligible, Matches, Readings;
    SkipsOne(ts, rs, from, a);
  }

  lemma {:induction false} FailFrom(ts: seq<Token>, i: nat) returns (rs: seq<Reading>, a: nat)
    requires 2 <= i && Bodies(ts, i).None?
    ensures FailsAt(ts, rs, i, a)
    decreases |ts| - i
  {
    hide Depth, First, Candidate, Eligible, Matches, Met, Reads, FailsAt, NamedMain;
    hide Undecided, Forbids, BodyBrace, EndsWithoutBody, BodyGoal, OpensBody;
    if !Candidate(ts, i) {
      rs, a := FailFrom(ts, i + 1);
      CandidateMeans(ts, i);
      FailsPast(ts, rs, i, a);
    } else {
      var b := First(ts, CloseParen(Paren(ts, i) - 1), i + 1);
      assert Bodies(ts, i) == FromArguments(ts, i, b);
      OpensWithParenthesis(ts, i);
      ArgumentsMatch(ts, i, b);
      if b + 1 == |ts| {
        FailsHere(ts, i);
        rs, a := [], i;
      } else {
        rs, a := FailArguments(ts, i, b);
      }
    }
  }

  lemma {:induction false} FailArguments(ts: seq<Token>, i: nat, b: nat) returns (rs: seq<Reading>, a: nat)
    requires 2 <= i < b && b + 1 < |ts| && Candidate(ts, i) && Matches(ts, "(", ")", i, b)
    requires FromArguments(ts, i, b).None?
    ensures FailsAt(ts, rs, i, a)
    decreases |ts| - i, 0
  {
    hide Depth, First, Candidate, Eligible, Matches, Met, Reads, FailsAt, NamedMain;
    hide Undecided, Forbids, BodyBrace, EndsWithoutBody, BodyGoal, OpensBody, Bodies;
    var g := BodyGoal(ts, i, b);
    var k := First(ts, g, b + 1);
    assert FromArguments(ts, i, b) == FromGoal(ts, i, b, k);
    UndecidedUntil(ts, i, b);
    GoalMeans(ts, i, b, k);
    GoalKind(ts, i, b);
    var r: Reading;
    if !OpensBody(ts, g, k) {
      ForbiddenFollows(ts, i, b, k);
      ReadWithoutBody(ts, i, b, k);
      r := Reading(i, k, None);
      rs, a := FailFrom(ts, k + 1);
    } else {
      BraceText(ts, i, b, k);
      var c := First(ts, CloseBrace(Brace(ts, k) - 1), k + 1);
      assert FromGoal(ts, i, b, k) == FromBody(ts, i, b, k, c);
      BodyMatches(ts, k, c);
      ReadWithBody(ts, i, b, k, c);
      r := Reading(i, c, Some(Body(NamedMain(ts, i), i, b, k, c)));
      rs, a := FailFrom(ts, c + 1);
    }
    FailsLater(ts, r, rs, a);
    rs := [r] + rs;
  }

  /** The scan ends in the IndexError only for a class keyword, or closing arguments, as the last token. */
  lemma ScanFailsAtEnd(ts: seq<Token>) returns (rs: seq<Reading>, a: nat)
    requires AllBodies(ts).None?
    ensures ClassWord(ts, |ts| - 1) || FailsAt(ts, rs, 2, a)
  {
    hide Bodies, OpensClass, ClassWord, FailsAt;
    rs, a := [], 0;
    if |ts| > 2 && OpensClass(ts, |ts| - 1) {
      ClassWordMeans(ts, |ts| - 1);
    } else {
      rs, a := FailFrom(ts, 2);
    }
  }

  // ---------- Every definition is found ----------

  lemma MatchIsUnique(ts: seq<Token>, left: string, right: string, open: nat, c: nat, d: nat)
    requires Matches(ts, left, right, open, c) && Matches(ts, left, right, open, d)
    ensures c == d
  {
    hide Depth;
  }

  lemma {:induction false} BodyIsListed(rs: seq<Reading>, n: nat)
    requires n < |rs| && rs[n].body.Some?
    ensures rs[n].body.value in BodiesOf(rs)
    decreases n
  {
    if n > 0 {
      BodyIsListed(rs[1..], n - 1);
    }
  }

  /**
   A definition that starts outside all earlier readings is recorded: arguments that match, then, before any
   forbidden token, a body brace that matches.
   */
  lemma DefinitionIsFound(ts: seq<Token>, rs: seq<Reading>, a: nat, b: nat, k: nat, c: nat)
    requires Readings(ts, rs, 2, |ts|) && Eligible(ts, a)
    requires forall n | 0 <= n < |rs| && rs[n].start < a :: rs[n].end < a
    requires Matches(ts, "(", ")", a, b) && b < k && Matches(ts, "{", "}", k, c)
    requires Undecided(ts, a, b, k) && BodyBrace(ts, a, b, k) && !Forbids(ts, b, k)
    ensures exists body :: (
      body in BodiesOf(rs) && body == Body(body.isMain, a, b, k, c) && (body.isMain <==> IsMain(ts, a)))
  {
    hide Eligible, BodyBrace, Forbids, IsMain, Matches, ReadsBody, ReadsNone, BodiesOf, Undecided;
    EligibleInside(ts, a);
    assert Covers(rs, a);
    var n :| 0 <= n < |rs| && rs[n].start <= a <= rs[n].end;
    assert Reads(ts, rs[n]) && rs[n].start == a;
    BodyIsRead(ts, a, b, k, c, rs[n].end);
    if rs[n].body.Some? {
      SameBody(ts, a, b, k, c, rs[n].end, rs[n].body.value);
      BodyIsListed(rs, n);
    }
  }

  lemma EligibleInside(ts: seq<Token>, a: int)
    requires Eligible(ts, a)
    ensures 2 <= a < |ts|
  {
    hide OnDirective, SkippedBefore;
  }

  lemma SameDecision(ts: seq<Token>, a: nat, b: nat, k: nat, l: nat)
    requires a < b && b + 1 < |ts| && b < k < |ts| && b < l < |ts|
    requires Undecided(ts, a, b, k) && (Forbids(ts, b, k) || BodyBrace(ts, a, b, k))
    requires Undecided(ts, a, b, l) && (Forbids(ts, b, l) || BodyBrace(ts, a, b, l))
    ensures k == l
  {
    hide Forbids, BodyBrace;
  }

  lemma SameBody(ts: seq<Token>, a: nat, b: nat, k: nat, c: nat, end: nat, body: Body)
    requires Matches(ts, "(", ")", a, b) && b < k && Matches(ts, "{", "}", k, c)
    requires Undecided(ts, a, b, k) && BodyBrace(ts, a, b, k) && !Forbids(ts, b, k)
    requires 2 <= a < |ts| && ReadsBody(ts, a, end, body)
    ensures body == Body(body.isMain, a, b, k, c) && (body.isMain <==> IsMain(ts, a))
  {
    hide Forbids, BodyBrace, Undecided, IsMain;
    MatchIsUnique(ts, "(", ")", a, b, body.argClose);
    SameDecision(ts, a, b, k, body.open);
    MatchIsUnique(ts, "{", "}", k, c, end);
  }

  /** Where a body can be read, the reading cannot go without it. */
  lemma BodyIsRead(ts: seq<Token>, a: nat, b: nat, k: nat, c: nat, end: nat)
    requires Matches(ts, "(", ")", a, b) && b < k && Matches(ts, "{", "}", k, c)
    requires Undecided(ts, a, b, k) && BodyBrace(ts, a, b, k) && !Forbids(ts, b, k)
    ensures !ReadsNone(ts, a, end)
  {
    hide Forbids, BodyBrace, Undecided, Matches;
    forall d: nat | Matches(ts, "(", ")", a, d) ensures d == b {
      MatchIsUnique(ts, "(", ")", a, b, d);
    }
    MatchInside(ts, "(", ")", a, b);
    MatchInside(ts, "{", "}", k, c);
    NeverUndecided(ts, a, b, k);
    forall l: nat | b < l < |ts| && Undecided(ts, a, b, l) && (Forbids(ts, b, l) || BodyBrace(ts, a, b, l))
      ensures l == k
    {
      SameDecision(ts, a, b, k, l);
    }
  }

  lemma MatchInside(ts: seq<Token>, left: string, right: string, open: nat, close: nat)
    requires Matches(ts, left, right, open, close)
    ensures 2 <= open < close < |ts|
  {
    hide Depth;
  }

  lemma NeverUndecided(ts: seq<Token>, a: nat, b: nat, k: nat)
    requires a < b < k < |ts| && BodyBrace(ts, a, b, k)
    ensures !Undecided(ts, a, b, |ts|)
  {
    hide BodyBrace, Forbids;
  }

  // ---------- There is only one way to read the tokens ----------

  lemma EndsOnce(ts: seq<Token>, a: nat, b: nat, e: nat, f: nat)
    requires a < b && b + 1 < |ts| && EndsWithoutBody(ts, a, b, e) && EndsWithoutBody(ts, a, b, f)
    ensures e == f
  {
    hide Forbids, BodyBrace, Matches;
  }

  lemma NoneEndsOnce(ts: seq<Token>, a: nat, e: nat, f: nat)
    requires ReadsNone(ts, a, e) && ReadsNone(ts, a, f)
    ensures e == f
  {
    hide EndsWithoutBody, Depth;
    if b: nat :| Matches(ts, "(", ")", a, b) && b + 1 < |ts| && EndsWithoutBody(ts, a, b, e) {
      forall d: nat | Matches(ts, "(", ")", a, d) ensures d == b {
        MatchIsUnique(ts, "(", ")", a, b, d);
      }
      EndsOnce(ts, a, b, e, f);
    }
  }

  lemma BodyExcludesNone(ts: seq<Token>, a: nat, end: nat, body: Body, other: nat)
    requires 2 <= a < |ts| && ReadsBody(ts, a, end, body)
    ensures !ReadsNone(ts, a, other)
  {
    hide Forbids, BodyBrace, Undecided, Matches, ReadsNone, IsMain;
    BodyIsRead(ts, a, body.argClose, body.open, end, other);
  }

  lemma BodiesAgree(ts: seq<Token>, a: nat, end: nat, body: Body, last: nat, other: Body)
    requires 2 <= a < |ts| && ReadsBody(ts, a, end, body) && ReadsBody(ts, a, last, other)
    ensures body == other && end == last
  {
    hide Forbids, BodyBrace, Undecided, Matches, IsMain;
    SameBody(ts, a, body.argClose, body.open, end, last, other);
  }

  lemma SameReading(ts: seq<Token>, r: Reading, q: Reading)
    requires Reads(ts, r) && Reads(ts, q) && r.start == q.start
    ensures r == q
  {
    hide Eligible, ReadsNone, ReadsBody;
    EligibleInside(ts, r.start);
    if r.body.Some? {
      BodyExcludesNone(ts, r.start, r.end, r.body.value, q.end);
      BodiesAgree(ts, r.start, r.end, r.body.value, q.end, q.body.value);
    } else {
      if q.body.Some? {
        BodyExcludesNone(ts, q.start, q.end, q.body.value, r.end);
      }
      NoneEndsOnce(ts, r.start, r.end, q.end);
    }
  }

  lemma ReadingsTail(ts: seq<Token>, rs: seq<Reading>, from: int, to: int)
    requires Readings(ts, rs, from, to) && rs != []
    ensures Readings(ts, rs[1..], rs[0].end + 1, to)
  {
    hide Eligible, ReadsBody, ReadsNone, Reads;
    InsideReading(ts, rs[0]);
    forall a | rs[0].end + 1 <= a < to && Eligible(ts, a) ensures Covers(rs[1..], a) {
      var n :| 0 <= n < |rs| && rs[n].start <= a <= rs[n].end;
      assert rs[1..][n - 1] == rs[n];
    }
  }

  lemma InsideReading(ts: seq<Token>, r: Reading)
    requires Reads(ts, r)
    ensures 2 <= r.start <= r.end < |ts| && Eligible(ts, r.start)
  {
    hide OnDirective, SkippedBefore, ReadsBody, ReadsNone;
  }

  lemma SameStart(ts: seq<Token>, rs: seq<Reading>, qs: seq<Reading>, from: int, to: int)
    requires Readings(ts, rs, from, to) && Readings(ts, qs, from, |ts|) && rs != [] && rs[0].start < to <= |ts|
    ensures qs != [] && qs[0].start == rs[0].start
  {
    hide Eligible, ReadsBody, ReadsNone, Reads;
    InsideReading(ts, rs[0]);
    var n :| 0 <= n < |qs| && qs[n].start <= rs[0].start <= qs[n].end;
    InsideReading(ts, qs[0]);
    NoneBefore(rs, from, qs[0].start);
  }

  lemma NoneBefore(rs: seq<Reading>, from: int, a: int)
    requires Successive(rs, from) && rs != [] && rs[0].start <= rs[0].end
    ensures a < rs[0].start ==> !Covers(rs, a)
  {
  }

  lemma NoneReaches(rs: seq<Reading>, qs: seq<Reading>, from: int, a: int, n: nat)
    requires rs <= qs && Successive(qs, from) && forall m | 0 <= m < |rs| :: rs[m].end < a
    requires n < |qs| && qs[n].start <= a <= qs[n].end
    ensures !Covers(rs, qs[n].start)
  {
    assert |rs| <= n;
    forall m | 0 <= m < |rs| ensures rs[m].end < qs[n].start {
      assert rs[m] == qs[m];
    }
  }

  /** Readings up to some token are the first of the readings of the whole file. */
  lemma {:induction false} ReadingsPrefix(ts: seq<Token>, rs: seq<Reading>, qs: seq<Reading>, from: int, to: int)
    requires Readings(ts, rs, from, to) && Readings(ts, qs, from, |ts|) && to <= |ts|
    requires forall n | 0 <= n < |rs| :: rs[n].end < to
    ensures rs <= qs
    decreases |rs|
  {
    hide Eligible, ReadsBody, ReadsNone, Complete, Readings;
    if rs != [] {
      ReadingsParts(ts, rs, from, to);
      ReadingsParts(ts, qs, from, |ts|);
      SameStart(ts, rs, qs, from, to);
      InsideReading(ts, rs[0]);
      SameReading(ts, rs[0], qs[0]);
      ReadingsTail(ts, rs, from, to);
      ReadingsTail(ts, qs, from, |ts|);
      ReadingsPrefix(ts, rs[1..], qs[1..], rs[0].end + 1, to);
    }
  }

  lemma ReadingsParts(ts: seq<Token>, rs: seq<Reading>, from: int, to: int)
    requires Readings(ts, rs, from, to)
    ensures forall n | 0 <= n < |rs| :: Reads(ts, rs[n])
    ensures Successive(rs, from) && Complete(ts, rs, from, to)
  {
    hide Reads, Complete, Successive;
  }

  /** The readings of a file are unique, so they are those of the scan. */
  lemma ReadingsAreUnique(ts: seq<Token>, rs: seq<Reading>, qs: seq<Reading>)
    requires Readings(ts, rs, 2, |ts|) && Readings(ts, qs, 2, |ts|)
    ensures rs == qs
  {
    hide Eligible, ReadsBody, ReadsNone, Complete, Readings;
    ReadingsParts(ts, rs, 2, |ts|);
    ReadingsParts(ts, qs, 2, |ts|);
    ReadingsPrefix(ts, rs, qs, 2, |ts|);
    ReadingsPrefix(ts, qs, rs, 2, |ts|);
  }

  lemma NotReadable(ts: seq<Token>, r: Reading)
    requires |ts| > 0 && Matches(ts, "(", ")", r.start, |ts| - 1)
    ensures !Reads(ts, r)
  {
    hide Eligible, Forbids, BodyBrace, Undecided, Matches, IsMain;
    forall d: nat | Matches(ts, "(", ")", r.start, d) ensures d == |ts| - 1 {
      MatchIsUnique(ts, "(", ")", r.start, |ts| - 1, d);
    }
  }

  /** What may start a definition after the readings so far starts a reading. */
  lemma StartsThere(ts: seq<Token>, rs: seq<Reading>, a: nat, qs: seq<Reading>)
    requires Readings(ts, rs, 2, a) && (forall n | 0 <= n < |rs| :: rs[n].end < a) && 2 <= a < |ts| && Eligible(ts, a)
    requires Readings(ts, qs, 2, |ts|)
    ensures exists n :: 0 <= n < |qs| && qs[n].start == a
  {
    hide Eligible, Reads;
    ReadingsPrefix(ts, rs, qs, 2, a);
    var n :| 0 <= n < |qs| && qs[n].start <= a <= qs[n].end;
    InsideReading(ts, qs[n]);
    NoneReaches(rs, qs, 2, a, n);
  }

  lemma FailureExcludesReadings(ts: seq<Token>, rs: seq<Reading>, a: nat, qs: seq<Reading>)
    requires FailsAt(ts, rs, 2, a)
    ensures !Readings(ts, qs, 2, |ts|)
  {
    hide Eligible, Reads, Matches, Successive, Complete;
    forall r: Reading | r.start == a ensures !Reads(ts, r) {
      NotReadable(ts, r);
    }
    if Readings(ts, qs, 2, |ts|) {
      StartsThere(ts, rs, a, qs);
    }
  }

  /** Conversely, a file that ends in either way makes the scan fail. */
  lemma EndFailsScan(ts: seq<Token>, rs: seq<Reading>, a: nat)
    requires (ts != [] && ClassWord(ts, |ts| - 1)) || FailsAt(ts, rs, 2, a)
    ensures AllBodies(ts).None?
  {
    hide Bodies, OpensClass, ClassWord, FailsAt, Readings;
    if AllBodies(ts).Some? {
      if ts != [] && ClassWord(ts, |ts| - 1) {
        ClassWordMeans(ts, |ts| - 1);
        NeedsIndex(ts, |ts| - 1);
      }
      var qs := ScanReadsAll(ts);
      FailureExcludesReadings(ts, rs, a, qs);
    }
  }
}
