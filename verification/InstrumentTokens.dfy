/**
 The source instrumenter's view of a token stream: nesting depths, preprocessor, template and class tracking,
 and the function bodies they delimit, defined by direct search rather than by running flags.
 Scanning starts at the third token, as the original does.
 */
module InstrumentTokens {
  import opened Wrappers

  datatype TokenKind = Identifier | Keyword | OtherKind

  datatype Token = Token(text: string, kind: TokenKind, line: int, column: int)

  // ---------- Tracking that does not depend on the functions found ----------

  /** `open` counts up and `close` counts down; the depth after token `i`. */
  function Depth(ts: seq<Token>, open: string, close: string, i: int): (d: int)
    requires i < |ts|
    decreases i
  {
    if i < 2 then 0
    else
      var before := Depth(ts, open, close, i - 1);
      if ts[i].text == open then before + 1 else if ts[i].text == close then before - 1 else before
  }

  function Paren(ts: seq<Token>, i: int): (d: int)
    requires i < |ts|
  {
    Depth(ts, "(", ")", i)
  }

  function Brace(ts: seq<Token>, i: int): (d: int)
    requires i < |ts|
  {
    Depth(ts, "{", "}", i)
  }

  function Trib(ts: seq<Token>, i: int): (d: int)
    requires i < |ts|
  {
    Depth(ts, "<", ">", i)
  }

  /** A flag with the line or depth remembered when it was set. */
  datatype Mark = Mark(on: bool, at: int)

  const UNSET := Mark(false, 0)

  /** What continues a preprocessor line. */
  const BACKSLASH := "\U{5C}"

  /** Inside a preprocessor statement after token `i`, and its last line so far. */
  function Preproc(ts: seq<Token>, i: int): (m: Mark)
    requires i < |ts|
    decreases i
  {
    if i < 2 then UNSET
    else
      var before := Preproc(ts, i - 1);
      var started := if ts[i].kind == Keyword && ts[i - 1].text == "#" then Mark(true, ts[i].line) else before;
      if !started.on || ts[i].line == started.at then started
      else if ts[i - 1].text == BACKSLASH then Mark(true, started.at + 1)
      else Mark(false, started.at)
  }

  /** Inside a template parameter list after token `i`, and the angle-bracket depth outside it. */
  function Template(ts: seq<Token>, i: int): (m: Mark)
    requires i < |ts|
    decreases i
  {
    if i < 2 then UNSET
    else
      var before := Template(ts, i - 1);
      if ts[i].kind == Keyword && ts[i].text == "template" then Mark(true, Trib(ts, i))
      else if before.on && ts[i].text == ">" && Trib(ts, i) == before.at then Mark(false, before.at)
      else before
  }

  /** A class or struct keyword that is not a template parameter. */
  predicate OpensClass(ts: seq<Token>, i: int)
    requires i < |ts|
  {
    i >= 2 && !Template(ts, i).on && ts[i].text in ["class", "struct"]
  }

  /** Inside a class definition after token `i`, and the brace depth outside it. */
  function Class(ts: seq<Token>, i: int): (m: Mark)
    requires i < |ts|
    decreases i
  {
    if i < 2 then UNSET
    else
      var before := Class(ts, i - 1);
      if OpensClass(ts, i) then Mark(true, Brace(ts, i))
      else if before.on && ts[i].text == "}" && Brace(ts, i) == before.at then Mark(false, before.at)
      else before
  }

  // ---------- What looks like a function ----------

  const SKIPPED_KEYWORDS := ["constexpr", "global__", "device__"]

  /** Searching back from `i` to the previous '}' or ';', one of the skipped keywords occurs. */
  predicate KeywordBefore(ts: seq<Token>, i: int)
    requires i < |ts|
    decreases i
  {
    i >= 0 && ts[i].text !in ["}", ";"] && (ts[i].text in SKIPPED_KEYWORDS || KeywordBefore(ts, i - 1))
  }

  /** An opening parenthesis after an identifier, outside the preprocessor, that may start a definition. */
  predicate Candidate(ts: seq<Token>, i: int)
    requires 2 <= i < |ts|
  {
    && !Preproc(ts, i).on
    && ts[i].text == "("
    && ts[i - 1].kind == Identifier && ts[i - 1].text !in ["for", "while", "if"]
    && !KeywordBefore(ts, i - 3)
  }

  /** The function is called `main`, outside any class and not qualified. */
  predicate NamedMain(ts: seq<Token>, i: int)
    requires 2 <= i < |ts|
  {
    !Class(ts, i).on && ts[i - 2].text != "::" && ts[i - 1].text == "main"
  }

  // ---------- Searching forward ----------

  /** What the scan is waiting for, at the parenthesis or brace depth it has to return to. */
  datatype Goal =
    | CloseParen(depth: int)
    | BodyOrNone(depth: int, initializers: bool, autoType: bool)
    | CloseBrace(depth: int)

  /** Between the arguments and the body: no definition after all. */
  predicate Abandons(ts: seq<Token>, g: Goal, i: int)
    requires 2 <= i < |ts| && g.BodyOrNone?
  {
    ts[i].text == ";" || (!g.initializers && !g.autoType && ts[i].kind == Identifier)
  }

  /** The brace that opens the body rather than one that initializes a member. */
  predicate OpensBody(ts: seq<Token>, g: Goal, i: int)
    requires 2 <= i < |ts| && g.BodyOrNone?
  {
    && !Abandons(ts, g, i)
    && ts[i].text == "{" && Paren(ts, i) == g.depth
    && !(g.initializers && ts[i - 1].kind == Identifier)
  }

  predicate Closes(ts: seq<Token>, left: string, right: string, depth: int, i: int)
    requires i < |ts| && i >= 0
  {
    ts[i].text == right && Depth(ts, left, right, i) == depth
  }

  predicate Met(ts: seq<Token>, g: Goal, i: int)
    requires 2 <= i < |ts|
  {
    match g
    case CloseParen(depth) => Closes(ts, "(", ")", depth, i)
    case BodyOrNone(_, _, _) => Abandons(ts, g, i) || OpensBody(ts, g, i)
    case CloseBrace(depth) => Closes(ts, "{", "}", depth, i)
  }

  /** The first token from `i` on that meets the goal, or the end of the stream. */
  function First(ts: seq<Token>, g: Goal, i: nat): (n: nat)
    requires 2 <= i <= |ts|
    ensures i <= n <= |ts|
    ensures n < |ts| ==> Met(ts, g, n)
    ensures forall j | i <= j < n :: !Met(ts, g, j)
    decreases |ts| - i
  {
    if i == |ts| || Met(ts, g, i) then i else First(ts, g, i + 1)
  }

  lemma FirstStep(ts: seq<Token>, g: Goal, i: nat)
    requires 2 <= i < |ts|
    ensures First(ts, g, i) == if Met(ts, g, i) then i else First(ts, g, i + 1)
  {
    hide Met;
  }

  // ---------- The bodies ----------

  /** A definition: its argument parentheses and its body braces, by token index. */
  datatype Body = Body(isMain: bool, argOpen: nat, argClose: nat, open: nat, close: nat)

  /** What to look for after the closing parenthesis at `b` of a candidate at `a`. */
  function BodyGoal(ts: seq<Token>, a: nat, b: nat): (g: Goal)
    requires 2 <= a < b && b + 1 < |ts|
  {
    BodyOrNone(Paren(ts, a) - 1, ts[b + 1].text == ":", ts[b + 1].text == "->")
  }

  /** The bodies found from token `i` on; None when looking past the last token raises an IndexError. */
  function Bodies(ts: seq<Token>, i: nat): (r: Option<seq<Body>>)
    requires 2 <= i
    decreases |ts| - i, 0
  {
    if i >= |ts| then Some([])
    else if !Candidate(ts, i) then Bodies(ts, i + 1)
    else FromArguments(ts, i, First(ts, CloseParen(Paren(ts, i) - 1), i + 1))
  }

  /** Given where the arguments of the candidate at `a` close. */
  function FromArguments(ts: seq<Token>, a: nat, b: nat): (r: Option<seq<Body>>)
    requires 2 <= a < b <= |ts|
    decreases |ts| - b, 3
  {
    if b == |ts| then Some([])
    else if b + 1 == |ts| then None
    else FromGoal(ts, a, b, First(ts, BodyGoal(ts, a, b), b + 1))
  }

  /** Given where the search for a body ended. */
  function FromGoal(ts: seq<Token>, a: nat, b: nat, k: nat): (r: Option<seq<Body>>)
    requires 2 <= a < b < k <= |ts|
    decreases |ts| - k, 2
  {
    if k == |ts| then Some([])
    else if !OpensBody(ts, BodyGoal(ts, a, b), k) then Bodies(ts, k + 1)
    else FromBody(ts, a, b, k, First(ts, CloseBrace(Brace(ts, k) - 1), k + 1))
  }

  /** Given where the body closes. */
  function FromBody(ts: seq<Token>, a: nat, b: nat, k: nat, c: nat): (r: Option<seq<Body>>)
    requires 2 <= a < b < k < c <= |ts|
    decreases |ts| - c, 1
  {
    if c == |ts| then Some([])
    else FoundBefore([Body(NamedMain(ts, a), a, b, k, c)], Bodies(ts, c + 1))
  }

  function FoundBefore(found: seq<Body>, r: Option<seq<Body>>): (result: Option<seq<Body>>) {
    match r
    case None => None
    case Some(bodies) => Some(found + bodies)
  }

  /** What token `i` decides between the arguments and the body. */
  lemma GoalStep(ts: seq<Token>, a: nat, b: nat, i: nat)
    requires 2 <= a < b < i < |ts|
    ensures var g := BodyGoal(ts, a, b);
      FromGoal(ts, a, b, First(ts, g, i)) ==
        if Abandons(ts, g, i) then Bodies(ts, i + 1)
        else if OpensBody(ts, g, i) then FromBody(ts, a, b, i, First(ts, CloseBrace(Brace(ts, i) - 1), i + 1))
        else FromGoal(ts, a, b, First(ts, g, i + 1))
  {
    hide Depth, First, Bodies, FromBody;
    FirstStep(ts, BodyGoal(ts, a, b), i);
  }

  lemma FoundTwice(p: seq<Body>, q: seq<Body>, r: Option<seq<Body>>)
    ensures FoundBefore(p, FoundBefore(q, r)) == FoundBefore(p + q, r)
    ensures FoundBefore([], r) == r
  {
    if r.Some? {
      assert p + (q + r.value) == (p + q) + r.value;
      assert [] + r.value == r.value;
    }
  }

  /** The whole stream; a class keyword as last token makes the original look past the end. */
  function AllBodies(ts: seq<Token>): (r: Option<seq<Body>>) {
    if |ts| > 2 && OpensClass(ts, |ts| - 1) then None else Bodies(ts, 2)
  }

  // ---------- What a body is ----------

  /** `close` is the bracket that matches the one at `open`: the first to return to the depth outside. */
  ghost predicate Matches(ts: seq<Token>, left: string, right: string, open: nat, close: nat) {
    && 2 <= open < close < |ts|
    && ts[open].text == left && ts[close].text == right
    && Depth(ts, left, right, close) == Depth(ts, left, right, open) - 1
    && forall j | open <= j < close :: Depth(ts, left, right, j) >= Depth(ts, left, right, open)
  }

  ghost predicate IsDefinition(ts: seq<Token>, body: Body) {
    && Matches(ts, "(", ")", body.argOpen, body.argClose)
    && Matches(ts, "{", "}", body.open, body.close)
    && body.argClose < body.open
    && Paren(ts, body.open) == Paren(ts, body.argClose)
    && Candidate(ts, body.argOpen)
    && (body.isMain <==> NamedMain(ts, body.argOpen))
  }

  /** Definitions from `from` on, each one after the end of the one before. */
  ghost predicate InOrder(bodies: seq<Body>, from: nat) {
    && (forall n | 0 <= n < |bodies| :: from <= bodies[n].argOpen)
    && (forall m, n | 0 <= m < n < |bodies| :: bodies[m].close < bodies[n].argOpen)
  }

  /** The first close at the outer depth is the matching one: depths change by one at a time. */
  lemma {:induction false} FirstCloseMatches(ts: seq<Token>, left: string, right: string, outside: int,
                                             open: nat, close: nat, j: nat)
    requires left != right && 2 <= open <= j < close < |ts| && ts[open].text == left
    requires outside == Depth(ts, left, right, open) - 1
    requires forall n | open < n < close :: !Closes(ts, left, right, outside, n)
    ensures Depth(ts, left, right, j) >= Depth(ts, left, right, open)
    decreases j
  {
    if open < j {
      assert !Closes(ts, left, right, outside, j);
      FirstCloseMatches(ts, left, right, outside, open, close, j - 1);
    }
  }

  lemma CloseFound(ts: seq<Token>, left: string, right: string, outside: int, open: nat, close: nat)
    requires left != right && 2 <= open < close < |ts| && ts[open].text == left && ts[close].text == right
    requires Depth(ts, left, right, close) == Depth(ts, left, right, open) - 1
    requires outside == Depth(ts, left, right, open) - 1
    requires forall n | open < n < close :: !Closes(ts, left, right, outside, n)
    ensures Matches(ts, left, right, open, close)
  {
    forall j | open <= j < close ensures Depth(ts, left, right, j) >= Depth(ts, left, right, open) {
      FirstCloseMatches(ts, left, right, outside, open, close, j);
    }
  }

  lemma ArgumentsMatch(ts: seq<Token>, a: nat, b: nat)
    requires 2 <= a < |ts| && ts[a].text == "(" && b == First(ts, CloseParen(Paren(ts, a) - 1), a + 1) < |ts|
    ensures Matches(ts, "(", ")", a, b)
  {
    hide Depth;
    var g := CloseParen(Paren(ts, a) - 1);
    forall n | a < n < b ensures !Closes(ts, "(", ")", g.depth, n) {
      assert !Met(ts, g, n);
    }
    CloseFound(ts, "(", ")", g.depth, a, b);
  }

  lemma BodyMatches(ts: seq<Token>, k: nat, c: nat)
    requires 2 <= k < |ts| && ts[k].text == "{" && c == First(ts, CloseBrace(Brace(ts, k) - 1), k + 1) < |ts|
    ensures Matches(ts, "{", "}", k, c)
  {
    hide Depth;
    var g := CloseBrace(Brace(ts, k) - 1);
    forall n | k < n < c ensures !Closes(ts, "{", "}", g.depth, n) {
      assert !Met(ts, g, n);
    }
    CloseFound(ts, "{", "}", g.depth, k, c);
  }

  /** Every body found is a definition with matching brackets, and the bodies are disjoint and in source order. */
  lemma {:induction false} BodiesAreDefinitions(ts: seq<Token>, i: nat)
    requires 2 <= i && Bodies(ts, i).Some?
    ensures forall n | 0 <= n < |Bodies(ts, i).value| :: IsDefinition(ts, Bodies(ts, i).value[n])
    ensures InOrder(Bodies(ts, i).value, i)
    decreases |ts| - i
  {
    hide Depth, First, KeywordBefore, Preproc, Class, Matches, Met;
    if i < |ts| {
      if !Candidate(ts, i) {
        BodiesAreDefinitions(ts, i + 1);
      } else {
        var b := First(ts, CloseParen(Paren(ts, i) - 1), i + 1);
        assert Bodies(ts, i) == FromArguments(ts, i, b);
        if b + 1 < |ts| {
          var g := BodyGoal(ts, i, b);
          var k := First(ts, g, b + 1);
          assert Bodies(ts, i) == FromGoal(ts, i, b, k);
          if k < |ts| && !OpensBody(ts, g, k) {
            BodiesAreDefinitions(ts, k + 1);
          } else if k < |ts| {
            var c := First(ts, CloseBrace(Brace(ts, k) - 1), k + 1);
            assert Bodies(ts, i) == FromBody(ts, i, b, k, c);
            if c < |ts| {
              ArgumentsMatch(ts, i, b);
              BodyMatches(ts, k, c);
              BodiesAreDefinitions(ts, c + 1);
              DefinitionFirst(ts, Body(NamedMain(ts, i), i, b, k, c), Bodies(ts, c + 1).value, i);
            }
          }
        }
      }
    }
  }

  lemma DefinitionFirst(ts: seq<Token>, body: Body, rest: seq<Body>, from: nat)
    requires Matches(ts, "(", ")", body.argOpen, body.argClose) && Matches(ts, "{", "}", body.open, body.close)
    requires body.argClose < body.open && Candidate(ts, body.argOpen) && body.isMain == NamedMain(ts, body.argOpen)
    requires Paren(ts, body.open) == Paren(ts, body.argOpen) - 1
    requires from <= body.argOpen
    requires (forall n | 0 <= n < |rest| :: IsDefinition(ts, rest[n])) && InOrder(rest, body.close + 1)
    ensures forall n | 0 <= n < |[body] + rest| :: IsDefinition(ts, ([body] + rest)[n])
    ensures InOrder([body] + rest, from)
  {
    hide Depth, Candidate, NamedMain;
    assert IsDefinition(ts, body);
    var all := [body] + rest;
    forall n | 0 <= n < |all| ensures IsDefinition(ts, all[n]) && from <= all[n].argOpen {
      assert n > 0 ==> all[n] == rest[n - 1];
    }
    forall m, n | 0 <= m < n < |all| ensures all[m].close < all[n].argOpen {
      assert all[n] == rest[n - 1];
    }
  }

  // ---------- Positions in the text ----------

  predicate Before(p: Token, q: Token) {
    p.line < q.line || (p.line == q.line && p.column < q.column)
  }

  predicate PositionsIncrease(ts: seq<Token>) {
    forall i, j | 0 <= i < j < |ts| :: Before(ts[i], ts[j])
  }
}
