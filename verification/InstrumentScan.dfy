/**
 The token loop of the source instrumenter: one pass, running depths and flags, three phase flags for the
 function being recognized. It is proved to find exactly the bodies that direct search finds.
 */
module InstrumentScan {
  import opened InstrumentTokens
  import opened Wrappers

  /** A recorded function: what the splice loop needs of it. */
  datatype Function = Function(isMain: bool, openLine: int, openColumn: int, closeLine: int, closeColumn: int)

  function Recorded(ts: seq<Token>, body: Body): (f: Function)
    requires body.open < |ts| && body.close < |ts|
  {
    Function(body.isMain, ts[body.open].line, ts[body.open].column, ts[body.close].line, ts[body.close].column)
  }

  class Scanner {
    const tokens: seq<Token>

    var parenDepth: int
    var braceDepth: int
    var tribDepth: int

    var inPreproc: bool
    var preprocPrevLine: int
    var templateOpen: bool
    var templateTribDepth: int
    var classOpen: bool
    var classBraceDepth: int

    var funcArgOpen: bool
    var funcPostargsOpen: bool
    var funcBodyOpen: bool
    var nameIsMain: bool
    var funcParenDepth: int
    var initializerList: bool
    var autoType: bool
    var funcBodyBraceDepth: int
    var bodyOpenLine: int
    var bodyOpenColumn: int

    var functions: seq<Function>

    // Where the current function's parts are, and the bodies behind the recorded functions.
    ghost var argOpen: nat
    ghost var argClose: nat
    ghost var open: nat
    ghost var bodies: seq<Body>

    constructor (tokens: seq<Token>)
      ensures this.tokens == tokens
      ensures Tracking(1) && OnePhase() && InPhase(1) && functions == []
    {
      this.tokens := tokens;
      parenDepth, braceDepth, tribDepth := 0, 0, 0;
      inPreproc, templateOpen, classOpen := false, false, false;
      preprocPrevLine, templateTribDepth, classBraceDepth := 0, 0, 0;
      funcArgOpen, funcPostargsOpen, funcBodyOpen := false, false, false;
      functions, bodies := [], [];
      new;
      FoundTwice([], [], Bodies(tokens, 2));
    }

    /** The running depths and marks after token `i` are those of the definitions. */
    ghost predicate Tracking(i: int)
      reads this`parenDepth, this`braceDepth, this`tribDepth, this`inPreproc, this`preprocPrevLine
      reads this`templateOpen, this`templateTribDepth, this`classOpen, this`classBraceDepth
    {
      i < |tokens| ==>
        && parenDepth == Paren(tokens, i) && braceDepth == Brace(tokens, i) && tribDepth == Trib(tokens, i)
        && Mark(inPreproc, preprocPrevLine) == Preproc(tokens, i)
        && Mark(templateOpen, templateTribDepth) == Template(tokens, i)
        && Mark(classOpen, classBraceDepth) == Class(tokens, i)
    }

    /** At most one phase flag is set. */
    ghost predicate OnePhase()
      reads this`funcArgOpen, this`funcPostargsOpen, this`funcBodyOpen
    {
      !(funcArgOpen && funcPostargsOpen) && !(funcArgOpen && funcBodyOpen) && !(funcPostargsOpen && funcBodyOpen)
    }

    ghost predicate RecordedAre()
      reads this`functions, this`bodies
    {
      && |functions| == |bodies|
      && (forall n | 0 <= n < |bodies| :: bodies[n].open < |tokens| && bodies[n].close < |tokens|)
      && (forall n | 0 <= n < |bodies| :: functions[n] == Recorded(tokens, bodies[n]))
    }

    /** While the arguments are open: where they started. */
    ghost predicate ArgumentsOpen(i: nat)
      reads this`argOpen, this`funcParenDepth, this`nameIsMain
    {
      && 2 <= argOpen <= i < |tokens|
      && funcParenDepth == Paren(tokens, argOpen) - 1
      && nameIsMain == NamedMain(tokens, argOpen)
    }

    /** Between arguments and body: what is looked for is decided by the token after the arguments. */
    ghost predicate ArgumentsClosed(i: nat)
      reads this`argOpen, this`argClose, this`funcParenDepth, this`nameIsMain, this`initializerList, this`autoType
    {
      && 2 <= argOpen < argClose <= i < |tokens| && argClose + 1 < |tokens|
      && BodyOrNone(funcParenDepth, initializerList, autoType) == BodyGoal(tokens, argOpen, argClose)
      && nameIsMain == NamedMain(tokens, argOpen)
    }

    /** While the body is open: where it started. */
    ghost predicate BodyOpen(i: nat)
      reads this`argOpen, this`argClose, this`open, this`nameIsMain
      reads this`funcBodyBraceDepth, this`bodyOpenLine, this`bodyOpenColumn
    {
      && 2 <= argOpen < argClose < open <= i < |tokens|
      && funcBodyBraceDepth == Brace(tokens, open) - 1
      && bodyOpenLine == tokens[open].line && bodyOpenColumn == tokens[open].column
      && nameIsMain == NamedMain(tokens, argOpen)
    }

    /** What the flags stand for after token `i`: the recorded bodies and those still to come are all bodies. */
    ghost predicate InPhase(i: nat)
      reads this`funcArgOpen, this`funcPostargsOpen, this`funcBodyOpen, this`functions, this`bodies
      reads this`argOpen, this`argClose, this`open, this`nameIsMain, this`funcParenDepth
      reads this`initializerList, this`autoType
      reads this`funcBodyBraceDepth, this`bodyOpenLine, this`bodyOpenColumn
    {
      && OnePhase() && RecordedAre()
      && if funcArgOpen then
           && ArgumentsOpen(i)
           && FoundBefore(bodies, FromArguments(tokens, argOpen, First(tokens, CloseParen(funcParenDepth), i + 1)))
              == Bodies(tokens, 2)
         else if funcPostargsOpen then
           && ArgumentsClosed(i)
           && FoundBefore(bodies,
                FromGoal(tokens, argOpen, argClose, First(tokens, BodyGoal(tokens, argOpen, argClose), i + 1)))
              == Bodies(tokens, 2)
         else if funcBodyOpen then
           && BodyOpen(i)
           && FoundBefore(bodies,
                FromBody(tokens, argOpen, argClose, open, First(tokens, CloseBrace(funcBodyBraceDepth), i + 1)))
              == Bodies(tokens, 2)
         else i >= 1 && FoundBefore(bodies, Bodies(tokens, i + 1)) == Bodies(tokens, 2)
    }

    /** At the end of the stream nothing is still to come, whatever the phase. */
    lemma NothingToCome(i: nat)
      requires i + 1 == |tokens| && i >= 1 && InPhase(i)
      ensures Some(bodies) == Bodies(tokens, 2) && RecordedAre() && OnePhase()
    {
      assert bodies + [] == bodies;
    }

    method TrackDepths(i: nat)
      requires 2 <= i < |tokens| && Tracking(i - 1)
      modifies this`parenDepth, this`braceDepth, this`tribDepth
      ensures parenDepth == Paren(tokens, i) && braceDepth == Brace(tokens, i) && tribDepth == Trib(tokens, i)
    {
      var text := tokens[i].text;
      if text == "(" {
        parenDepth := parenDepth + 1;
      } else if text == ")" {
        parenDepth := parenDepth - 1;
      } else if text == "{" {
        braceDepth := braceDepth + 1;
      } else if text == "}" {
        braceDepth := braceDepth - 1;
      } else if text == "<" {
        tribDepth := tribDepth + 1;
      } else if text == ">" {
        tribDepth := tribDepth - 1;
      }
    }

    method TrackPreprocessor(i: nat)
      requires 2 <= i < |tokens| && Mark(inPreproc, preprocPrevLine) == Preproc(tokens, i - 1)
      modifies this`inPreproc, this`preprocPrevLine
      ensures Mark(inPreproc, preprocPrevLine) == Preproc(tokens, i)
    {
      if tokens[i].kind == Keyword && tokens[i - 1].text == "#" {
        inPreproc := true;
        preprocPrevLine := tokens[i].line;
      }
      if inPreproc && tokens[i].line != preprocPrevLine {
        if tokens[i - 1].text == BACKSLASH {
          preprocPrevLine := preprocPrevLine + 1;
        } else {
          inPreproc := false;
        }
      }
    }

    method TrackTemplates(i: nat)
      requires 2 <= i < |tokens| && Mark(templateOpen, templateTribDepth) == Template(tokens, i - 1)
      requires tribDepth == Trib(tokens, i)
      modifies this`templateOpen, this`templateTribDepth
      ensures Mark(templateOpen, templateTribDepth) == Template(tokens, i)
    {
      if tokens[i].kind == Keyword && tokens[i].text == "template" {
        templateOpen := true;
        templateTribDepth := tribDepth;
      } else if templateOpen && tokens[i].text == ">" && tribDepth == templateTribDepth {
        templateOpen := false;
      }
    }

    /** False for the IndexError of a class keyword without a next token to name it. */
    method TrackClasses(i: nat) returns (ok: bool)
      requires 2 <= i < |tokens| && Mark(classOpen, classBraceDepth) == Class(tokens, i - 1)
      requires braceDepth == Brace(tokens, i) && Mark(templateOpen, templateTribDepth) == Template(tokens, i)
      modifies this`classOpen, this`classBraceDepth
      ensures ok <==> !(OpensClass(tokens, i) && i + 1 == |tokens|)
      ensures ok ==> Mark(classOpen, classBraceDepth) == Class(tokens, i)
    {
      if !templateOpen && tokens[i].text in ["class", "struct"] {
        if i + 1 == |tokens| {
          return false;
        }
        classOpen := true;
        classBraceDepth := braceDepth;
      } else if classOpen && tokens[i].text == "}" && braceDepth == classBraceDepth {
        classOpen := false;
      }
      ok := true;
    }

    /** `func_keyword_check`. */
    method SkippedKeyword(start: int) returns (found: bool)
      requires start < |tokens|
      ensures found == KeywordBefore(tokens, start - 1)
    {
      var i := start - 1;
      while i >= 0
        invariant i < |tokens|
        invariant KeywordBefore(tokens, i) == KeywordBefore(tokens, start - 1)
      {
        if tokens[i].text in ["}", ";"] {
          return false;
        } else if tokens[i].text in SKIPPED_KEYWORDS {
          return true;
        }
        i := i - 1;
      }
      found := false;
    }

    /** Inside the arguments of a function. */
    method InArguments(i: nat) returns (ok: bool)
      requires 2 <= i < |tokens| && InPhase(i - 1) && funcArgOpen && parenDepth == Paren(tokens, i)
      modifies this`funcArgOpen, this`funcPostargsOpen, this`initializerList, this`autoType, this`argClose
      ensures ok ==> InPhase(i)
      ensures !ok ==> Bodies(tokens, 2) == None
    {
      hide Depth, Preproc, Class, NamedMain, Candidate, Bodies, FromGoal, First, RecordedAre;
      FirstStep(tokens, CloseParen(funcParenDepth), i);
      if tokens[i].text == ")" && parenDepth == funcParenDepth {
        assert Met(tokens, CloseParen(funcParenDepth), i);
        funcArgOpen := false;
        if i + 1 == |tokens| {
          return false;
        }
        funcPostargsOpen := true;
        initializerList := tokens[i + 1].text == ":";
        autoType := tokens[i + 1].text == "->";
        argClose := i;
      }
      ok := true;
    }

    /** Between the arguments and the body. */
    method AfterArguments(i: nat)
      requires 2 <= i < |tokens| && InPhase(i - 1) && funcPostargsOpen
      requires parenDepth == Paren(tokens, i) && braceDepth == Brace(tokens, i)
      modifies this`funcPostargsOpen, this`funcBodyOpen, this`funcBodyBraceDepth
      modifies this`bodyOpenLine, this`bodyOpenColumn, this`open
      ensures InPhase(i)
    {
      hide Depth, Preproc, Class, NamedMain, Candidate, Bodies, FromGoal, FromBody, First, FoundBefore, RecordedAre;
      GoalStep(tokens, argOpen, argClose, i);
      if tokens[i].text == ";" {
        funcPostargsOpen := false;
      } else if !initializerList && !autoType && tokens[i].kind == Identifier {
        funcPostargsOpen := false;
      } else if parenDepth == funcParenDepth && tokens[i].text == "{" {
        if initializerList && tokens[i - 1].kind == Identifier {
          // an initialized member, not the body
        } else {
          funcPostargsOpen := false;
          funcBodyOpen := true;
          funcBodyBraceDepth := braceDepth - 1;
          bodyOpenLine, bodyOpenColumn := tokens[i].line, tokens[i].column;
          open := i;
        }
      }
    }

    /** Inside the body of a function. */
    method InBody(i: nat)
      requires 2 <= i < |tokens| && InPhase(i - 1) && funcBodyOpen && braceDepth == Brace(tokens, i)
      modifies this`funcBodyOpen, this`functions, this`bodies
      ensures InPhase(i)
    {
      hide Depth, Preproc, Class, NamedMain, Candidate, Bodies;
      if braceDepth == funcBodyBraceDepth && tokens[i].text == "}" {
        assert Met(tokens, CloseBrace(funcBodyBraceDepth), i);
        funcBodyOpen := false;
        ghost var body := Body(nameIsMain, argOpen, argClose, open, i);
        FoundTwice(bodies, [body], Bodies(tokens, i + 1));
        functions := functions + [Function(nameIsMain, bodyOpenLine, bodyOpenColumn, tokens[i].line, tokens[i].column)];
        bodies := bodies + [body];
      }
    }

    /** Outside any function. */
    method Outside(i: nat)
      requires 2 <= i < |tokens| && InPhase(i - 1) && !funcArgOpen && !funcPostargsOpen && !funcBodyOpen
      requires Tracking(i)
      modifies this`funcArgOpen, this`funcParenDepth, this`nameIsMain, this`argOpen
      ensures InPhase(i)
    {
      hide Depth, Preproc, Class, FromArguments, KeywordBefore, First;
      var prev := tokens[i - 1];
      if !inPreproc && tokens[i].text == "(" && prev.kind == Identifier && prev.text !in ["for", "while", "if"] {
        var found := SkippedKeyword(i - 2);
        if !found {
          nameIsMain := !classOpen && tokens[i - 2].text != "::" && prev.text == "main";
          funcArgOpen := true;
          funcParenDepth := parenDepth - 1;
          argOpen := i;
        }
      }
    }

    /** The bookkeeping at the head of each round. */
    method Track(i: nat) returns (ok: bool)
      requires 2 <= i < |tokens| && Tracking(i - 1)
      modifies this`parenDepth, this`braceDepth, this`tribDepth, this`inPreproc, this`preprocPrevLine
      modifies this`templateOpen, this`templateTribDepth, this`classOpen, this`classBraceDepth
      ensures ok <==> !(OpensClass(tokens, i) && i + 1 == |tokens|)
      ensures ok ==> Tracking(i)
    {
      hide Depth, Preproc, Template, Class;
      TrackDepths(i);
      TrackPreprocessor(i);
      TrackTemplates(i);
      ok := TrackClasses(i);
    }

    /** The main function logic of one round. */
    method Recognize(i: nat) returns (ok: bool)
      requires 2 <= i < |tokens| && Tracking(i) && InPhase(i - 1)
      modifies this`funcArgOpen, this`funcPostargsOpen, this`funcBodyOpen, this`nameIsMain, this`funcParenDepth
      modifies this`initializerList, this`autoType, this`funcBodyBraceDepth, this`bodyOpenLine, this`bodyOpenColumn
      modifies this`functions, this`argOpen, this`argClose, this`open, this`bodies
      ensures ok ==> InPhase(i)
      ensures !ok ==> Bodies(tokens, 2) == None
    {
      hide Depth, Preproc, Template, Class, Bodies, ArgumentsOpen, ArgumentsClosed, BodyOpen, RecordedAre;
      ok := true;
      if funcArgOpen {
        ok := InArguments(i);
      } else if funcPostargsOpen {
        AfterArguments(i);
      } else if funcBodyOpen {
        InBody(i);
      } else {
        Outside(i);
      }
    }

    /** The loop over the tokens: false when it ends in an IndexError. */
    method Scan() returns (ok: bool)
      requires Tracking(1) && InPhase(1) && functions == []
      modifies this
      ensures ok <==> AllBodies(tokens).Some?
      ensures ok ==> RecordedAre() && Some(bodies) == AllBodies(tokens)
    {
      hide InPhase, Tracking, Bodies, OpensClass, RecordedAre;
      if |tokens| < 2 {
        FewTokens();
        return true;
      }
      var i := 2;
      while i < |tokens|
        invariant 2 <= i <= |tokens|
        invariant Tracking(i - 1) && InPhase(i - 1)
        invariant i == |tokens| && i > 2 ==> !OpensClass(tokens, i - 1)
      {
        ok := Track(i);
        if !ok {
          return false;
        }
        ok := Recognize(i);
        if !ok {
          return false;
        }
        i := i + 1;
      }
      NothingToCome(|tokens| - 1);
      ok := true;
    }

    lemma FewTokens()
      requires |tokens| < 2 && InPhase(1) && functions == []
      ensures AllBodies(tokens) == Some([]) && RecordedAre() && bodies == []
    {
    }
  }
}
