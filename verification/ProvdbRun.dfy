/**
 Admin server, clients, pserver and committer as one transition system over SIGTERM-free runs.
 Sending a committer hello or goodbye and its handling by the server are separate events.
 */
module ProvdbRun {
  import opened Decimal
  import opened ProvdbServer
  import opened Wrappers

  /** Where the committer is: its loop counts iterations; it is stranded when it polls a server that has gone. */
  datatype Phase = NotStarted | Polling(iter: nat) | Leaving | Gone | Stranded | Aborted

  datatype System = System(server: State, running: bool, committer: Phase, helloHandled: bool, history: seq<Rpc>)

  const START := System(INITIAL, true, NotStarted, false, [])

  datatype Event =
    | Handled(rpc: Rpc)
    | CommitterStarts
    | CommitterHelloHandled
    | CommitterIterates
    | CommitterGoodbyeHandled
    | AdminChecks

  function HandledBy(s: System, rpc: Rpc): (r: System) {
    s.(server := Handle(s.server, rpc), history := s.history + [rpc])
  }

  /** One iteration of the commit loop: every tenth asks for the status. */
  function Iterate(s: System, iter: nat): (r: Phase) {
    if iter % 10 != 0 then Polling(iter + 1)
    else if !s.running then Stranded
    else
      match ExitDecision(StatusText(s.server))
      case None => Aborted
      case Some(leave) => if leave then Leaving else Polling(iter + 1)
  }

  /** The successor, or None where the event cannot happen. */
  function Step(autoshutdown: bool, s: System, e: Event): (r: Option<System>) {
    match e
    case Handled(rpc) => if s.running && PartyOf(rpc) != Some(Committer) then Some(HandledBy(s, rpc)) else None
    case CommitterStarts => if s.committer == NotStarted then Some(s.(committer := Polling(0))) else None
    case CommitterHelloHandled =>
      if s.running && !s.helloHandled && (s.committer.Polling? || s.committer == Leaving)
      then Some(HandledBy(s, CommitterHello).(helloHandled := true)) else None
    case CommitterIterates =>
      if s.committer.Polling? then Some(s.(committer := Iterate(s, s.committer.iter))) else None
    case CommitterGoodbyeHandled =>
      if s.running && s.helloHandled && s.committer == Leaving
      then Some(HandledBy(s, CommitterGoodbye).(committer := Gone)) else None
    case AdminChecks =>
      if s.running then Some(s.(running := !ShouldStop(s.server, autoshutdown))) else None
  }

  function RunFrom(autoshutdown: bool, s: System, es: seq<Event>): (r: Option<System>)
    decreases |es|
  {
    if es == [] then Some(s)
    else
      match Step(autoshutdown, s, es[0])
      case None => None
      case Some(next) => RunFrom(autoshutdown, next, es[1..])
  }

  // ---------- What every run keeps ----------

  ghost predicate Invariant(autoshutdown: bool, s: System) {
    && s.server == Fold(s.history)
    && (s.server.committerConnected <==> s.helloHandled && s.committer != Gone)
    && (s.helloHandled ==> s.committer != NotStarted)
    && (s.committer == Gone ==> s.helloHandled)
    && (s.committer == Stranded ==> !s.helloHandled)
    && (!s.running ==> ShouldStop(s.server, autoshutdown))
  }

  lemma {:induction false} StepKeeps(autoshutdown: bool, s: System, e: Event)
    requires Invariant(autoshutdown, s) && Step(autoshutdown, s, e).Some?
    ensures Invariant(autoshutdown, Step(autoshutdown, s, e).value)
  {
    hide StatusText, ExitDecision, Fold;
    match e
    case Handled(rpc) => FoldAppends(s.history, rpc);
    case CommitterHelloHandled => FoldAppends(s.history, CommitterHello);
    case CommitterGoodbyeHandled => FoldAppends(s.history, CommitterGoodbye);
    case _ =>
  }

  lemma FoldAppends(history: seq<Rpc>, rpc: Rpc)
    ensures Fold(history + [rpc]) == Handle(Fold(history), rpc)
  {
  }

  lemma {:induction false} RunKeeps(autoshutdown: bool, s: System, es: seq<Event>)
    requires Invariant(autoshutdown, s) && RunFrom(autoshutdown, s, es).Some?
    ensures Invariant(autoshutdown, RunFrom(autoshutdown, s, es).value)
    decreases |es|
  {
    hide Invariant, Step;
    if es != [] {
      StepKeeps(autoshutdown, s, es[0]);
      RunKeeps(autoshutdown, Step(autoshutdown, s, es[0]).value, es[1..]);
    }
  }

  /**
   When the admin has left its loop, the last handled RPC of every rank, of the pserver and of the committer
   is a goodbye, or there was none; and a shutdown was requested, or a client had connected under autoshutdown.
   */
  lemma AdminLeavesAnEmptyServer(autoshutdown: bool, es: seq<Event>)
    requires RunFrom(autoshutdown, START, es).Some? && !RunFrom(autoshutdown, START, es).value.running
    ensures var history := RunFrom(autoshutdown, START, es).value.history;
      && (forall p :: !LastIsHello(history, p))
      && (StopServer in history || (autoshutdown && exists i :: 0 <= i < |history| && history[i].ClientHello?))
  {
    hide Step, LastIsHello, Fold;
    StartHolds(autoshutdown);
    RunKeeps(autoshutdown, START, es);
    var history := RunFrom(autoshutdown, START, es).value.history;
    QuietMeansGone(history);
    ClientEver(history);
    EverSummarizes(history, StopServer);
  }

  lemma StartHolds(autoshutdown: bool)
    ensures Invariant(autoshutdown, START)
  {
  }

  /** A committer whose hello is handled and whose goodbye is not always finds a live server. */
  lemma CommitterHasServer(autoshutdown: bool, es: seq<Event>)
    requires RunFrom(autoshutdown, START, es).Some?
    ensures var s := RunFrom(autoshutdown, START, es).value;
      s.helloHandled ==> s.committer != Stranded && (s.committer != Gone ==> s.running)
  {
    hide Step, Fold;
    StartHolds(autoshutdown);
    RunKeeps(autoshutdown, START, es);
  }

  /** The check stops the server exactly when nobody's last RPC is a hello and there is a reason to stop. */
  lemma CheckStopsExactly(autoshutdown: bool, es: seq<Event>)
    requires RunFrom(autoshutdown, START, es).Some? && RunFrom(autoshutdown, START, es).value.running
    ensures var s := RunFrom(autoshutdown, START, es).value;
      var checked := Step(autoshutdown, s, AdminChecks);
      checked.Some? && (checked.value.running <==>
        !((forall p :: !LastIsHello(s.history, p))
          && (StopServer in s.history
              || (autoshutdown && exists i :: 0 <= i < |s.history| && s.history[i].ClientHello?))))
  {
    hide LastIsHello, Fold, RunFrom;
    StartHolds(autoshutdown);
    RunKeeps(autoshutdown, START, es);
    var s := RunFrom(autoshutdown, START, es).value;
    QuietMeansGone(s.history);
    ClientEver(s.history);
    EverSummarizes(s.history, StopServer);
  }

  /** A client has said hello, and the last RPC of no rank and not of the pserver is a hello. */
  ghost predicate EverybodyGone(history: seq<Rpc>) {
    && (exists i :: 0 <= i < |history| && history[i].ClientHello?)
    && (forall rank :: !LastIsHello(history, Client(rank)))
    && !LastIsHello(history, Pserver)
  }

  lemma EverybodyGoneMeans(history: seq<Rpc>)
    ensures EverybodyGone(history) <==>
      var s := Fold(history);
      s.aClientHasConnected && s.connected == {} && !s.pserverConnected
  {
    hide Fold, LastIsHello;
    var s := Fold(history);
    ClientEver(history);
    LiveSummarizes(history, Pserver);
    forall rank ensures rank in s.connected <==> LastIsHello(history, Client(rank)) {
      LiveSummarizes(history, Client(rank));
    }
    if s.connected != {} {
      var rank := SomeElement(s.connected);
    }
  }

  /**
   In every run, what an iteration of a polling committer does: between the status checks it goes on; at a check it
   leaves exactly when everybody has gone, is stranded by a server that has gone, and aborts on a number of clients
   that no `int` holds. It changes nothing but its own phase.
   */
  lemma IterationDecides(autoshutdown: bool, es: seq<Event>)
    requires RunFrom(autoshutdown, START, es).Some? && RunFrom(autoshutdown, START, es).value.committer.Polling?
    ensures var s := RunFrom(autoshutdown, START, es).value;
      var next, iter := Step(autoshutdown, s, CommitterIterates), s.committer.iter;
      && next.Some? && next.value == s.(committer := next.value.committer)
      && (iter % 10 != 0 ==> next.value.committer == Polling(iter + 1))
      && (iter % 10 == 0 && !s.running ==> next.value.committer == Stranded)
      && (iter % 10 == 0 && s.running && |s.server.connected| > INT_MAX ==> next.value.committer == Aborted)
      && (s.running && |s.server.connected| <= INT_MAX ==>
            && (next.value.committer == Leaving <==> iter % 10 == 0 && EverybodyGone(s.history))
            && (next.value.committer != Leaving ==> next.value.committer == Polling(iter + 1)))
  {
    hide Fold, StatusText, ExtractInts, RunFrom, EverybodyGone;
    StartHolds(autoshutdown);
    RunKeeps(autoshutdown, START, es);
    var s := RunFrom(autoshutdown, START, es).value;
    EverybodyGoneMeans(s.history);
    StatusRoundTrip(s.server);
    if |s.server.connected| <= INT_MAX {
      ExitDecisionMeans(s.history);
    }
  }

  ghost predicate Strands(autoshutdown: bool, s: System, es: seq<Event>) {
    RunFrom(autoshutdown, s, es).Some? && RunFrom(autoshutdown, s, es).value.committer == Stranded
  }

  /** While the hello is still in flight the guarantee fails: the server may go first. */
  lemma UnhandledHelloStrands()
    ensures var es :=
        [Handled(ClientHello(0)), CommitterStarts, Handled(ClientGoodbye(0)), AdminChecks, CommitterIterates];
      Strands(true, START, es) && !RunFrom(true, START, es).value.helloHandled
  {
    hide RunFrom, Fold;
    var s1 := HandledBy(START, ClientHello(0));
    var s2 := s1.(committer := Polling(0));
    var s3 := HandledBy(s2, ClientGoodbye(0));
    var s4 := s3.(running := false);
    var s5 := s4.(committer := Stranded);
    assert s3.server.connected == {};
    RunNothing(true, s5);
    var es5: seq<Event> := [CommitterIterates] + [];
    var es4 := [AdminChecks] + es5;
    var es3 := [Handled(ClientGoodbye(0))] + es4;
    var es2 := [CommitterStarts] + es3;
    RunCons(true, s4, CommitterIterates, []);
    RunCons(true, s3, AdminChecks, es5);
    RunCons(true, s2, Handled(ClientGoodbye(0)), es4);
    RunCons(true, s1, CommitterStarts, es3);
    RunCons(true, START, Handled(ClientHello(0)), es2);
    assert [Handled(ClientHello(0))] + es2 ==
      [Handled(ClientHello(0)), CommitterStarts, Handled(ClientGoodbye(0)), AdminChecks, CommitterIterates];
  }

  /** A hello once handled stays handled, so the committer is not stranded afterwards. */
  lemma {:induction false} HandledStays(autoshutdown: bool, s: System, es: seq<Event>)
    requires s.helloHandled && RunFrom(autoshutdown, s, es).Some?
    ensures RunFrom(autoshutdown, s, es).value.helloHandled
    decreases |es|
  {
    if es != [] {
      HandledStays(autoshutdown, Step(autoshutdown, s, es[0]).value, es[1..]);
    }
  }

  /** From a server that has gone, a polling committer's iterations lead it to the next status check. */
  lemma {:induction false} IteratesIntoTheVoid(autoshutdown: bool, s: System) returns (es: seq<Event>)
    requires !s.running && s.committer.Polling?
    ensures Strands(autoshutdown, s, es)
    decreases IterationsLeft(s.committer.iter)
  {
    var next := Step(autoshutdown, s, CommitterIterates).value;
    var rest: seq<Event> := [];
    if s.committer.iter % 10 != 0 {
      rest := IteratesIntoTheVoid(autoshutdown, next);
    }
    RunCons(autoshutdown, s, CommitterIterates, rest);
    es := [CommitterIterates] + rest;
  }

  /** Goodbyes and a stop request can end a server that waits for no committer, whatever is connected. */
  lemma {:induction false} ServerCanStop(autoshutdown: bool, s: System) returns (es: seq<Event>)
    requires s.running && s.committer.Polling? && !s.server.committerConnected
    ensures RunFrom(autoshutdown, s, es).Some?
    ensures var end := RunFrom(autoshutdown, s, es).value; !end.running && end.committer == s.committer
    decreases |s.server.connected|
  {
    hide RunFrom, Fold, Step;
    if s.server.connected != {} {
      var rank := SomeElement(s.server.connected);
      var e := Handled(ClientGoodbye(rank));
      GoodbyeHandled(autoshutdown, s, rank);
      var rest := ServerCanStop(autoshutdown, Step(autoshutdown, s, e).value);
      RunCons(autoshutdown, s, e, rest);
      es := [e] + rest;
    } else {
      var last: seq<Event> := [AdminChecks] + [];
      var s1, s2, s3 := LastSteps(autoshutdown, s);
      RunNothing(autoshutdown, s3);
      RunCons(autoshutdown, s2, AdminChecks, []);
      RunCons(autoshutdown, s1, Handled(StopServer), last);
      RunCons(autoshutdown, s, Handled(PserverGoodbye), [Handled(StopServer)] + last);
      es := [Handled(PserverGoodbye)] + ([Handled(StopServer)] + last);
    }
  }

  lemma GoodbyeHandled(autoshutdown: bool, s: System, rank: int)
    requires s.running
    ensures Step(autoshutdown, s, Handled(ClientGoodbye(rank))).Some?
    ensures var next := Step(autoshutdown, s, Handled(ClientGoodbye(rank))).value;
      && next.running && next.committer == s.committer && next.server.connected == s.server.connected - {rank}
      && next.server.committerConnected == s.server.committerConnected
  {
  }

  /** With no client connected: the pserver's goodbye, a stop request and a check. */
  lemma LastSteps(autoshutdown: bool, s: System) returns (s1: System, s2: System, s3: System)
    requires s.running && s.server.connected == {} && !s.server.committerConnected
    ensures Step(autoshutdown, s, Handled(PserverGoodbye)) == Some(s1)
    ensures Step(autoshutdown, s1, Handled(StopServer)) == Some(s2)
    ensures Step(autoshutdown, s2, AdminChecks) == Some(s3)
    ensures !s3.running && s3.committer == s.committer
  {
    s1 := HandledBy(s, PserverGoodbye);
    s2 := HandledBy(s1, StopServer);
    s3 := s2.(running := false);
  }

  lemma RunNothing(autoshutdown: bool, s: System)
    ensures RunFrom(autoshutdown, s, []) == Some(s)
  {
  }

  lemma {:induction false} RunConcat(autoshutdown: bool, s: System, first: seq<Event>, second: seq<Event>)
    requires RunFrom(autoshutdown, s, first).Some?
    ensures RunFrom(autoshutdown, s, first + second) ==
            RunFrom(autoshutdown, RunFrom(autoshutdown, s, first).value, second)
    decreases |first|
  {
    hide Step;
    if first == [] {
      assert first + second == second;
    } else {
      assert (first + second)[1..] == first[1..] + second;
      RunConcat(autoshutdown, Step(autoshutdown, s, first[0]).value, first[1..], second);
    }
  }

  /** A polling committer can still be stranded exactly as long as its hello is not handled. */
  lemma {:induction false} StrandsExactlyWhenUnhandled(autoshutdown: bool, s: System)
    requires Invariant(autoshutdown, s) && s.committer.Polling?
    ensures (exists es :: Strands(autoshutdown, s, es)) <==> !s.helloHandled
  {
    hide Step, RunFrom, Fold;
    if s.helloHandled {
      forall es ensures !Strands(autoshutdown, s, es) {
        if RunFrom(autoshutdown, s, es).Some? {
          RunKeeps(autoshutdown, s, es);
          HandledStays(autoshutdown, s, es);
        }
      }
    } else if s.running {
      var stop := ServerCanStop(autoshutdown, s);
      var rest := IteratesIntoTheVoid(autoshutdown, RunFrom(autoshutdown, s, stop).value);
      RunConcat(autoshutdown, s, stop, rest);
      assert Strands(autoshutdown, s, stop + rest);
    } else {
      var es := IteratesIntoTheVoid(autoshutdown, s);
      assert Strands(autoshutdown, s, es);
    }
  }

  lemma RunCons(autoshutdown: bool, s: System, e: Event, es: seq<Event>)
    ensures RunFrom(autoshutdown, s, [e] + es) ==
      var next := Step(autoshutdown, s, e);
      if next.None? then None else RunFrom(autoshutdown, next.value, es)
  {
  }

  // ---------- No circular wait ----------

  /** Clients have come and all clients and the pserver are gone. */
  predicate Abandoned(s: State) {
    s.aClientHasConnected && s.connected == {} && !s.pserverConnected
  }

  /** No client and no pserver comes back; goodbyes may be repeated and the server may be told to stop. */
  predicate ForGood(es: seq<Event>) {
    forall i | 0 <= i < |es| && es[i].Handled? :: !es[i].rpc.ClientHello? && !es[i].rpc.PserverHello?
  }

  function Iterations(es: seq<Event>): (n: nat) {
    if es == [] then 0 else (if es[0] == CommitterIterates then 1 else 0) + Iterations(es[1..])
  }

  /** How many iterations until the status is asked for, that one included. */
  function IterationsLeft(iter: nat): (n: nat)
    ensures 1 <= n <= 10
  {
    if iter % 10 == 0 then 1 else 11 - iter % 10
  }

  /** One event keeps the server abandoned and moves the committer at most one iteration closer to leaving. */
  lemma AbandonedStep(autoshutdown: bool, s: System, e: Event)
    requires Invariant(autoshutdown, s) && Abandoned(s.server) && s.helloHandled
    requires s.committer.Polling? || s.committer == Leaving || s.committer == Gone
    requires Step(autoshutdown, s, e).Some? && ForGood([e])
    ensures var next := Step(autoshutdown, s, e).value;
      && Invariant(autoshutdown, next) && Abandoned(next.server) && next.helloHandled
      && (s.committer.Polling? && e == CommitterIterates ==>
            next.committer == if s.committer.iter % 10 == 0 then Leaving else Polling(s.committer.iter + 1))
      && (s.committer.Polling? && e != CommitterIterates ==> next.committer == s.committer)
      && (!s.committer.Polling? ==> e != CommitterIterates && next.committer in [Leaving, Gone])
  {
    hide StatusText, ExitDecision, Fold;
    assert [e][0] == e;
    StepKeeps(autoshutdown, s, e);
    ExitDecisionMeans(s.history);
  }

  /**
   Once the server is abandoned for good, a polling committer whose hello is handled leaves at exactly the
   next status check, hence within ten of its iterations, whatever else happens in between.
   */
  lemma {:induction false} CommitterLeaves(autoshutdown: bool, s: System, es: seq<Event>)
    requires Invariant(autoshutdown, s) && Abandoned(s.server) && s.helloHandled
    requires s.committer.Polling? || s.committer == Leaving || s.committer == Gone
    requires ForGood(es) && RunFrom(autoshutdown, s, es).Some?
    ensures var end := RunFrom(autoshutdown, s, es).value;
      && Invariant(autoshutdown, end) && Abandoned(end.server) && end.helloHandled
      && (s.committer.Polling? && Iterations(es) < IterationsLeft(s.committer.iter) ==>
            end.committer == Polling(s.committer.iter + Iterations(es)))
      && (s.committer.Polling? && Iterations(es) >= IterationsLeft(s.committer.iter) ==>
            end.committer in [Leaving, Gone] && Iterations(es) == IterationsLeft(s.committer.iter))
      && (!s.committer.Polling? ==> end.committer in [Leaving, Gone] && Iterations(es) == 0)
    decreases |es|
  {
    hide Invariant, Step, Abandoned;
    if es != [] {
      assert [es[0]][0] == es[0];
      AbandonedStep(autoshutdown, s, es[0]);
      var next := Step(autoshutdown, s, es[0]).value;
      assert forall i | 0 <= i < |es[1..]| :: es[1..][i] == es[i + 1];
      CommitterLeaves(autoshutdown, next, es[1..]);
    }
  }

  /** With autoshutdown, the next check after the committer's goodbye stops the abandoned server. */
  lemma AdminLeaves(s: System)
    requires Invariant(true, s) && Abandoned(s.server) && s.committer == Gone && s.running
    ensures Step(true, s, AdminChecks).Some? && !Step(true, s, AdminChecks).value.running
  {
  }

  /** A server that has stopped stays stopped. */
  lemma {:induction false} StaysStopped(autoshutdown: bool, s: System, es: seq<Event>)
    requires !s.running && RunFrom(autoshutdown, s, es).Some?
    ensures !RunFrom(autoshutdown, s, es).value.running
    decreases |es|
  {
    if es != [] {
      StaysStopped(autoshutdown, Step(autoshutdown, s, es[0]).value, es[1..]);
    }
  }

  /** Once the committer has gone from an abandoned server, any run with a check ends with the server stopped. */
  lemma {:induction false} CheckedAfterGoodbye(s: System, es: seq<Event>)
    requires Invariant(true, s) && Abandoned(s.server) && s.committer == Gone
    requires ForGood(es) && AdminChecks in es && RunFrom(true, s, es).Some?
    ensures !RunFrom(true, s, es).value.running
    decreases |es|
  {
    hide Invariant, Step, Abandoned;
    GoneMeansHandled(s);
    assert [es[0]][0] == es[0];
    AbandonedStep(true, s, es[0]);
    var next := Step(true, s, es[0]).value;
    if es[0] == AdminChecks {
      CheckRan(s);
      AdminLeaves(s);
      StaysStopped(true, next, es[1..]);
    } else {
      AbandonedEvent(s, es[0]);
      assert es == [es[0]] + es[1..];
      assert forall i | 0 <= i < |es[1..]| :: es[1..][i] == es[i + 1];
      CheckedAfterGoodbye(next, es[1..]);
    }
  }

  lemma GoneMeansHandled(s: System)
    requires Invariant(true, s) && s.committer == Gone
    ensures s.helloHandled
  {
  }

  lemma CheckRan(s: System)
    requires Step(true, s, AdminChecks).Some?
    ensures s.running
  {
  }

  /** A committer that has gone does nothing any more. */
  lemma AbandonedEvent(s: System, e: Event)
    requires s.committer == Gone && Step(true, s, e).Some?
    ensures Step(true, s, e).value.committer == Gone
  {
  }

  /**
   In every run from an abandoned server, in whatever order its events come, a check by the admin after the
   committer's goodbye means that the server has stopped.
   */
  lemma {:induction false} AdminLeavesAfterGoodbye(s: System, es: seq<Event>, goodbye: nat, check: nat)
    requires Invariant(true, s) && Abandoned(s.server) && s.helloHandled
    requires s.committer.Polling? || s.committer == Leaving
    requires ForGood(es) && RunFrom(true, s, es).Some?
    requires goodbye < check < |es| && es[goodbye] == CommitterGoodbyeHandled && es[check] == AdminChecks
    ensures !RunFrom(true, s, es).value.running
    decreases |es|
  {
    hide Invariant, Step, Abandoned;
    assert [es[0]][0] == es[0];
    AbandonedStep(true, s, es[0]);
    var next := Step(true, s, es[0]).value;
    assert forall i | 0 <= i < |es[1..]| :: es[1..][i] == es[i + 1];
    if goodbye == 0 {
      GoodbyeRan(s);
      assert es[1..][check - 1] == AdminChecks;
      CheckedAfterGoodbye(next, es[1..]);
    } else if next.committer == Gone {
      NoSecondGoodbye(next, es[1..], goodbye - 1);
    } else {
      AdminLeavesAfterGoodbye(next, es[1..], goodbye - 1, check - 1);
    }
  }

  lemma GoodbyeRan(s: System)
    requires Step(true, s, CommitterGoodbyeHandled).Some?
    ensures Step(true, s, CommitterGoodbyeHandled).value.committer == Gone
  {
  }

  lemma {:induction false} NoSecondGoodbye(s: System, es: seq<Event>, i: nat)
    requires s.committer == Gone && RunFrom(true, s, es).Some? && i < |es|
    ensures es[i] != CommitterGoodbyeHandled
    decreases |es|
  {
    if i > 0 {
      AbandonedEvent(s, es[0]);
      NoSecondGoodbye(Step(true, s, es[0]).value, es[1..], i - 1);
    }
  }

  function Repeat(e: Event, n: nat): (es: seq<Event>) {
    if n == 0 then [] else [e] + Repeat(e, n - 1)
  }

  /** Nothing blocks on the way: from any abandoned state the shutdown can run to its end. */
  lemma {:induction false} ShutdownCompletes(s: System)
    requires Invariant(true, s) && Abandoned(s.server) && s.helloHandled && s.committer.Polling?
    ensures var n, ending := IterationsLeft(s.committer.iter), [CommitterGoodbyeHandled, AdminChecks];
      var es := Repeat(CommitterIterates, n) + ending;
      var end := RunFrom(true, s, es);
      end.Some? && end.value.committer == Gone && !end.value.running
    decreases IterationsLeft(s.committer.iter)
  {
    hide Invariant, Step, Abandoned, RunFrom;
    var n := IterationsLeft(s.committer.iter);
    IterationEnabled(s);
    assert ForGood([CommitterIterates]);
    AbandonedStep(true, s, CommitterIterates);
    var next := Step(true, s, CommitterIterates).value;
    var ending := [CommitterGoodbyeHandled, AdminChecks];
    var rest := Repeat(CommitterIterates, n - 1) + ending;
    assert Repeat(CommitterIterates, n) + ending == [CommitterIterates] + rest;
    RunCons(true, s, CommitterIterates, rest);
    if n == 1 {
      assert rest == ending;
      Ending(next);
    } else {
      ShutdownCompletes(next);
    }
  }

  lemma IterationEnabled(s: System)
    requires s.committer.Polling?
    ensures Step(true, s, CommitterIterates).Some?
  {
  }

  lemma Ending(s: System)
    requires Invariant(true, s) && Abandoned(s.server) && s.helloHandled && s.committer == Leaving
    ensures var end := RunFrom(true, s, [CommitterGoodbyeHandled, AdminChecks]);
      end.Some? && end.value.committer == Gone && !end.value.running
  {
  }
}
