/**
 The provenance-database server's view of who is connected: RPC handlers over global flags, the status text
 it answers, and its shutdown test. Each handler is one atomic step.
 */
module ProvdbServer {
  import opened Decimal
  import opened Wrappers

  datatype Rpc =
    | ClientHello(rank: int)
    | ClientGoodbye(rank: int)
    | PserverHello
    | PserverGoodbye
    | CommitterHello
    | CommitterGoodbye
    | StopServer

  datatype State = State(
    connected: set<int>,
    aClientHasConnected: bool,
    pserverConnected: bool,
    pserverHasConnected: bool,
    committerConnected: bool,
    committerHasConnected: bool,
    cmdShutdown: bool)

  const INITIAL := State({}, false, false, false, false, false, false)

  function Handle(s: State, rpc: Rpc): (r: State) {
    match rpc
    case ClientHello(rank) => s.(connected := s.connected + {rank}, aClientHasConnected := true)
    case ClientGoodbye(rank) => s.(connected := s.connected - {rank})
    case PserverHello => s.(pserverConnected := true, pserverHasConnected := true)
    case PserverGoodbye => s.(pserverConnected := false)
    case CommitterHello => s.(committerConnected := true, committerHasConnected := true)
    case CommitterGoodbye => s.(committerConnected := false)
    case StopServer => s.(cmdShutdown := true)
  }

  function Fold(history: seq<Rpc>): (s: State) {
    if history == [] then INITIAL else Handle(Fold(history[..|history| - 1]), history[|history| - 1])
  }

  lemma FoldStep(history: seq<Rpc>)
    requires history != []
    ensures Fold(history) == Handle(Fold(history[..|history| - 1]), history[|history| - 1])
  {
  }

  lemma FoldNothing()
    ensures Fold([]) == INITIAL
  {
  }

  /** Nobody is connected. */
  predicate Quiet(s: State) {
    s.connected == {} && !s.pserverConnected && !s.committerConnected
  }

  /** The two shutdown conditions of the wait loop. */
  predicate ShouldStop(s: State, autoshutdown: bool) {
    Quiet(s) && (s.cmdShutdown || (autoshutdown && s.aClientHasConnected))
  }

  // ---------- The state as a summary of the RPCs handled ----------

  datatype Party = Client(rank: int) | Pserver | Committer

  function PartyOf(rpc: Rpc): (p: Option<Party>) {
    match rpc
    case ClientHello(rank) => Some(Client(rank))
    case ClientGoodbye(rank) => Some(Client(rank))
    case PserverHello => Some(Pserver)
    case PserverGoodbye => Some(Pserver)
    case CommitterHello => Some(Committer)
    case CommitterGoodbye => Some(Committer)
    case StopServer => None
  }

  predicate IsHello(rpc: Rpc) {
    rpc.ClientHello? || rpc.PserverHello? || rpc.CommitterHello?
  }

  /** The last handled RPC of the party is a hello. */
  predicate LastIsHello(history: seq<Rpc>, p: Party) {
    if history == [] then false
    else
      var last := history[|history| - 1];
      if PartyOf(last) == Some(p) then IsHello(last) else LastIsHello(history[..|history| - 1], p)
  }

  /** The server counts the party as connected. */
  predicate Live(s: State, p: Party) {
    match p
    case Client(rank) => rank in s.connected
    case Pserver => s.pserverConnected
    case Committer => s.committerConnected
  }

  lemma LiveStep(s: State, rpc: Rpc, p: Party)
    ensures Live(Handle(s, rpc), p) <==> if PartyOf(rpc) == Some(p) then IsHello(rpc) else Live(s, p)
  {
  }

  lemma LastStep(history: seq<Rpc>, p: Party)
    requires history != []
    ensures var last := history[|history| - 1];
      LastIsHello(history, p) <==>
        if PartyOf(last) == Some(p) then IsHello(last) else LastIsHello(history[..|history| - 1], p)
  {
  }

  /** After any handled RPCs, the live set and flags are the parties whose last RPC is a hello. */
  lemma {:induction false} LiveSummarizes(history: seq<Rpc>, p: Party)
    ensures Live(Fold(history), p) <==> LastIsHello(history, p)
    decreases |history|
  {
    hide Fold, Handle, PartyOf, IsHello;
    if history == [] {
      FoldNothing();
    } else {
      hide LastIsHello, Live;
      var before, last := history[..|history| - 1], history[|history| - 1];
      FoldStep(history);
      LiveStep(Fold(before), last, p);
      LastStep(history, p);
      LiveSummarizes(before, p);
    }
  }

  /** The flag that records that an RPC of this kind has been handled. */
  predicate Noted(s: State, rpc: Rpc)
    requires rpc in [PserverHello, CommitterHello, StopServer]
  {
    if rpc == PserverHello then s.pserverHasConnected
    else if rpc == CommitterHello then s.committerHasConnected
    else s.cmdShutdown
  }

  lemma NotedStep(s: State, rpc: Rpc, note: Rpc)
    requires note in [PserverHello, CommitterHello, StopServer]
    ensures Noted(Handle(s, rpc), note) <==> Noted(s, note) || rpc == note
  {
  }

  /** After any handled RPCs, the other flags say what has ever happened. */
  lemma {:induction false} EverSummarizes(history: seq<Rpc>, rpc: Rpc)
    requires rpc in [PserverHello, CommitterHello, StopServer]
    ensures Noted(Fold(history), rpc) <==> rpc in history
    decreases |history|
  {
    hide Fold, Handle;
    if history == [] {
      FoldNothing();
    } else {
      hide Noted;
      var before, last := history[..|history| - 1], history[|history| - 1];
      FoldStep(history);
      NotedStep(Fold(before), last, rpc);
      EverSummarizes(before, rpc);
      assert rpc in history <==> rpc in before || rpc == last by {
        assert history == before + [last];
      }
    }
  }

  lemma ClientStep(s: State, rpc: Rpc)
    ensures Handle(s, rpc).aClientHasConnected <==> s.aClientHasConnected || rpc.ClientHello?
  {
  }

  lemma {:induction false} ClientEver(history: seq<Rpc>)
    ensures Fold(history).aClientHasConnected <==> exists i :: 0 <= i < |history| && history[i].ClientHello?
    decreases |history|
  {
    hide Fold;
    if history == [] {
      FoldNothing();
    } else {
      hide Handle;
      var n := |history| - 1;
      FoldStep(history);
      ClientStep(Fold(history[..n]), history[n]);
      ClientEver(history[..n]);
      assert forall i | 0 <= i < n :: history[..n][i] == history[i];
    }
  }

  /** A party that is connected has connected. */
  lemma {:induction false} ConnectedHasConnected(history: seq<Rpc>)
    ensures Fold(history).pserverConnected ==> Fold(history).pserverHasConnected
    ensures Fold(history).committerConnected ==> Fold(history).committerHasConnected
    ensures Fold(history).connected != {} ==> Fold(history).aClientHasConnected
    decreases |history|
  {
    hide Fold;
    if history == [] {
      FoldNothing();
    } else {
      FoldStep(history);
      ConnectedHasConnected(history[..|history| - 1]);
    }
  }

  lemma SomeElement<T>(ts: set<T>) returns (t: T)
    requires ts != {}
    ensures t in ts
  {
    t :| t in ts;
  }

  lemma QuietMeansNobody(s: State)
    ensures Quiet(s) <==> forall p :: !Live(s, p)
  {
    if s.connected != {} {
      var rank := SomeElement(s.connected);
      assert Live(s, Client(rank));
    } else if s.pserverConnected {
      assert Live(s, Pserver);
    } else if s.committerConnected {
      assert Live(s, Committer);
    }
  }

  /** Quiet means that every party's last handled RPC is a goodbye, or it never had one handled. */
  lemma QuietMeansGone(history: seq<Rpc>)
    ensures Quiet(Fold(history)) <==> forall p :: !LastIsHello(history, p)
  {
    hide Fold, LastIsHello, Quiet, Live;
    QuietMeansNobody(Fold(history));
    if Quiet(Fold(history)) {
      forall p ensures !LastIsHello(history, p) {
        LiveSummarizes(history, p);
      }
    } else {
      var p :| Live(Fold(history), p);
      LiveSummarizes(history, p);
    }
  }

  // ---------- The status text ----------

  function Digit(b: bool): (n: nat) {
    if b then 1 else 0
  }

  function StatusFields(s: State): (fields: seq<nat>) {
    [|s.connected|, Digit(s.aClientHasConnected), Digit(s.pserverConnected), Digit(s.pserverHasConnected),
     Digit(s.committerConnected), Digit(s.committerHasConnected)]
  }

  /** Numbers separated by single blanks. */
  function Join(fields: seq<nat>): (text: string)
    requires fields != []
  {
    if |fields| == 1 then ToString(fields[0]) else ToString(fields[0]) + (" " + Join(fields[1..]))
  }

  lemma {:induction false} JoinAppends(fields: seq<nat>, last: nat)
    requires fields != []
    ensures Join(fields + [last]) == Join(fields) + " " + ToString(last)
  {
    hide ToString;
    assert (fields + [last])[1..] == fields[1..] + [last];
    if |fields| > 1 {
      JoinAppends(fields[1..], last);
    } else {
      assert fields[1..] + [last] == [last];
    }
  }

  lemma JoinOne(n: nat)
    ensures Join([n]) == ToString(n)
  {
  }

  /** What `connection_status` responds. */
  function StatusText(s: State): (text: string) {
    Join(StatusFields(s))
  }

  /** `of >> ...` for `count` ints; None when the stream fails. */
  function ExtractInts(text: string, count: nat): (r: Option<seq<int>>)
    ensures r.Some? ==> |r.value| == count
  {
    if count == 0 then Some([])
    else
      match ExtractInt(text)
      case None => None
      case Some((n, rest)) => Found(n, ExtractInts(rest, count - 1))
  }

  function Found(n: int, r: Option<seq<int>>): (result: Option<seq<int>>) {
    if r.None? then None else Some([n] + r.value)
  }

  /** Reading back the first numbers of a joined text recovers them, exactly when each fits an `int`. */
  lemma {:induction false} ExtractJoined(fields: seq<nat>, blank: string, count: nat)
    requires fields != [] && count <= |fields| && blank in ["", " "]
    ensures ExtractInts(blank + Join(fields), count) ==
      if forall i | 0 <= i < count :: fields[i] <= INT_MAX then Some(fields[..count]) else None
    decreases count
  {
    hide ToString, ExtractInt;
    if count > 0 {
      var n := fields[0];
      var rest := if |fields| == 1 then "" else " " + Join(fields[1..]);
      assert blank + Join(fields) == blank + ToString(n) + rest;
      ExtractToString(n, blank, rest);
      if count > 1 {
        ExtractJoined(fields[1..], " ", count - 1);
        assert fields[1..][..count - 1] == fields[1..count];
        assert (forall i | 0 <= i < count :: fields[i] <= INT_MAX) <==>
          n <= INT_MAX && forall i | 0 <= i < count - 1 :: fields[1..][i] <= INT_MAX;
      }
      assert [n] + fields[1..count] == fields[..count];
    }
  }

  /** What `exit_check` makes of the text; None for its failed assertion. */
  function ExitDecision(text: string): (r: Option<bool>) {
    match ExtractInts(text, 4)
    case None => None
    case Some(ns) =>
      Some((ns[1] != 0 && ns[0] == 0) && (ns[3] == 0 || (ns[3] != 0 && ns[2] == 0)))
  }

  /** The first four fields come back as printed, exactly when the number of clients fits an `int`. */
  lemma StatusRoundTrip(s: State)
    ensures ExtractInts(StatusText(s), 4) ==
      if |s.connected| <= INT_MAX then Some(StatusFields(s)[..4]) else None
  {
    hide Join, ExtractInts;
    var fields := StatusFields(s);
    assert "" + Join(fields) == Join(fields);
    assert fields[1] <= 1 && fields[2] <= 1 && fields[3] <= 1;
    assert (forall i | 0 <= i < 4 :: fields[i] <= INT_MAX) <==> fields[0] <= INT_MAX;
    ExtractJoined(fields, "", 4);
  }

  /** All six fields of the text, by name. */
  lemma StatusShowsAll(s: State)
    requires |s.connected| <= INT_MAX
    ensures ExtractInts(StatusText(s), 6) ==
      Some([|s.connected|,
            if s.aClientHasConnected then 1 else 0,
            if s.pserverConnected then 1 else 0, if s.pserverHasConnected then 1 else 0,
            if s.committerConnected then 1 else 0, if s.committerHasConnected then 1 else 0])
  {
    hide Join, ExtractInts;
    var fields := StatusFields(s);
    assert "" + Join(fields) == Join(fields) && fields[..6] == fields;
    ExtractJoined(fields, "", 6);
  }

  /** The committer's decision, taken on the text, is the server's own condition without the committer. */
  lemma {:induction false} ExitDecisionMeans(history: seq<Rpc>)
    requires |Fold(history).connected| <= INT_MAX
    ensures var s := Fold(history);
      ExitDecision(StatusText(s)) == Some(s.aClientHasConnected && s.connected == {} && !s.pserverConnected)
  {
    hide StatusText, ExtractInts, Fold;
    StatusRoundTrip(Fold(history));
    ConnectedHasConnected(history);
  }

  // ---------- The server process ----------

  class Admin {
    const autoshutdown: bool
    var connected: set<int>
    var aClientHasConnected: bool
    var pserverConnected: bool
    var pserverHasConnected: bool
    var committerConnected: bool
    var committerHasConnected: bool
    var cmdShutdown: bool

    constructor (autoshutdown: bool)
      ensures this.autoshutdown == autoshutdown && Abstract() == INITIAL
    {
      this.autoshutdown := autoshutdown;
      connected := {};
      aClientHasConnected, pserverConnected, pserverHasConnected := false, false, false;
      committerConnected, committerHasConnected, cmdShutdown := false, false, false;
    }

    function Abstract(): (s: State)
      reads this
    {
      State(connected, aClientHasConnected, pserverConnected, pserverHasConnected,
            committerConnected, committerHasConnected, cmdShutdown)
    }

    method OnClientHello(rank: int)
      modifies this
      ensures Abstract() == Handle(old(Abstract()), ClientHello(rank))
    {
      connected := connected + {rank};
      aClientHasConnected := true;
    }

    method OnClientGoodbye(rank: int)
      modifies this
      ensures Abstract() == Handle(old(Abstract()), ClientGoodbye(rank))
    {
      connected := connected - {rank};
    }

    method OnPserverHello()
      modifies this
      ensures Abstract() == Handle(old(Abstract()), PserverHello)
    {
      pserverConnected := true;
      pserverHasConnected := true;
    }

    method OnPserverGoodbye()
      modifies this
      ensures Abstract() == Handle(old(Abstract()), PserverGoodbye)
    {
      pserverConnected := false;
    }

    method OnCommitterHello()
      modifies this
      ensures Abstract() == Handle(old(Abstract()), CommitterHello)
    {
      committerConnected := true;
      committerHasConnected := true;
    }

    method OnCommitterGoodbye()
      modifies this
      ensures Abstract() == Handle(old(Abstract()), CommitterGoodbye)
    {
      committerConnected := false;
    }

    method OnStop()
      modifies this
      ensures Abstract() == Handle(old(Abstract()), StopServer)
    {
      cmdShutdown := true;
    }

    method ConnectionStatus() returns (text: string)
      ensures text == StatusText(Abstract())
    {
      hide ToString, Join;
      var fields := StatusFields(Abstract());
      text := ToString(|connected|);
      JoinOne(fields[0]);
      assert fields[..1] == [fields[0]];
      for n := 1 to 6
        invariant text == Join(fields[..n])
      {
        JoinAppends(fields[..n], fields[n]);
        assert fields[..n + 1] == fields[..n] + [fields[n]];
        text := text + " " + ToString(fields[n]);
      }
      assert fields[..6] == fields;
    }

    /** One check of the wait loop. */
    method CheckShutdown() returns (doBreak: bool)
      ensures doBreak <==> ShouldStop(Abstract(), autoshutdown)
    {
      doBreak := false;
      if cmdShutdown && |connected| == 0 && !pserverConnected && !committerConnected {
        doBreak := true;
      }
      if autoshutdown && aClientHasConnected && |connected| == 0 && !pserverConnected && !committerConnected {
        doBreak := true;
      }
    }
  }

  // ---------- The committer process ----------

  /** `exit_check`: reads four ints from the status text; None when the stream has failed. */
  method ExitCheck(conn: string) returns (r: Option<bool>)
    ensures r == ExitDecision(conn)
  {
    hide ExtractInt;
    var fields: seq<int> := [];
    var rest := conn;
    FoundAfter([], conn, 4);
    for n := 0 to 4
      invariant |fields| == n
      invariant ExtractInts(conn, 4) == FoundAll(fields, ExtractInts(rest, 4 - n))
    {
      FoundAfter(fields, rest, 4 - n);
      var extracted := ExtractInt(rest);
      if extracted.None? {
        return None;
      }
      fields := fields + [extracted.value.0];
      rest := extracted.value.1;
    }
    assert fields + [] == fields;
    var connected, aClientHasConnected := fields[0], fields[1];
    var pserverConnected, pserverHasConnected := fields[2], fields[3];
    return Some((aClientHasConnected != 0 && connected == 0) &&
                (pserverHasConnected == 0 || (pserverHasConnected != 0 && pserverConnected == 0)));
  }

  function FoundAll(ns: seq<int>, r: Option<seq<int>>): (result: Option<seq<int>>) {
    if r.None? then None else Some(ns + r.value)
  }

  lemma FoundAfter(ns: seq<int>, text: string, count: nat)
    requires count > 0
    ensures ExtractInts(text, count) == FoundAll([], ExtractInts(text, count))
    ensures FoundAll(ns, ExtractInts(text, count)) ==
      var first := ExtractInt(text);
      if first.None? then None else FoundAll(ns + [first.value.0], ExtractInts(first.value.1, count - 1))
  {
    hide ExtractInt;
    var first := ExtractInt(text);
    if first.Some? && ExtractInts(first.value.1, count - 1).Some? {
      var rest := ExtractInts(first.value.1, count - 1).value;
      assert ns + ([first.value.0] + rest) == ns + [first.value.0] + rest;
    }
    if ExtractInts(text, count).Some? {
      assert [] + ExtractInts(text, count).value == ExtractInts(text, count).value;
    }
  }
}
