/** The protocol never gets stuck, and a run without further outside events is short: once the end
    condition holds, both sides reach the end. And what the protocol cannot cope with. */
module ProtocolLiveness {
  import opened Bytes
  import opened Protocol
  import opened ProtocolSafety

  /** How much is still to do: phases, streams to create and accept, connections to serve. */
  ghost function Rank(c: Config, s: State): nat
    requires WellFormed(c) && Inv(c, s)
  {
    4 * (16 - ServerPhase(s.server)) + 4 * (16 - ClientPhase(s.client))
    + 4 * (Total(c) - |s.client.streams|) + (Total(c) - |s.server.streams|)
    + |s.backlog| + if s.client.pc.AwaitReply? then 0 else 1
  }

  /** Every step of the protocol itself leaves less to do. */
  lemma RankDecreases(c: Config, s: State, a: Action)
    requires Sound(c) && Inv(c, s) && !Environment(a) && Apply(c, s, a).Some?
    ensures Inv(c, Apply(c, s, a).value) && Rank(c, Apply(c, s, a).value) < Rank(c, s)
  {
    StepInv(c, s, a);
    hide Inv, ServerStep, ServerAccept, ClientStep, ClientEnds;
    if a == ServerActs {
      ServerStepPays(c, s);
    } else if a == ServerAccepts {
      AcceptPays(c, s);
    } else if a == ClientActs {
      ClientStepPays(c, s);
    } else {
      EndPays(c, s);
    }
  }

  lemma ServerStepPays(c: Config, s: State)
    requires Sound(c) && Inv(c, s) && ServerStep(c, s).Some? && Inv(c, ServerStep(c, s).value)
    ensures Rank(c, ServerStep(c, s).value) < Rank(c, s)
  {
    ServerMoves(c, s);
    ServerRecords(c, s);
    hide ServerStep, ServerPhase, ClientPhase, Flight, ServerStreams, ServerScript, ClientScript;
  }

  lemma AcceptStreamServes(c: Config, s: State)
    requires !(c.tcp && c.tos) && !Refused(c, c.serverSockets)
    requires ServerAccept(c, s).Some? && ServerPhase(s.server) == 6
    requires AllAccepted(c, s.server) || |NewStream(c, s.server).streams| == |s.server.streams| + 1
    requires ServerPhase(NewStream(c, s.server)) == 6
    ensures var s' := ServerAccept(c, s).value;
      && s'.client == s.client && ServerPhase(s'.server) == 6
      && if |s'.server.streams| == |s.server.streams| then |s'.backlog| < |s.backlog|
         else |s'.server.streams| == |s.server.streams| + 1 && |s'.backlog| <= |s.backlog|
  {
    assert s.server.state == CREATE_STREAMS;
    hide NewStream;
  }

  lemma AcceptStreamPays(c: Config, s: State)
    requires Sound(c) && Inv(c, s) && ServerAccept(c, s).Some? && Inv(c, ServerAccept(c, s).value)
    requires ServerPhase(s.server) == 6
    ensures Rank(c, ServerAccept(c, s).value) < Rank(c, s)
  {
    if !AllAccepted(c, s.server) {
      NewStreamKeeps(c, s.server);
    }
    NewStreamPhase(c, s.server);
    hide NewStream, ServerAccept, AllAccepted, ServerPhase, ClientPhase, Framed, Informed, Paired, Queued;
    AcceptStreamServes(c, s);
  }

  lemma NewStreamPhase(c: Config, v: Server)
    ensures ServerPhase(NewStream(c, v)) == ServerPhase(v)
  {
  }

  lemma AcceptOtherPays(c: Config, s: State)
    requires Sound(c) && Inv(c, s) && ServerAccept(c, s).Some? && Inv(c, ServerAccept(c, s).value)
    requires ServerPhase(s.server) != 6
    ensures Rank(c, ServerAccept(c, s).value) < Rank(c, s)
  {
    assert s.server.state != CREATE_STREAMS;
    hide NewStream, ClientPhase, Flight, ServerScript, ClientScript, ServerStreams, ClientStreams, Count,
         Framed, Informed, Balanced, Queued;
  }

  lemma AcceptPays(c: Config, s: State)
    requires Sound(c) && Inv(c, s) && ServerAccept(c, s).Some? && Inv(c, ServerAccept(c, s).value)
    ensures Rank(c, ServerAccept(c, s).value) < Rank(c, s)
  {
    hide Inv, ServerAccept, Rank;
    if ServerPhase(s.server) == 6 {
      AcceptStreamPays(c, s);
    } else {
      AcceptOtherPays(c, s);
    }
  }

  lemma ClientStepPays(c: Config, s: State)
    requires Sound(c) && Inv(c, s) && ClientStep(c, s).Some? && Inv(c, ClientStep(c, s).value)
    ensures Rank(c, ClientStep(c, s).value) < Rank(c, s)
  {
    var q := ClientPhase(s.client);
    if q == 8 {
      QuietWhileRunning(c, s);
    }
    ClientMoving(c, s);
    if q == 5 {
      CreatePays(c, s);
    } else if ClientWrites(q) {
      ClientMovesByWrite(c, s);
      hide ClientStep, ServerPhase, ClientPhase, Flight, ServerScript, ClientScript, ClientStreams, ServerStreams;
    } else {
      ClientReadsNext(c, s);
      hide ClientStep, ServerPhase, ClientPhase, Flight, ServerScript, ClientScript, ClientStreams, ServerStreams;
    }
  }

  lemma CreatePays(c: Config, s: State)
    requires Sound(c) && Inv(c, s) && ClientStep(c, s).Some? && Inv(c, ClientStep(c, s).value)
    requires ClientPhase(s.client) == 5
    ensures Rank(c, ClientStep(c, s).value) < Rank(c, s)
  {
    hide ServerPhase, ClientSends, Flight, ServerScript, ClientScript, ServerStreams, SetUpClient,
         ExchangeResultsClient, HandleMessageClient;
  }

  lemma EndPays(c: Config, s: State)
    requires Sound(c) && Inv(c, s) && ClientEnds(s).Some? && Inv(c, ClientEnds(s).value)
    ensures Rank(c, ClientEnds(s).value) < Rank(c, s)
  {
    hide ServerPhase, ClientSends, Flight, ServerScript, ClientScript, ServerStreams;
  }

  // ---------- somebody can always move ----------

  /** A side that is to read what has been written can read it. */
  lemma ServerCanRead(c: Config, s: State)
    requires WellFormed(c) && Framed(c, s) && Informed(c, s)
    requires var p := ServerPhase(s.server);
      0 < p < 16 && !ServerWrites(p) && ServerRead(p) < ClientWrote(ClientPhase(s.client))
    ensures ServerStep(c, s).Some?
  {
    hide Framed, Flight, ClientPhase, ClientScript, ServerScript, ServerRead, ClientWrote, ServerExpects, ServerStep,
         ServerPhase;
    ServerNextRead(c, s);
    ServerExpectsNext(c, ServerPhase(s.server));
    ServerTakes(c, s, ClientScript(c)[ServerRead(ServerPhase(s.server))]);
  }

  /** The server takes what it expects. */
  lemma ServerTakes(c: Config, s: State, x: bytes)
    requires WellFormed(c) && Informed(c, s) && |s.toServer| >= |x|
    requires var p := ServerPhase(s.server); 0 < p < 16 && !ServerWrites(p) && ServerExpects(c, p, x)
    ensures ServerStep(c, s).Some?
  {
    hide FromBigEndian, BigEndian, HandleMessageServer, Refused, OverLimit, Excessive, Relistens, Listen;
  }

  lemma ClientCanRead(c: Config, s: State)
    requires WellFormed(c) && Framed(c, s) && Informed(c, s)
    requires var q := ClientPhase(s.client); ClientReads(q) && ClientRead(q) < ServerWrote(ServerPhase(s.server))
    ensures ClientStep(c, s).Some?
  {
    ClientNextRead(c, s);
    ClientExpectsNext(c, ClientPhase(s.client));
    hide Framed, Flight, ServerPhase, ClientScript, ServerScript, ClientRead, ServerWrote, FromBigEndian, BigEndian,
         HandleMessageClient;
  }

  lemma WritersCanWrite(c: Config, s: State)
    requires WellFormed(c)
    ensures ServerWrites(ServerPhase(s.server)) && ServerPhase(s.server) != 6 ==> ServerStep(c, s).Some?
    ensures ServerPhase(s.server) == 6 && AllAccepted(c, s.server) ==> ServerStep(c, s).Some?
    ensures ClientWrites(ClientPhase(s.client)) ==> ClientStep(c, s).Some?
    ensures s.client.pc.Creating? ==> ClientStep(c, s).Some?
    ensures s.client.pc.AwaitReply? && s.replies > 0 ==> ClientStep(c, s).Some?
    ensures ClientPhase(s.client) == 8 && s.finished ==> ClientEnds(s).Some?
  {
    hide FromBigEndian, BigEndian, HandleMessageServer, HandleMessageClient;
  }

  /** Connections the server waits for are there. */
  lemma ServerCanAccept(c: Config, s: State)
    requires WellFormed(c) && Inv(c, s)
    requires (ServerPhase(s.server) == 0 && ClientPhase(s.client) > 0)
          || (ServerPhase(s.server) == 6 && !AllAccepted(c, s.server) && (s.client.pc.AwaitReply? ==> s.replies == 0)
              && (ClientPhase(s.client) > 5 || s.client.pc.AwaitReply?))
    ensures ServerAccept(c, s).Some?
  {
    hide Flight, ClientScript, ServerScript, ClientSends, NewStream;
  }

  /** No state is stuck before the end. */
  lemma SomebodyMoves(c: Config, s: State)
    requires Sound(c) && Inv(c, s) && s.finished && !(ServerDone(s) && ClientDone(s))
    ensures exists a: Action :: !Environment(a) && Apply(c, s, a).Some?
  {
    var p, q := ServerPhase(s.server), ClientPhase(s.client);
    WritersCanWrite(c, s);
    if 0 < p < 16 && !ServerWrites(p) && ServerRead(p) < ClientWrote(q) {
      ServerCanRead(c, s);
      assert Apply(c, s, ServerActs).Some?;
    } else if ClientReads(q) && ClientRead(q) < ServerWrote(p) {
      ClientCanRead(c, s);
      assert Apply(c, s, ClientActs).Some?;
    } else if ServerStep(c, s).Some? {
      assert Apply(c, s, ServerActs).Some?;
    } else if ClientStep(c, s).Some? {
      assert Apply(c, s, ClientActs).Some?;
    } else if q == 8 {
      assert Apply(c, s, ClientStops).Some?;
    } else {
      OnlyAcceptsLeft(c, s);
      ServerCanAccept(c, s);
      assert Apply(c, s, ServerAccepts).Some?;
    }
  }

  lemma OnlyAcceptsLeft(c: Config, s: State)
    requires Sound(c) && Inv(c, s) && !(ServerDone(s) && ClientDone(s))
    requires var p, q := ServerPhase(s.server), ClientPhase(s.client);
      && !(0 < p < 16 && !ServerWrites(p) && ServerRead(p) < ClientWrote(q))
      && !(ClientReads(q) && ClientRead(q) < ServerWrote(p))
      && (ServerWrites(p) ==> p == 6 && !AllAccepted(c, s.server))
      && !ClientWrites(q) && q != 8 && !s.client.pc.Creating?
      && (s.client.pc.AwaitReply? ==> s.replies == 0)
    ensures (ServerPhase(s.server) == 0 && ClientPhase(s.client) > 0)
         || (ServerPhase(s.server) == 6 && !AllAccepted(c, s.server)
             && (ClientPhase(s.client) > 5 || s.client.pc.AwaitReply?))
  {
    hide Flight, ClientScript, ServerScript, ClientSends, Count;
  }

  // ---------- runs that end ----------

  /** The actions that took a run from state to state. */
  ghost predicate Trace(c: Config, run: seq<State>, actions: seq<Action>)
    requires WellFormed(c)
  {
    && |run| == |actions| + 1
    && forall i :: 0 <= i < |actions| ==> Apply(c, run[i], actions[i]) == Some(run[i + 1])
  }

  function OwnSteps(actions: seq<Action>): nat {
    if actions == [] then 0
    else OwnSteps(actions[..|actions| - 1]) + if Environment(actions[|actions| - 1]) then 0 else 1
  }

  function Arrivals(actions: seq<Action>): nat {
    if actions == [] then 0
    else Arrivals(actions[..|actions| - 1]) + if actions[|actions| - 1] == Arrival then 1 else 0
  }

  lemma EnvironmentCosts(c: Config, s: State, a: Action)
    requires Sound(c) && Inv(c, s) && Environment(a) && Apply(c, s, a).Some? && Inv(c, Apply(c, s, a).value)
    ensures Rank(c, Apply(c, s, a).value) == Rank(c, s) + if a == Arrival then 1 else 0
  {
    hide ServerPhase, ClientPhase, Framed, Informed, Paired, Queued, OverLimit, Excessive;
  }

  /** In every run, the two sides take no more steps of their own than the rank at its start and one
      for every connection from outside. */
  lemma {:induction false} RunsAreShort(c: Config, run: seq<State>, actions: seq<Action>)
    requires Sound(c) && Trace(c, run, actions) && Inv(c, run[0])
    ensures Inv(c, run[|run| - 1])
    ensures OwnSteps(actions) + Rank(c, run[|run| - 1]) <= Rank(c, run[0]) + Arrivals(actions)
    decreases |actions|
  {
    hide Inv, Rank, Apply;
    var n := |actions| - 1;
    if n >= 0 {
      var front, before := run[..n + 1], actions[..n];
      assert forall i :: 0 <= i < n ==> Apply(c, front[i], before[i]) == Some(front[i + 1]);
      RunsAreShort(c, front, before);
      var s, a := run[n], actions[n];
      assert front[n] == s && Apply(c, run[n], actions[n]) == Some(run[n + 1]);
      StepInv(c, s, a);
      if Environment(a) {
        EnvironmentCosts(c, s, a);
      } else {
        RankDecreases(c, s, a);
      }
    }
  }

  /** Once the end condition holds, a run that goes on for as long as either side can move has both
      sides done, each with the other's results, whatever else connects meanwhile. */
  lemma TestsComplete(c: Config, run: seq<State>, actions: seq<Action>)
    requires Sound(c) && Trace(c, run, actions) && run[0] == Initial() && run[|run| - 1].finished
    requires forall a: Action :: !Environment(a) ==> Apply(c, run[|run| - 1], a) == None
    ensures var s := run[|run| - 1];
      ServerDone(s) && ClientDone(s) && s.server.results == c.clientResults && s.client.results == c.serverResults
    ensures OwnSteps(actions) <= Rank(c, Initial()) + Arrivals(actions)
  {
    hide Apply, Inv, ServerDone, ClientDone, Rank;
    InitialInv(c);
    RunsAreShort(c, run, actions);
    var s := run[|run| - 1];
    if !(ServerDone(s) && ClientDone(s)) {
      SomebodyMoves(c, s);
    }
    DoneInformed(c, s);
  }

  lemma DoneInformed(c: Config, s: State)
    requires WellFormed(c) && Inv(c, s) && ServerDone(s) && ClientDone(s)
    ensures s.server.results == c.clientResults && s.client.results == c.serverResults
  {
    assert ServerInformed(c, s.server) && ClientInformed(c, s.client);
    hide Framed, Paired, Queued;
  }

  // ---------- no test starts over the limit ----------

  /** The server has sent TEST_START. */
  predicate Started(v: Server) {
    v.workers || v.pc == SendRunning
  }

  lemma StartsWithin(c: Config, s: State, a: Action)
    requires WellFormed(c) && Apply(c, s, a).Some? && Started(Apply(c, s, a).value.server)
    ensures Started(s.server) || !Excessive(c)
  {
    hide OverLimit, Excessive, BigEndian, FromBigEndian, Refused, ServerStep, ClientStep;
    RequestedIsTotal(c);
    if a == ServerActs {
      ServerStartsWithin(c, s);
    } else if a == ClientActs {
      ClientLeavesServer(c, s);
    }
  }

  lemma ServerStartsWithin(c: Config, s: State)
    requires WellFormed(c) && ServerStep(c, s).Some? && Started(ServerStep(c, s).value.server)
    ensures Started(s.server) || !OverLimit(c)
  {
    hide OverLimit, ServerLoopStep, SetUpServer, ExchangeResultsServer;
    LoopStartsWithin(c, s);
    if ServerStep(c, s) == SetUpServer(c, s) {
      SetUpStarts(c, s);
    } else if ServerStep(c, s) == ExchangeResultsServer(c, s) {
      ExchangeStarts(c, s);
    }
  }

  lemma LoopStartsWithin(c: Config, s: State)
    ensures ServerLoopStep(c, s).Some? && Started(ServerLoopStep(c, s).value.server) ==>
      Started(s.server) || !OverLimit(c)
  {
    hide OverLimit, Relistens, AllAccepted;
  }

  lemma SetUpStarts(c: Config, s: State)
    requires WellFormed(c) && SetUpServer(c, s).Some? && Started(SetUpServer(c, s).value.server)
    ensures Started(s.server)
  {
    hide BigEndian, FromBigEndian, Refused, Relistens;
  }

  lemma ExchangeStarts(c: Config, s: State)
    requires WellFormed(c) && ExchangeResultsServer(c, s).Some? && Started(ExchangeResultsServer(c, s).value.server)
    ensures Started(s.server)
  {
    hide BigEndian, FromBigEndian;
  }

  lemma ClientLeavesServer(c: Config, s: State)
    requires WellFormed(c) && ClientStep(c, s).Some?
    ensures ClientStep(c, s).value.server == s.server
  {
    hide BigEndian, FromBigEndian, Refused;
  }

  /** In whatever run, also of a test that fails later, a server with a limit has sent TEST_START only if
      all streams together ask for no more than that. */
  lemma {:induction false} StartedWithinLimit(c: Config, run: seq<State>, i: nat)
    requires WellFormed(c) && Run(c, run) && i < |run|
    requires c.limit > 0 && Started(run[i].server) && Total(c) * c.rate < 0x1_0000_0000_0000_0000
    ensures Total(c) * c.rate <= c.limit
  {
    hide Apply;
    if i > 0 {
      assert Next(c, run[i - 1], run[i]);
      var a: Action :| Apply(c, run[i - 1], a) == Some(run[i]);
      StartsWithin(c, run[i - 1], a);
      if Started(run[i - 1].server) {
        StartedWithinLimit(c, run, i - 1);
      }
    }
  }

  /** The traffic is measured only while the server's workers run. */
  predicate MeasuredRunning(v: Server) {
    v.exceeded || (v.pc == ServerLoop && v.state == TEST_RUNNING) ==> v.workers
  }

  lemma MeasuredStep(c: Config, s: State, a: Action)
    requires WellFormed(c) && Apply(c, s, a).Some? && MeasuredRunning(s.server)
    ensures MeasuredRunning(Apply(c, s, a).value.server)
  {
    hide ServerStep, ServerAccept, ClientStep;
    if a == ServerActs {
      MeasuredServerStep(c, s);
    } else if a == ServerAccepts {
      MeasuredAccept(c, s);
    } else if a == ClientActs {
      ClientLeavesServer(c, s);
    }
  }

  lemma MeasuredServerStep(c: Config, s: State)
    requires WellFormed(c) && ServerStep(c, s).Some? && MeasuredRunning(s.server)
    ensures MeasuredRunning(ServerStep(c, s).value.server)
  {
    hide OverLimit, BigEndian, FromBigEndian, Refused, Relistens, AllAccepted, MeasuredRunning, ServerLoopStep,
         SetUpServer, ExchangeResultsServer;
    if ServerStep(c, s) == ServerLoopStep(c, s) {
      MeasuredLoop(c, s);
    } else if ServerStep(c, s) == SetUpServer(c, s) {
      MeasuredSetUp(c, s);
    } else {
      MeasuredExchange(c, s);
    }
  }

  lemma MeasuredLoop(c: Config, s: State)
    requires ServerLoopStep(c, s).Some? && MeasuredRunning(s.server)
    ensures MeasuredRunning(ServerLoopStep(c, s).value.server)
  {
    hide OverLimit, Relistens, AllAccepted;
  }

  lemma MeasuredSetUp(c: Config, s: State)
    requires WellFormed(c) && SetUpServer(c, s).Some? && MeasuredRunning(s.server)
    ensures MeasuredRunning(SetUpServer(c, s).value.server)
  {
    hide BigEndian, FromBigEndian, Refused, Relistens, ServerReadsLength, Listen, WellFormed;
    var v := SetUpServer(c, s).value.server;
    if s.server.pc == ReadParamLength {
      assert v.exceeded == s.server.exceeded && v.workers == s.server.workers && v.pc != ServerLoop by {
        LengthReadAs(s, MAX_PARAMS_JSON_STRING);
      }
    } else if s.server.pc.ReadParams? {
      assert v.exceeded == s.server.exceeded && v.workers == s.server.workers && v.pc != ServerLoop by {
        ListensAs(c, s.server.(params := s.toServer[..s.server.pc.n]));
      }
    }
  }

  lemma LengthReadAs(s: State, max: nat)
    ensures ServerReadsLength(s, max).Some? ==>
      var v := ServerReadsLength(s, max).value.server; v == s.server.(pc := v.pc) && v.pc != ServerLoop
  {
    hide FromBigEndian;
  }

  lemma ListensAs(c: Config, v: Server)
    ensures Listen(c, v) == v.(pc := Listen(c, v).pc) && Listen(c, v).pc != ServerLoop
  {
    hide Refused;
  }

  lemma MeasuredExchange(c: Config, s: State)
    requires WellFormed(c) && ExchangeResultsServer(c, s).Some? && MeasuredRunning(s.server)
    ensures MeasuredRunning(ExchangeResultsServer(c, s).value.server)
  {
    hide BigEndian, FromBigEndian;
  }

  lemma MeasuredAccept(c: Config, s: State)
    requires ServerAccept(c, s).Some? && MeasuredRunning(s.server)
    ensures MeasuredRunning(ServerAccept(c, s).value.server)
  {
    hide Refused, AllAccepted;
  }

  /** In whatever run, the limit is found to be exceeded only when the workers were started. */
  lemma {:induction false} ExcessNeedsWorkers(c: Config, run: seq<State>, i: nat)
    requires WellFormed(c) && Run(c, run) && i < |run|
    ensures run[i].server.exceeded ==> run[i].server.workers
    ensures MeasuredRunning(run[i].server)
  {
    hide Apply;
    if i > 0 {
      assert Next(c, run[i - 1], run[i]);
      var a: Action :| Apply(c, run[i - 1], a) == Some(run[i]);
      ExcessNeedsWorkers(c, run, i - 1);
      MeasuredStep(c, run[i - 1], a);
    }
  }

  // ---------- exactly when a test can fail ----------

  ghost predicate Reachable(c: Config, s: State)
    requires WellFormed(c)
  {
    exists run: seq<State> :: Run(c, run) && run[|run| - 1] == s
  }

  lemma ReachNext(c: Config, s: State, a: Action)
    requires WellFormed(c) && Reachable(c, s) && Apply(c, s, a).Some?
    ensures Reachable(c, Apply(c, s, a).value)
  {
    hide Apply;
    var run :| Run(c, run) && run[|run| - 1] == s;
    var s' := Apply(c, s, a).value;
    var more := run + [s'];
    assert Next(c, s, s');
    hide Next;
    forall i | 0 <= i < |more| - 1 ensures Next(c, more[i], more[i + 1]) {
      if i < |run| - 1 {
        assert more[i] == run[i] && more[i + 1] == run[i + 1];
      }
    }
    assert Run(c, more) && more[|more| - 1] == s';
  }

  lemma Connected(c: Config) returns (s: State)
    requires WellFormed(c) && !c.affinity
    ensures Reachable(c, s)
    ensures s == Initial().(
      server := Initial().server.(pc := ReadParamLength, state := PARAM_EXCHANGE, control := true),
      client := Initial().client.(pc := ClientLoop), toClient := [Unsigned(PARAM_EXCHANGE)])
  {
    hide Reachable;
    s := Start(c);
    s := Take(c, s, ClientActs);
    assert [] + c.cookie == c.cookie && [] + [Control] == [Control];
    s := Take(c, s, ServerAccepts);
    s := Take(c, s, ServerActs);
    s := Take(c, s, ServerActs);
  }

  lemma Start(c: Config) returns (s: State)
    requires WellFormed(c)
    ensures Reachable(c, s) && s == Initial()
  {
    s := Initial();
    assert Run(c, [s]) && [s][|[s]| - 1] == s;
  }

  lemma Take(c: Config, s: State, a: Action) returns (s': State)
    requires WellFormed(c) && Reachable(c, s) && Apply(c, s, a).Some?
    ensures Reachable(c, s') && Apply(c, s, a) == Some(s')
  {
    hide Apply;
    s' := Apply(c, s, a).value;
    ReachNext(c, s, a);
  }

  /** A client that is to be bound to a processor and cannot be does not even connect. */
  lemma ClientAffinityFails(c: Config) returns (s: State)
    requires WellFormed(c) && c.affinity
    ensures Reachable(c, s) && s.client.pc == ClientFailed(IEAFFINITY)
  {
    hide Reachable;
    s := Start(c);
    s := Take(c, s, ClientActs);
  }

  /** Every test gets as far as the length of the client's parameters. */
  lemma ParametersAnnounced(c: Config) returns (s: State)
    requires WellFormed(c) && !c.affinity
    ensures Reachable(c, s)
    ensures s == Initial().(
      server := Initial().server.(pc := ReadParamLength, state := PARAM_EXCHANGE, control := true),
      client := Initial().client.(pc := SendParams, state := PARAM_EXCHANGE),
      toServer := BigEndian(|c.params|))
  {
    hide BigEndian, Reachable;
    s := Connected(c);
    s := Take(c, s, ClientActs);
    assert s.client.pc == SendParamLength;
    s := Take(c, s, ClientActs);
    assert [] + BigEndian(|c.params|) == BigEndian(|c.params|);
  }

  /** A client that has written its parameters goes on, unless there are 2^31 bytes of them or more. */
  lemma ParametersSent(c: Config) returns (s: State)
    requires WellFormed(c) && !c.affinity
    ensures Reachable(c, s) && s.toServer == BigEndian(|c.params|) + c.params
    ensures s.client.pc == if |c.params| >= INT_RANGE then ClientFailed(IESENDPARAMS) else ClientLoop
  {
    hide BigEndian, Reachable;
    s := ParametersAnnounced(c);
    s := Take(c, s, ClientActs);
  }

  /** The server refuses parameters of more than 8 KiB. */
  lemma LongParametersFail(c: Config) returns (s: State)
    requires WellFormed(c) && !c.affinity && |c.params| > MAX_PARAMS_JSON_STRING
    ensures Reachable(c, s) && s.server.pc == ServerFailed(IERECVPARAMS)
  {
    s := ParametersAnnounced(c);
    LengthRoundTrip(|c.params|, []);
    assert BigEndian(|c.params|) + [] == BigEndian(|c.params|);
    hide BigEndian, FromBigEndian, Reachable;
    s := Take(c, s, ServerActs);
  }

  /** Parameters that fit are read. */
  lemma ParametersRead(c: Config) returns (s: State)
    requires WellFormed(c) && !c.affinity && |c.params| <= MAX_PARAMS_JSON_STRING
    ensures Reachable(c, s)
    ensures s == Initial().(
      server := Listen(c, Initial().server.(state := PARAM_EXCHANGE, control := true, params := c.params)),
      client := Initial().client.(pc := ClientLoop, state := PARAM_EXCHANGE))
  {
    s := ParametersAnnounced(c);
    LengthRoundTrip(|c.params|, c.params);
    hide BigEndian, FromBigEndian, Reachable, Refused;
    s := Take(c, s, ClientActs);
    s := Take(c, s, ServerActs);
    assert s.toServer == c.params;
    s := Take(c, s, ServerActs);
  }

  /** A server whose listener does not get buffers as large as the window gives up and tells the client
      so. */
  lemma TcpWindowFails(c: Config) returns (s: State)
    requires WellFormed(c) && !c.affinity && |c.params| <= MAX_PARAMS_JSON_STRING
    requires c.tcp && Refused(c, c.serverSockets)
    ensures Reachable(c, s) && s.server.pc == ServerFailed(IESETBUF2)
    ensures s.client.pc == ClientFailed(ServerError(SETBUF2))
  {
    s := ParametersRead(c);
    hide BigEndian, FromBigEndian, Reachable, Refused;
    s := Take(c, s, ServerActs);
    var body := BigEndian(SETBUF2) + BigEndian(0);
    assert s.toClient == [Unsigned(SERVER_ERROR)] + body;
    s := Take(c, s, ClientActs);
    assert s.client.pc == ReadServerError && s.toClient == body;
    LengthRoundTrip(SETBUF2, BigEndian(0));
    s := Take(c, s, ClientActs);
  }

  /** A server that is to be bound to a processor and cannot be gives up when it has asked for streams. */
  lemma ServerAffinityFails(c: Config) returns (s: State)
    requires WellFormed(c) && !c.affinity && |c.params| <= MAX_PARAMS_JSON_STRING
    requires !(c.tcp && Refused(c, c.serverSockets)) && c.serverAffinity
    ensures Reachable(c, s) && s.server.pc == ServerFailed(IEAFFINITY) && s.toClient == [Unsigned(CREATE_STREAMS)]
  {
    s := ParametersRead(c);
    hide Reachable, Refused;
    s := Take(c, s, ServerActs);
  }

  /** The server asks for streams. */
  predicate Admitted(c: Config) {
    && WellFormed(c) && !c.affinity && !c.serverAffinity && |c.params| <= MAX_PARAMS_JSON_STRING
    && !(c.tcp && Refused(c, c.serverSockets))
  }

  /** The two sides when the creation of streams begins, and the server has asked for it. */
  function Asked(c: Config): State {
    Initial().(
      server := Initial().server.(pc := ServerLoop, state := CREATE_STREAMS, control := true, params := c.params),
      client := Initial().client.(pc := ClientLoop, state := PARAM_EXCHANGE),
      toClient := [Unsigned(CREATE_STREAMS)])
  }

  lemma StreamsAskedFor(c: Config)
    requires Admitted(c)
    ensures Reachable(c, Asked(c))
  {
    var s := ParametersRead(c);
    hide Reachable, Refused;
    s := Take(c, s, ServerActs);
    assert s == Asked(c);
  }

  /** A client whose stream socket does not get buffers as large as it needs gives up. */
  lemma ClientWindowFails(c: Config) returns (s: State)
    requires Admitted(c) && Refused(c, c.clientSockets)
    ensures Reachable(c, s) && s.client.pc == ClientFailed(IESETBUF2)
  {
    StreamsAskedFor(c);
    hide Reachable, Refused;
    s := Take(c, Asked(c), ClientActs);
    s := Take(c, s, ClientActs);
  }

  /** So does a server with the socket on which the first datagram arrived; there is no reply to it. */
  lemma UdpWindowFails(c: Config) returns (s: State)
    requires Admitted(c) && !c.tcp && !Refused(c, c.clientSockets) && Refused(c, c.serverSockets)
    ensures Reachable(c, s) && s.server.pc == ServerFailed(IESETBUF2) && s.client.pc == AwaitReply(0)
    ensures s.datagrams == 0 == s.replies
  {
    StreamsAskedFor(c);
    hide Reachable, Refused;
    s := Take(c, Asked(c), ClientActs);
    s := Take(c, s, ClientActs);
    s := Take(c, s, ServerAccepts);
  }

  /** A stranger that connects while TCP streams are being created ends a test that sets a type of
      service: its socket is closed for the wrong cookie, and then an option is set on it. */
  lemma StrangerEndsTest(c: Config) returns (s: State)
    requires Admitted(c) && c.tcp && c.tos
    ensures Reachable(c, s) && s.server.pc == ServerFailed(IESETTOS)
  {
    StreamsAskedFor(c);
    hide Reachable, Refused;
    s := Take(c, Asked(c), Arrival);
    s := Take(c, s, ServerAccepts);
  }

  /** TCP options make the server replace its listener when it has read the parameters, and with it goes
      whoever was waiting there; without them a stranger stays to be served. */
  lemma EarlyStranger(c: Config) returns (s: State)
    requires Admitted(c)
    ensures Reachable(c, s)
    ensures s == Asked(c).(backlog := if c.tcp && (c.relisten || c.window > 0) then [] else [Foreign])
  {
    s := ParametersAnnounced(c);
    LengthRoundTrip(|c.params|, c.params);
    hide BigEndian, FromBigEndian, Reachable, Refused;
    s := Take(c, s, Arrival);
    s := Take(c, s, ClientActs);
    s := Take(c, s, ServerActs);
    assert s.toServer == c.params && s.backlog == [Foreign];
    s := Take(c, s, ServerActs);
    s := Take(c, s, ServerActs);
  }

  // ---------- messages that do not come in a test that goes through ----------

  /** A client that is interrupted while the test runs says so, and the server is done. */
  lemma InterruptedClient(c: Config, s: State)
    requires WellFormed(c) && Inv(c, s) && ServerPhase(s.server) == 8 == ClientPhase(s.client)
    ensures var t := ToServer(s, s.client, [Unsigned(CLIENT_TERMINATE)]);
      Apply(c, t, ServerActs).Some? && ServerDone(Apply(c, t, ServerActs).value)
  {
    assert s.toServer == [];
  }

  /** So does a server, and the client gives up. */
  lemma InterruptedServer(c: Config, s: State)
    requires WellFormed(c) && Inv(c, s) && ServerPhase(s.server) == 8 == ClientPhase(s.client)
    ensures var t := ToClient(s, s.server, [Unsigned(SERVER_TERMINATE)]);
      Apply(c, t, ClientActs).Some? && Apply(c, t, ClientActs).value.client.pc == ClientFailed(IESERVERTERM)
  {
    assert s.toClient == [];
  }

  /** A server that is busy with another test denies a client access, and the client gives up. */
  lemma DeniedClient(c: Config, s: State)
    requires WellFormed(c) && s.client.pc == ClientLoop && s.client.state == 0
    requires s.toClient == [Unsigned(ACCESS_DENIED)]
    ensures Apply(c, s, ClientActs).Some? && Apply(c, s, ClientActs).value.client.pc == ClientFailed(IEACCESSDENIED)
  {
  }

  /** A server without a control connection takes the first connection for it, and gives up when that does
      not send a cookie. */
  lemma StrangerFirst(c: Config, s: State)
    requires WellFormed(c) && s.server == Initial().server && s.backlog != []
    ensures Apply(c, s, ServerAccepts).Some?
    ensures Apply(c, s, ServerAccepts).value.server.pc ==
      if s.backlog[0] == Control then ReadCookie else ServerFailed(IERECVCOOKIE)
  {
  }

  /** A byte that is no message for it ends the test on the server, and no other does at once, */
  lemma StrangeMessageEndsServer(c: Config, s: State)
    requires WellFormed(c) && s.server.pc == ServerLoop && s.server.control && s.server.state != IPERF_DONE
    requires s.server.state != CREATE_STREAMS && !s.server.exceeded && s.toServer != []
    ensures Apply(c, s, ServerActs).Some?
    ensures var v := Apply(c, s, ServerActs).value.server;
      (v.pc.ServerFailed? ==> v.pc.error == IEMESSAGE)
      && (v.pc.ServerFailed? <==> Signed(s.toServer[0]) !in {TEST_START, TEST_END, IPERF_DONE, CLIENT_TERMINATE})
  {
    assert !(s.server.state == CREATE_STREAMS);
    hide Signed, AllAccepted;
  }

  /** and on the client. */
  lemma StrangeMessageEndsClient(c: Config, s: State)
    requires WellFormed(c) && s.client.pc == ClientLoop && s.client.state != IPERF_DONE && s.toClient != []
    ensures Apply(c, s, ClientActs).Some?
    ensures Apply(c, s, ClientActs).value.client.pc == ClientFailed(IEMESSAGE) <==>
      Signed(s.toClient[0]) !in {PARAM_EXCHANGE, CREATE_STREAMS, TEST_START, TEST_RUNNING, EXCHANGE_RESULTS,
                                 DISPLAY_RESULTS, IPERF_DONE, SERVER_TERMINATE, ACCESS_DENIED, SERVER_ERROR}
  {
    hide Signed;
  }

  // ---------- creating the streams, one after the other ----------

  /** Nothing stands in the way of the streams. */
  predicate Starts(c: Config) {
    WellFormed(c) && |c.params| <= MAX_PARAMS_JSON_STRING && Granted(c)
  }

  function Accepts(c: Config, v: Server, k: nat): Server {
    if k == 0 then v else NewStream(c, Accepts(c, v, k - 1))
  }

  function Roles(c: Config, k: nat): seq<bool> {
    if k == 0 then [] else Roles(c, k - 1) + [ClientSends(c, k - 1)]
  }

  /** k streams are there on both sides. */
  function Created(c: Config, k: nat): State {
    var s := Asked(c);
    s.(server := Accepts(c, s.server, k), toClient := [],
       client := s.client.(pc := Creating(k), state := CREATE_STREAMS, streams := Roles(c, k)))
  }

  lemma {:induction false} AcceptsCount(c: Config, k: nat)
    requires k <= Total(c)
    ensures var v, w := Asked(c).server, Accepts(c, Asked(c).server, k);
      && w == v.(received := w.received, sent := w.sent, streams := w.streams)
      && w.received == (if k < ToReceive(c) then k else ToReceive(c)) && w.sent == k - w.received
  {
    if k > 0 {
      AcceptsCount(c, k - 1);
    }
  }

  /** One more TCP stream: the client connects and the server accepts. */
  lemma OneMoreTcp(c: Config, k: nat)
    requires Starts(c) && c.tcp && k < Total(c) && Reachable(c, Created(c, k))
    ensures Reachable(c, Created(c, k + 1))
  {
    hide Reachable, Accepts, Roles, ClientSends;
    AcceptsCount(c, k);
    var s := Take(c, Created(c, k), ClientActs);
    assert s.backlog == [Own];
    hide NewStream;
    s := Take(c, s, ServerAccepts);
    AcceptsOne(c, k);
    assert s == Created(c, k + 1);
  }

  /** One more UDP stream: the client sends a datagram, and the server accepts and replies. */
  lemma OneMoreUdp(c: Config, k: nat)
    requires Starts(c) && !c.tcp && k < Total(c) && Reachable(c, Created(c, k))
    ensures Reachable(c, Created(c, k + 1))
  {
    hide Reachable, Accepts, Roles, ClientSends;
    AcceptsCount(c, k);
    var s := Take(c, Created(c, k), ClientActs);
    hide NewStream;
    s := Take(c, s, ServerAccepts);
    s := Take(c, s, ClientActs);
    AcceptsOne(c, k);
    assert s == Created(c, k + 1);
  }

  lemma AcceptsOne(c: Config, k: nat)
    ensures Accepts(c, Asked(c).server, k + 1) == NewStream(c, Accepts(c, Asked(c).server, k))
    ensures Roles(c, k + 1) == Roles(c, k) + [ClientSends(c, k)]
  {
  }

  lemma {:induction false} CreatedReached(c: Config, k: nat)
    requires Starts(c) && k <= Total(c)
    ensures Reachable(c, Created(c, k))
  {
    hide Reachable;
    if k == 0 {
      StreamsAskedFor(c);
      var s := Take(c, Asked(c), ClientActs);
      assert s == Created(c, 0);
    } else {
      CreatedReached(c, k - 1);
      if c.tcp {
        OneMoreTcp(c, k - 1);
      } else {
        OneMoreUdp(c, k - 1);
      }
    }
  }

  /** Every stream is there, and the server is about to start the test. */
  lemma AllCreated(c: Config) returns (s: State)
    requires Starts(c)
    ensures Reachable(c, s) && AllAccepted(c, s.server)
    ensures s.server.pc == ServerLoop && s.server.state == CREATE_STREAMS && s.server.control && !s.server.exceeded
    ensures s.client.pc == ClientLoop && s.client.state == CREATE_STREAMS
    ensures s.toServer == [] == s.toClient && s.backlog == []
  {
    hide Reachable, Accepts, Roles;
    CreatedReached(c, Total(c));
    AcceptsCount(c, Total(c));
    s := Take(c, Created(c, Total(c)), ClientActs);
  }

  /** A server that allows less than is requested gives up when every stream is there. */
  lemma HighRateFails(c: Config) returns (s: State)
    requires Starts(c) && 0 < c.limit < Total(c) * c.rate % 0x1_0000_0000_0000_0000
    ensures Reachable(c, s) && s.server.pc == ServerFailed(IETOTALRATE)
  {
    hide Reachable, OverLimit;
    RequestedIsTotal(c);
    s := AllCreated(c);
    s := Take(c, s, ServerActs);
  }

  /** The same once more when all streams are there. */
  lemma LateStranger(c: Config) returns (s: State)
    requires Starts(c) && !Excessive(c)
    ensures Reachable(c, s) && s.server.pc == SendRunning
    ensures s.backlog == if c.tcp && (c.relisten || c.window > 0) then [] else [Foreign]
  {
    hide Reachable, OverLimit, Excessive;
    RequestedIsTotal(c);
    s := AllCreated(c);
    s := Take(c, s, Arrival);
    s := Take(c, s, ServerActs);
  }

  /** The test runs on both sides. */
  lemma TestRuns(c: Config) returns (s: State)
    requires Starts(c) && !Excessive(c)
    ensures Reachable(c, s)
    ensures s.server.pc == ServerLoop && s.server.state == TEST_RUNNING && s.server.control && !s.server.exceeded
    ensures s.client.pc == ClientLoop && s.client.state == TEST_RUNNING
    ensures s.toServer == [] == s.toClient
  {
    hide Reachable, OverLimit, Excessive;
    RequestedIsTotal(c);
    s := AllCreated(c);
    s := Take(c, s, ServerActs);
    s := Take(c, s, ServerActs);
    assert s.toClient == [Unsigned(TEST_START), Unsigned(TEST_RUNNING)];
    s := Take(c, s, ClientActs);
    s := Take(c, s, ClientActs);
  }

  /** A server that measures more than it allows gives up in the next round of its loop. */
  lemma ExcessFails(c: Config) returns (s: State)
    requires Starts(c) && !Excessive(c) && c.limit > 0 && c.excess
    ensures Reachable(c, s) && s.server.pc == ServerFailed(IETOTALRATE)
  {
    s := TestRuns(c);
    hide Reachable, OverLimit, Excessive;
    s := Take(c, s, ExcessMeasured);
    s := Take(c, s, ServerActs);
  }

  /** Whoever waits, the loop serves nobody once the limit was exceeded, or the test is over; and when all
      streams are there it starts the test, or gives it up, first. */
  lemma NobodyServed(c: Config, s: State)
    requires WellFormed(c) && s.server.pc == ServerLoop
    requires s.server.exceeded || s.server.state == IPERF_DONE
             || (s.server.state == CREATE_STREAMS && |s.server.streams| == Total(c) && ServerStreams(c, s.server))
    ensures Apply(c, s, ServerAccepts) == None
    ensures s.server.state == CREATE_STREAMS && !s.server.exceeded ==>
      && Apply(c, s, ServerActs).Some?
      && Apply(c, s, ServerActs).value.server.pc in {SendRunning, ServerFailed(IETOTALRATE)}
    ensures s.server.exceeded && s.server.state != IPERF_DONE ==>
      Apply(c, s, ServerActs).Some? && Apply(c, s, ServerActs).value.server.pc == ServerFailed(IETOTALRATE)
  {
    hide OverLimit;
  }

  /** The test has ended, and the server has asked for results. */
  lemma ResultsAskedFor(c: Config) returns (s: State)
    requires Starts(c) && !Excessive(c)
    ensures Reachable(c, s)
    ensures s.server.pc == ReadResultLength && s.server.control && !s.server.exceeded
    ensures s.client.pc == ClientLoop && s.client.state == TEST_END
    ensures s.toServer == [] && s.toClient == [Unsigned(EXCHANGE_RESULTS)]
  {
    s := TestRuns(c);
    hide Reachable, OverLimit, Excessive, BigEndian;
    s := Take(c, s, EndConditionMet);
    s := Take(c, s, ClientStops);
    s := Take(c, s, ServerActs);
    s := Take(c, s, ServerActs);
  }

  /** The length of the client's results is on its way. */
  lemma ResultsAnnounced(c: Config) returns (s: State)
    requires Starts(c) && !Excessive(c)
    ensures Reachable(c, s)
    ensures s.server.pc == ReadResultLength && s.server.control && !s.server.exceeded
    ensures s.client.pc == SendOwnResults && s.client.state == EXCHANGE_RESULTS
    ensures s.toServer == BigEndian(|c.clientResults|) && s.toClient == []
  {
    s := ResultsAskedFor(c);
    hide Reachable, OverLimit, Excessive, BigEndian;
    s := Take(c, s, ClientActs);
    assert [] + BigEndian(|c.clientResults|) == BigEndian(|c.clientResults|);
    s := Take(c, s, ClientActs);
  }

  /** What the server makes of the client's results when they are too long: JSON_read has no room for
      2^32 - 1 bytes, and takes the count of 2^31 bytes or more for an error. */
  lemma LongResultsRefused(c: Config, s: State) returns (s': State)
    requires WellFormed(c) && Reachable(c, s) && |c.clientResults| >= INT_RANGE
    requires s.server.pc == ReadResultLength && s.toServer == BigEndian(|c.clientResults|) + c.clientResults
    ensures Reachable(c, s') && s'.server.pc == ServerFailed(IERECVRESULTS) && s'.client == s.client
  {
    hide Reachable, BigEndian, FromBigEndian, ServerLoopStep, SetUpServer, Refused;
    LengthRoundTrip(|c.clientResults|, c.clientResults);
    s' := Take(c, s, ServerActs);
    if |c.clientResults| < LONGEST {
      assert s'.toServer == c.clientResults;
      s' := Take(c, s', ServerActs);
    }
  }

  /** Results of 2^31 bytes or more end the test on both sides: the client takes the count of what it
      has written for an error, and the server that of what it reads, unless it has no room for it. */
  lemma LongResultsFail(c: Config) returns (s: State)
    requires Starts(c) && !Excessive(c) && |c.clientResults| >= INT_RANGE
    ensures Reachable(c, s) && s.client.pc == ClientFailed(IESENDRESULTS) && s.server.pc == ServerFailed(IERECVRESULTS)
  {
    s := ResultsAnnounced(c);
    hide Reachable, OverLimit, Excessive, BigEndian;
    s := Take(c, s, ClientActs);
    s := LongResultsRefused(c, s);
  }

  lemma ResultsRead(c: Config, s: State) returns (s': State)
    requires WellFormed(c) && Reachable(c, s) && |c.clientResults| < INT_RANGE
    requires s.server.pc == ReadResultLength && s.toServer == BigEndian(|c.clientResults|) + c.clientResults
    ensures Reachable(c, s') && s'.server.pc == SendResultLength && s'.client == s.client && s'.toClient == s.toClient
  {
    hide Reachable, BigEndian, FromBigEndian, ServerLoopStep, SetUpServer;
    LengthRoundTrip(|c.clientResults|, c.clientResults);
    s' := Take(c, s, ServerActs);
    assert s'.toServer == c.clientResults;
    s' := Take(c, s', ServerActs);
  }

  /** The server has the client's results, and the length of its own is on its way. */
  lemma ResultsAnswered(c: Config) returns (s: State)
    requires Starts(c) && !Excessive(c) && |c.clientResults| < INT_RANGE
    ensures Reachable(c, s) && s.server.pc == SendResults
    ensures s.client.pc == ReadPeerLength && s.toClient == BigEndian(|c.serverResults|)
  {
    hide Reachable, BigEndian, Excessive, Granted;
    s := ResultsAnnounced(c);
    s := Take(c, s, ClientActs);
    s := ResultsRead(c, s);
    assert [] + BigEndian(|c.serverResults|) == BigEndian(|c.serverResults|);
    s := Take(c, s, ServerActs);
  }

  lemma LongServerResultsRefused(c: Config, s: State) returns (s': State)
    requires WellFormed(c) && Reachable(c, s) && |c.serverResults| >= INT_RANGE
    requires s.client.pc == ReadPeerLength && s.toClient == BigEndian(|c.serverResults|) + c.serverResults
    ensures Reachable(c, s') && s'.client.pc == ClientFailed(IERECVRESULTS) && s'.server == s.server
  {
    hide Reachable, BigEndian, FromBigEndian, SetUpClient, HandleMessageClient, CreateStreams;
    LengthRoundTrip(|c.serverResults|, c.serverResults);
    s' := Take(c, s, ClientActs);
    if |c.serverResults| < LONGEST {
      assert s'.toClient == c.serverResults;
      s' := Take(c, s', ClientActs);
    }
  }

  /** And so do such results of the server's. */
  lemma LongServerResultsFail(c: Config) returns (s: State)
    requires Starts(c) && !Excessive(c) && |c.clientResults| < INT_RANGE && |c.serverResults| >= INT_RANGE
    ensures Reachable(c, s) && s.server.pc == ServerFailed(IESENDRESULTS) && s.client.pc == ClientFailed(IERECVRESULTS)
  {
    s := ResultsAnswered(c);
    hide Reachable, OverLimit, Excessive, BigEndian;
    s := Take(c, s, ServerActs);
    s := LongServerResultsRefused(c, s);
  }

  /** Some side fails in some run. */
  ghost predicate Fails(c: Config)
    requires WellFormed(c)
  {
    exists s: State :: Reachable(c, s) && (s.server.pc.ServerFailed? || s.client.pc.ClientFailed?)
  }

  /** Without what it needs, a test fails before its streams are there, */
  lemma FailsToStart(c: Config)
    requires WellFormed(c) && !Starts(c)
    ensures Fails(c)
  {
    hide Reachable, Refused;
    if c.affinity {
      var s := ClientAffinityFails(c);
    } else if |c.params| > MAX_PARAMS_JSON_STRING {
      var s := LongParametersFail(c);
    } else if c.tcp && Refused(c, c.serverSockets) {
      var s := TcpWindowFails(c);
    } else if c.serverAffinity {
      var s := ServerAffinityFails(c);
    } else if Refused(c, c.clientSockets) {
      var s := ClientWindowFails(c);
    } else {
      var s := UdpWindowFails(c);
    }
  }

  /** or behind that. */
  lemma FailsLater(c: Config)
    requires Starts(c) && !Sound(c)
    ensures Fails(c)
  {
    hide Reachable, Refused;
    if c.tcp && c.tos {
      var s := StrangerEndsTest(c);
    } else if Excessive(c) {
      var s := HighRateFails(c);
    } else if c.limit > 0 && c.excess {
      var s := ExcessFails(c);
    } else if |c.clientResults| >= INT_RANGE {
      var s := LongResultsFail(c);
    } else {
      var s := LongServerResultsFail(c);
    }
  }

  /** A test comes through every run, on both sides, exactly when it is sound. */
  lemma SoundExactly(c: Config)
    requires WellFormed(c)
    ensures Sound(c) <==> !Fails(c)
  {
    hide Reachable, Refused, OverLimit, Excessive;
    if Sound(c) {
      forall s: State | Reachable(c, s) ensures !s.server.pc.ServerFailed? && !s.client.pc.ClientFailed? {
        ReachableIsSafe(c, s);
      }
    } else if Starts(c) {
      FailsLater(c);
    } else {
      FailsToStart(c);
    }
  }

  lemma ReachableIsSafe(c: Config, s: State)
    requires Sound(c) && Reachable(c, s)
    ensures !s.server.pc.ServerFailed? && !s.client.pc.ClientFailed?
  {
    var run :| Run(c, run) && run[|run| - 1] == s;
    RunsAreSafe(c, run, |run| - 1);
  }
}
