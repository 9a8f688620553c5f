/** The control channel is never mis-framed: an invariant of every run of the protocol, and what it
    says about streams, workers and the end of the test. */
module ProtocolSafety {
  import opened Bytes
  import opened Protocol

  // ---------- who writes what, in which order ----------

  /** Everything the server ever writes to the control connection, write by write. */
  function ServerScript(c: Config): (r: seq<bytes>)
    requires WellFormed(c)
    ensures |r| == 8
  {
    [[Unsigned(PARAM_EXCHANGE)], [Unsigned(CREATE_STREAMS)], [Unsigned(TEST_START)], [Unsigned(TEST_RUNNING)],
     [Unsigned(EXCHANGE_RESULTS)], BigEndian(|c.serverResults|), c.serverResults, [Unsigned(DISPLAY_RESULTS)]]
  }

  /** Everything the client ever writes to it. */
  function ClientScript(c: Config): (r: seq<bytes>)
    requires WellFormed(c)
    ensures |r| == 7
  {
    [c.cookie, BigEndian(|c.params|), c.params, [Unsigned(TEST_END)], BigEndian(|c.clientResults|), c.clientResults,
     [Unsigned(IPERF_DONE)]]
  }

  function Flat(chunks: seq<bytes>): bytes {
    if chunks == [] then [] else chunks[0] + Flat(chunks[1..])
  }

  /** The bytes of the writes from a up to b. */
  function Flight(script: seq<bytes>, a: nat, b: nat): (r: bytes)
    requires a <= b <= |script|
    ensures a == b ==> r == []
  {
    Flat(script[a..b])
  }

  lemma {:induction false} FlatAppend(chunks: seq<bytes>, x: bytes)
    ensures Flat(chunks + [x]) == Flat(chunks) + x
  {
    if chunks == [] {
      assert [x] == [x] + [] && Flat([x]) == x + [];
    } else {
      FlatAppend(chunks[1..], x);
      assert (chunks + [x])[1..] == chunks[1..] + [x];
    }
  }

  /** One more write. */
  lemma Written(script: seq<bytes>, a: nat, b: nat)
    requires a <= b < |script|
    ensures Flight(script, a, b + 1) == Flight(script, a, b) + script[b]
  {
    assert script[a..b + 1] == script[a..b] + [script[b]];
    FlatAppend(script[a..b], script[b]);
  }

  /** A read of exactly one write's length gets exactly that write. */
  lemma ReadWhole(script: seq<bytes>, a: nat, b: nat)
    requires a < b <= |script|
    ensures var t, n := Flight(script, a, b), |script[a]|;
      |t| >= n && t[..n] == script[a] && t[n..] == Flight(script, a + 1, b) && (n > 0 ==> t[0] == script[a][0])
  {
    assert script[a..b][1..] == script[a + 1..b];
  }

  // ---------- how far each side is ----------

  /** The server's position in its part of the conversation; 99 is nowhere. */
  function ServerPhase(v: Server): nat {
    match v.pc
    case ServerLoop =>
      if !v.control then (if v.state == IPERF_START then 0 else 99)
      else if v.state == CREATE_STREAMS then 6
      else if v.state == TEST_RUNNING then 8
      else if v.state == DISPLAY_RESULTS then 15
      else if v.state == IPERF_DONE then 16
      else 99
    case ReadCookie => 1
    case SendParamExchange => 2
    case ReadParamLength => 3
    case ReadParams(_) => 4
    case SendCreateStreams => 5
    case SendRunning => 7
    case SendExchange => 9
    case ReadResultLength => 10
    case ReadResults(_) => 11
    case SendResultLength => 12
    case SendResults => 13
    case SendDisplay => 14
    case SendServerError => 99
    case ServerFailed(_) => 99
  }

  function ClientPhase(k: Client): nat {
    match k.pc
    case Unconnected => if k.state == 0 then 0 else 99
    case ClientLoop =>
      if k.state == 0 then 1
      else if k.state == PARAM_EXCHANGE then 4
      else if k.state == CREATE_STREAMS then 6
      else if k.state == TEST_START then 7
      else if k.state == TEST_RUNNING then 8
      else if k.state == TEST_END then 9
      else if k.state == EXCHANGE_RESULTS then 14
      else if k.state == IPERF_DONE then 16
      else 99
    case SendParamLength => if k.state == PARAM_EXCHANGE then 2 else 99
    case SendParams => if k.state == PARAM_EXCHANGE then 3 else 99
    case Creating(_) => if k.state == CREATE_STREAMS then 5 else 99
    case AwaitReply(_) => if k.state == CREATE_STREAMS then 5 else 99
    case SendOwnLength => if k.state == EXCHANGE_RESULTS then 10 else 99
    case SendOwnResults => if k.state == EXCHANGE_RESULTS then 11 else 99
    case ReadPeerLength => if k.state == EXCHANGE_RESULTS then 12 else 99
    case ReadPeerResults(_) => if k.state == EXCHANGE_RESULTS then 13 else 99
    case ReadServerError => 99
    case ClientFailed(_) => 99
  }

  /** How many of its writes a side has done at each phase, and how many of the other side's it has read. */
  function ServerWrote(p: nat): (n: nat)
    ensures n <= 8
  {
    if p <= 2 then 0 else if p <= 5 then 1 else if p == 6 then 2 else if p == 7 then 3 else if p <= 9 then 4
    else if p <= 12 then 5 else if p == 13 then 6 else if p == 14 then 7 else 8
  }

  function ServerRead(p: nat): (n: nat)
    ensures n <= 7
  {
    if p <= 1 then 0 else if p <= 3 then 1 else if p == 4 then 2 else if p <= 8 then 3 else if p <= 10 then 4
    else if p == 11 then 5 else if p <= 15 then 6 else 7
  }

  function ClientWrote(p: nat): (n: nat)
    ensures n <= 7
  {
    if p == 0 then 0 else if p <= 2 then 1 else if p == 3 then 2 else if p <= 8 then 3 else if p <= 10 then 4
    else if p == 11 then 5 else if p <= 15 then 6 else 7
  }

  function ClientRead(p: nat): (n: nat)
    ensures n <= 8
  {
    if p <= 1 then 0 else if p <= 4 then 1 else if p <= 6 then 2 else if p == 7 then 3 else if p <= 9 then 4
    else if p <= 12 then 5 else if p == 13 then 6 else if p == 14 then 7 else 8
  }

  // ---------- the invariant ----------

  /** The channels hold exactly the writes that are not read yet. */
  ghost predicate Framed(c: Config, s: State)
    requires WellFormed(c)
  {
    var p, q := ServerPhase(s.server), ClientPhase(s.client);
    && p <= 16 && q <= 16
    && ClientRead(q) <= ServerWrote(p) && ServerRead(p) <= ClientWrote(q)
    && s.toClient == Flight(ServerScript(c), ClientRead(q), ServerWrote(p))
    && s.toServer == Flight(ClientScript(c), ServerRead(p), ClientWrote(q))
  }

  /** What the server knows of the client's frames. */
  ghost predicate ServerInformed(c: Config, v: Server) {
    var p := ServerPhase(v);
    && (v.control <==> p > 0)
    && (v.pc.ReadParams? ==> v.pc.n == |c.params|)
    && (v.pc.ReadResults? ==> v.pc.n == |c.clientResults|)
    && (p >= 5 ==> v.params == c.params)
    && (p >= 12 ==> v.results == c.clientResults)
    && (v.workers <==> p >= 8)
    && !v.exceeded
  }

  /** What the client knows of the server's, and that it starts and ends the test once. */
  ghost predicate ClientInformed(c: Config, k: Client) {
    var q := ClientPhase(k);
    && (k.pc.ReadPeerResults? ==> k.pc.n == |c.serverResults|)
    && (q >= 14 ==> k.results == c.serverResults)
    && k.ends == (if q >= 9 then 1 else 0)
    && (k.startup <==> q < 8)
  }

  ghost predicate Informed(c: Config, s: State) {
    ServerInformed(c, s.server) && ClientInformed(c, s.client)
  }

  function Count(backlog: seq<Conn>, x: Conn): nat {
    if backlog == [] then 0 else (if backlog[0] == x then 1 else 0) + Count(backlog[1..], x)
  }

  /** The server's streams have, in order, the roles opposite to the client's. */
  ghost predicate ServerStreams(c: Config, v: Server) {
    && v.received <= ToReceive(c) && v.sent <= ToSend(c) && (v.sent > 0 ==> v.received == ToReceive(c))
    && |v.streams| == v.received + v.sent
    && (forall i :: 0 <= i < |v.streams| ==> v.streams[i] == !ClientSends(c, i))
    && (ServerPhase(v) < 6 ==> v.streams == []) && (ServerPhase(v) > 6 ==> |v.streams| == Total(c))
  }

  ghost predicate ClientStreams(c: Config, k: Client) {
    && |k.streams| <= Total(c)
    && (forall i :: 0 <= i < |k.streams| ==> k.streams[i] == ClientSends(c, i))
    && (ClientPhase(k) < 5 ==> k.streams == []) && (ClientPhase(k) > 5 ==> |k.streams| == Total(c))
    && (k.pc.Creating? ==> k.pc.i == |k.streams|)
    && (k.pc.AwaitReply? ==> k.pc.i == |k.streams| < Total(c) && !c.tcp)
  }

  /** Every connection of the test is accounted for: created by the client, and either accepted or
      still on its way. */
  ghost predicate Balanced(c: Config, s: State) {
    var accepted, created, own := |s.server.streams|, |s.client.streams|, Count(s.backlog, Own);
    if c.tcp then accepted + own == created && s.datagrams == 0 == s.replies
    else
      && own == 0 && accepted == created + s.replies
      && s.datagrams + s.replies == if s.client.pc.AwaitReply? then 1 else 0
  }

  ghost predicate Paired(c: Config, s: State) {
    ServerStreams(c, s.server) && ClientStreams(c, s.client) && Balanced(c, s)
  }

  /** The control connection is first in the queue until it is accepted; nobody else is turned away. */
  ghost predicate Queued(s: State) {
    var p, q := ServerPhase(s.server), ClientPhase(s.client);
    && (q == 0 ==> p == 0 && s.backlog == [])
    && (if p == 0 && q > 0 then s.backlog != [] && s.backlog[0] == Control && Count(s.backlog, Control) == 1
        else Count(s.backlog, Control) == 0)
    && !s.turnedAway
  }

  ghost predicate Inv(c: Config, s: State)
    requires WellFormed(c)
  {
    Framed(c, s) && Informed(c, s) && Paired(c, s) && Queued(s)
  }

  /** What a test needs to go through: parameters the server agrees to read, results whose length an
      int can tell, no type of service on TCP streams, buffers as large as asked for on both sides, no
      processor to be bound to, and no more traffic than the server allows, neither requested nor
      measured. */
  predicate Sound(c: Config) {
    && WellFormed(c) && |c.params| <= MAX_PARAMS_JSON_STRING
    && |c.clientResults| < INT_RANGE && |c.serverResults| < INT_RANGE
    && !(c.tcp && c.tos) && Granted(c) && WithinLimit(c)
  }

  /** Both sides get the buffers and processors they ask for. */
  predicate Granted(c: Config) {
    !Refused(c, c.clientSockets) && !Refused(c, c.serverSockets) && !c.affinity && !c.serverAffinity
  }

  predicate WithinLimit(c: Config) {
    !Excessive(c) && (c.limit > 0 ==> !c.excess)
  }

  /** The streams ask for more than the limit, all together and as far as 64 bits can tell. */
  predicate Excessive(c: Config) {
    0 < c.limit < Total(c) * c.rate % 0x1_0000_0000_0000_0000
  }

  lemma RequestedIsTotal(c: Config)
    ensures RequestedRate(c) == Total(c) * c.rate % 0x1_0000_0000_0000_0000
    ensures OverLimit(c) <==> Excessive(c)
  {
    if c.mode == Bidirectional {
      assert Total(c) * c.rate == c.num * c.rate * 2;
    }
  }

  function Least(a: nat, b: nat): nat {
    if a < b then a else b
  }

  /** Buffers are refused exactly when a window is asked for and either comes out smaller; or when, in a UDP
      test that asks for none, either was smaller than a block at first, and then either comes out smaller
      than a block and 1024 bytes. */
  lemma RefusedExactly(c: Config, k: Sockets)
    ensures Refused(c, k) <==>
      || Least(k.send.granted, k.receive.granted) < c.window
      || (&& c.window == 0 && !c.tcp && Least(k.send.initial, k.receive.initial) < c.blksize
          && Least(k.send.granted, k.receive.granted) < c.blksize + 1024)
  {
  }

  /** turnedAway tells of every connection of the test that was taken off the queue and made no difference
      to the server. */
  lemma TurnedAwayExactly(c: Config, s: State)
    requires ServerAccept(c, s).Some? && s.backlog != [] && (s.server.state == CREATE_STREAMS ==> c.tcp)
    requires s.server.state == CREATE_STREAMS ==> s.backlog[0] != Control
    ensures var s' := ServerAccept(c, s).value;
      s'.turnedAway <==> s.turnedAway || (s.backlog[0] != Foreign && s'.server == s.server)
  {
  }

  lemma InitialInv(c: Config)
    requires WellFormed(c)
    ensures Inv(c, Initial())
  {
  }

  // ---------- every step keeps it ----------

  /** While streams are being created the client does not write, so the server's select loop never
      takes a byte for a state by mistake. */
  lemma QuietWhileCreating(c: Config, s: State)
    requires WellFormed(c) && Framed(c, s) && ServerPhase(s.server) == 6
    ensures s.toServer == []
  {
    hide Flat, ServerScript, ClientScript;
  }

  /** What the server reads next, once the client has written it. */
  lemma ServerNextRead(c: Config, s: State)
    requires WellFormed(c) && Framed(c, s)
    ensures var p, q := ServerPhase(s.server), ClientPhase(s.client);
      var r := ServerRead(p);
      if r < ClientWrote(q) then
        var x := ClientScript(c)[r];
        |s.toServer| >= |x| && s.toServer[..|x|] == x && s.toServer[0] == x[0]
        && s.toServer[|x|..] == Flight(ClientScript(c), r + 1, ClientWrote(q))
      else s.toServer == []
  {
    hide Flat, ServerPhase, ClientPhase, ServerRead, ClientRead, ServerWrote, ClientWrote;
    var r, w := ServerRead(ServerPhase(s.server)), ClientWrote(ClientPhase(s.client));
    if r < w {
      ReadWhole(ClientScript(c), r, w);
    }
  }

  lemma LengthRead(n: nat, t: bytes)
    requires n < 0x1_0000_0000 && |t| >= 4 && t[..4] == BigEndian(n)
    ensures FromBigEndian(t) == n
  {
    LengthRoundTrip(n, t[4..]);
    assert t == BigEndian(n) + t[4..];
  }

  predicate ServerWrites(p: nat) {
    p in {2, 5, 6, 7, 9, 12, 13, 14}
  }

  lemma ServerMovesByWrite(c: Config, s: State)
    requires Sound(c) && !s.server.exceeded
    requires ServerPhase(s.server) <= 16 && s.server.control && ServerWrites(ServerPhase(s.server))
    requires ServerPhase(s.server) == 6 ==> s.toServer == []
    requires ServerStep(c, s).Some?
    ensures var s', p := ServerStep(c, s).value, ServerPhase(s.server);
      && ServerPhase(s'.server) == p + 1 && s'.client == s.client
      && s'.toServer == s.toServer && s'.toClient == s.toClient + ServerScript(c)[ServerWrote(p)]
  {
    hide FromBigEndian, BigEndian, WellFormed, HandleMessageServer, Refused, RequestedRate, Listen, Relistens,
         ServerLoopStep;
    if ServerPhase(s.server) == 6 {
      TestStarts(c, s);
    }
  }

  /** The first of the two messages that start the test. */
  lemma TestStarts(c: Config, s: State)
    requires Sound(c) && !s.server.exceeded && ServerPhase(s.server) == 6 && s.toServer == []
    requires ServerLoopStep(c, s).Some?
    ensures var s' := ServerLoopStep(c, s).value;
      && ServerPhase(s'.server) == 7 && s'.client == s.client
      && s'.toServer == s.toServer && s'.toClient == s.toClient + ServerScript(c)[2]
  {
    hide BigEndian, HandleMessageServer, Refused, OverLimit, Excessive, Relistens, AllAccepted;
    RequestedIsTotal(c);
  }

  /** x is what the server expects to read. */
  predicate ServerExpects(c: Config, p: nat, x: bytes)
    requires WellFormed(c)
  {
    if p == 1 then |x| == COOKIE_SIZE
    else if p == 3 then x == BigEndian(|c.params|)
    else if p == 4 then |x| == |c.params|
    else if p == 8 then x == [TEST_END]
    else if p == 10 then x == BigEndian(|c.clientResults|)
    else if p == 11 then |x| == |c.clientResults|
    else p == 15 && x == [IPERF_DONE]
  }

  lemma ServerExpectsNext(c: Config, p: nat)
    requires WellFormed(c) && 0 < p < 16 && !ServerWrites(p)
    ensures ServerExpects(c, p, ClientScript(c)[ServerRead(p)])
  {
    hide BigEndian;
  }

  lemma MessageRead(c: Config, s: State, x: bytes)
    requires Sound(c) && !s.server.exceeded && (s.server.control <==> ServerPhase(s.server) > 0)
    requires ServerExpects(c, ServerPhase(s.server), x)
    requires |s.toServer| >= |x| > 0 && s.toServer[..|x|] == x && s.toServer[0] == x[0]
    requires ServerStep(c, s).Some?
    requires s.server.pc == ServerLoop
    ensures var s', p := ServerStep(c, s).value, ServerPhase(s.server);
      && ServerPhase(s'.server) == p + 1 && s'.client == s.client
      && s'.toClient == s.toClient && s'.toServer == s.toServer[|x|..]
  {
    hide SetUpServer, ExchangeResultsServer, BigEndian;
  }

  lemma FrameLengthRead(c: Config, s: State, x: bytes)
    requires Sound(c) && !s.server.exceeded && (s.server.control <==> ServerPhase(s.server) > 0)
    requires ServerExpects(c, ServerPhase(s.server), x)
    requires |s.toServer| >= |x| > 0 && s.toServer[..|x|] == x && s.toServer[0] == x[0]
    requires ServerStep(c, s).Some?
    requires s.server.pc == ReadParamLength || s.server.pc == ReadResultLength
    ensures var s', p := ServerStep(c, s).value, ServerPhase(s.server);
      && ServerPhase(s'.server) == p + 1 && s'.client == s.client
      && s'.toClient == s.toClient && s'.toServer == s.toServer[|x|..]
  {
    hide ServerLoopStep;
    LengthRead(if s.server.pc == ReadParamLength then |c.params| else |c.clientResults|, s.toServer);
    hide FromBigEndian, BigEndian;
  }

  lemma ServerMovesByRead(c: Config, s: State, x: bytes)
    requires Sound(c) && !s.server.exceeded && (s.server.control <==> ServerPhase(s.server) > 0)
    requires ServerExpects(c, ServerPhase(s.server), x)
    requires |s.toServer| >= |x| > 0 && s.toServer[..|x|] == x && s.toServer[0] == x[0]
    requires s.server.pc.ReadParams? ==> s.server.pc.n == |c.params|
    requires s.server.pc.ReadResults? ==> s.server.pc.n == |c.clientResults|
    requires ServerStep(c, s).Some?
    ensures var s', p := ServerStep(c, s).value, ServerPhase(s.server);
      && ServerPhase(s'.server) == p + 1 && s'.client == s.client
      && s'.toClient == s.toClient && s'.toServer == s.toServer[|x|..]
  {
    hide BigEndian;
    if s.server.pc == ServerLoop {
      hide ServerStep;
      MessageRead(c, s, x);
    } else if s.server.pc == ReadParamLength || s.server.pc == ReadResultLength {
      hide ServerStep;
      FrameLengthRead(c, s, x);
    } else {
      hide ServerLoopStep, ServerReadsLength;
    }
  }

  /** The server's step takes it to the next phase: it has read its next chunk, or written its next. */
  lemma ServerMoves(c: Config, s: State)
    requires Sound(c) && Framed(c, s) && Informed(c, s) && ServerStep(c, s).Some?
    ensures var s', p := ServerStep(c, s).value, ServerPhase(s.server);
      && ServerPhase(s'.server) == p + 1 && p < 16
      && s'.client == s.client
      && (if ServerWrites(p) then
            s'.toServer == s.toServer && s'.toClient == s.toClient + ServerScript(c)[ServerWrote(p)]
          else
            && ServerRead(p) < ClientWrote(ClientPhase(s.client))
            && s'.toClient == s.toClient
            && s'.toServer == s.toServer[|ClientScript(c)[ServerRead(p)]|..])
  {
    var p := ServerPhase(s.server);
    ServerNextRead(c, s);
    if p == 6 {
      QuietWhileCreating(c, s);
    }
    hide Flight, ServerStep, ServerScript, ClientScript, ServerRead, ServerWrote, ClientWrote;
    if ServerWrites(p) {
      ServerMovesByWrite(c, s);
    } else {
      ServerBlocked(c, s);
      ServerExpectsNext(c, p);
      ServerMovesByRead(c, s, ClientScript(c)[ServerRead(p)]);
    }
  }

  /** The server reads only in a reading phase and only when something is there. */
  lemma ServerBlocked(c: Config, s: State)
    requires WellFormed(c) && !s.server.exceeded
    requires ServerPhase(s.server) <= 16 && (s.server.control <==> ServerPhase(s.server) > 0)
    requires !ServerWrites(ServerPhase(s.server)) && ServerStep(c, s).Some?
    requires s.server.pc.ReadParams? ==> s.server.pc.n > 0
    requires s.server.pc.ReadResults? ==> s.server.pc.n > 0
    ensures 0 < ServerPhase(s.server) < 16 && s.toServer != []
  {
    hide FromBigEndian, BigEndian;
  }

  lemma ServerStepFramed(c: Config, s: State)
    requires Sound(c) && Framed(c, s) && Informed(c, s) && ServerStep(c, s).Some?
    ensures Framed(c, ServerStep(c, s).value)
  {
    var p, q := ServerPhase(s.server), ClientPhase(s.client);
    hide ServerStep, ServerInformed, ClientInformed;
    Moving(c, s);
    ServerMoves(c, s);
    ServerCounts(p);
    hide ServerPhase, ClientPhase, ServerScript, ClientScript, ServerRead, ServerWrote, ClientRead, ClientWrote, Flight;
    if ServerWrites(p) {
      Written(ServerScript(c), ClientRead(q), ServerWrote(p));
    } else {
      ReadWhole(ClientScript(c), ServerRead(p), ClientWrote(q));
    }
  }

  lemma ServerCounts(p: nat)
    requires p < 16
    ensures if ServerWrites(p) then ServerWrote(p + 1) == ServerWrote(p) + 1 && ServerRead(p + 1) == ServerRead(p)
            else if p == 0 then ServerWrote(1) == 0 == ServerRead(1)
            else ServerWrote(p + 1) == ServerWrote(p) && ServerRead(p + 1) == ServerRead(p) + 1
  {
  }

  lemma HandlingKeeps(s: State)
    requires s.toServer != []
    ensures var s' := HandleMessageServer(s);
      && s' == s.(toServer := s.toServer[1..], server := s'.server)
      && s'.server == s.server.(pc := s'.server.pc, state := s'.server.state)
      && (s.server.pc == ServerLoop ==> !s'.server.pc.ReadParams? && !s'.server.pc.ReadResults?)
  {
  }

  /** What else a step of the server changes: its records, its streams never, and the queue only
      when the listener is replaced. */
  ghost predicate Recorded(c: Config, s: State, s': State) {
    var v, p := s.server, ServerPhase(s.server);
    && RecordedBy(v, s'.server, p, s.toServer)
    && s'.backlog == (if (p == 4 || (p == 6 && AllAccepted(c, v))) && Relistens(c) then [] else s.backlog)
    && s'.datagrams == s.datagrams && s'.replies == s.replies
    && s'.turnedAway == s.turnedAway && s'.finished == s.finished
  }

  ghost predicate RecordedBy(v: Server, w: Server, p: nat, t: bytes) {
    && w.control == v.control && w.received == v.received && w.sent == v.sent && w.exceeded == v.exceeded
    && w.streams == v.streams && w.workers == (v.workers || p == 7)
    && w.params == (if p == 4 && v.pc.ReadParams? && |t| >= v.pc.n then t[..v.pc.n] else v.params)
    && w.results == (if p == 11 && v.pc.ReadResults? && |t| >= v.pc.n then t[..v.pc.n] else v.results)
  }

  /** A length read announces the frame that is read next. */
  ghost predicate LengthAnnounced(s: State, s': State) {
    var v, pc := s.server, s'.server.pc;
    pc.ReadParams? || pc.ReadResults? ==>
      && |s.toServer| >= 4 && pc.n == FromBigEndian(s.toServer)
      && v.pc == if pc.ReadParams? then ReadParamLength else ReadResultLength
  }

  lemma {:induction false} LoopRecorded(c: Config, s: State)
    requires !s.server.exceeded && WithinLimit(c) && s.server.pc == ServerLoop
    requires ServerPhase(s.server) <= 16 && ServerLoopStep(c, s).Some?
    ensures Recorded(c, s, ServerLoopStep(c, s).value) && LengthAnnounced(s, ServerLoopStep(c, s).value)
    ensures ServerPhase(s.server) == 6 && s.toServer == [] ==> AllAccepted(c, s.server)
  {
    hide HandleMessageServer, OverLimit, Excessive, FromBigEndian;
    RequestedIsTotal(c);
    if s.toServer != [] {
      HandlingKeeps(s);
    }
  }

  lemma SetUpRecorded(c: Config, s: State)
    requires WellFormed(c) && ServerPhase(s.server) <= 16 && s.server.pc != ServerLoop && SetUpServer(c, s).Some?
    ensures Recorded(c, s, SetUpServer(c, s).value) && LengthAnnounced(s, SetUpServer(c, s).value)
  {
    var p, pc := ServerPhase(s.server), s.server.pc;
    assert (p == 7 <==> pc == SendRunning) && (p == 4 <==> pc.ReadParams?) && p != 6 && p != 11;
    hide WellFormed, FromBigEndian, ServerPhase;
  }

  lemma ExchangeRecorded(c: Config, s: State)
    requires WellFormed(c) && ServerPhase(s.server) <= 16 && ExchangeResultsServer(c, s).Some?
    requires s.server.pc.ReadResults? ==> s.server.pc.n < INT_RANGE
    ensures Recorded(c, s, ExchangeResultsServer(c, s).value) && LengthAnnounced(s, ExchangeResultsServer(c, s).value)
  {
    var p, pc := ServerPhase(s.server), s.server.pc;
    assert p != 7 && p != 4 && p != 6 && (p == 11 <==> pc.ReadResults?);
    hide WellFormed, FromBigEndian, BigEndian, ServerPhase, AllAccepted;
    if pc == ReadResultLength {
      LengthRecorded(s, 0);
      hide ServerReadsLength;
    } else {
      ExchangeMoves(c, s);
      hide ServerReadsLength, ExchangeResultsServer;
    }
  }

  lemma ExchangeMoves(c: Config, s: State)
    requires WellFormed(c) && ExchangeResultsServer(c, s).Some? && s.server.pc != ReadResultLength
    requires s.server.pc.ReadResults? ==> s.server.pc.n < INT_RANGE
    ensures var s', v := ExchangeResultsServer(c, s).value, s.server;
      && s' == s.(server := s'.server, toServer := s'.toServer, toClient := s'.toClient)
      && s'.server == v.(pc := s'.server.pc, state := s'.server.state, results := s'.server.results)
      && (if v.pc.ReadResults? then |s.toServer| >= v.pc.n && s'.server.results == s.toServer[..v.pc.n]
          else s'.server.results == v.results)
      && !s'.server.pc.ReadParams? && !s'.server.pc.ReadResults?
  {
    hide WellFormed, BigEndian, ServerReadsLength;
  }

  lemma LengthRecorded(s: State, max: nat)
    requires ServerReadsLength(s, max).Some? && s.server.pc in {ReadParamLength, ReadResultLength}
    ensures var s' := ServerReadsLength(s, max).value;
      && s'.server == s.server.(pc := s'.server.pc)
      && s' == s.(server := s'.server, toServer := s'.toServer)
      && LengthAnnounced(s, s')
  {
    hide FromBigEndian;
  }

  lemma ServerRecords(c: Config, s: State)
    requires Sound(c) && !s.server.exceeded && ServerPhase(s.server) <= 16 && ServerStep(c, s).Some?
    requires s.server.pc.ReadResults? ==> s.server.pc.n < INT_RANGE
    ensures Recorded(c, s, ServerStep(c, s).value) && LengthAnnounced(s, ServerStep(c, s).value)
    ensures ServerPhase(s.server) == 6 && s.toServer == [] ==> AllAccepted(c, s.server)
  {
    hide ServerLoopStep, SetUpServer, ExchangeResultsServer, Recorded, LengthAnnounced;
    if s.server.pc == ServerLoop {
      LoopRecorded(c, s);
    } else if ExchangeResultsServer(c, s) == ServerStep(c, s) {
      ExchangeRecorded(c, s);
    } else {
      SetUpRecorded(c, s);
    }
  }

  /** The frames the server reads are the client's. */
  lemma ServerFrames(c: Config, s: State)
    requires WellFormed(c) && Framed(c, s) && s.toServer != []
    ensures var p := ServerPhase(s.server);
      && (p == 3 && |s.toServer| >= 4 ==> FromBigEndian(s.toServer) == |c.params|)
      && (p == 4 && |s.toServer| >= |c.params| ==> s.toServer[..|c.params|] == c.params)
      && (p == 10 && |s.toServer| >= 4 ==> FromBigEndian(s.toServer) == |c.clientResults|)
      && (p == 11 && |s.toServer| >= |c.clientResults| ==> s.toServer[..|c.clientResults|] == c.clientResults)
  {
    var p := ServerPhase(s.server);
    ServerNextRead(c, s);
    hide Framed, Flight, ServerPhase, ClientPhase, ClientWrote, BigEndian;
    if p == 3 && |s.toServer| >= 4 {
      LengthRead(|c.params|, s.toServer);
    }
    if p == 10 && |s.toServer| >= 4 {
      LengthRead(|c.clientResults|, s.toServer);
    }
  }

  lemma ServerInformedNext(c: Config, v: Server, w: Server, t: bytes)
    requires ServerInformed(c, v) && 0 < ServerPhase(v) < 16 && ServerPhase(w) == ServerPhase(v) + 1
    requires w.control == v.control && w.exceeded == v.exceeded && w.workers == (v.workers || ServerPhase(v) == 7)
    requires w.params == (if ServerPhase(v) == 4 && |t| >= v.pc.n then t[..v.pc.n] else v.params)
    requires w.results == (if ServerPhase(v) == 11 && |t| >= v.pc.n then t[..v.pc.n] else v.results)
    requires w.pc.ReadParams? ==> w.pc.n == |c.params|
    requires w.pc.ReadResults? ==> w.pc.n == |c.clientResults|
    requires ServerPhase(v) == 4 ==> |t| >= |c.params| && t[..|c.params|] == c.params
    requires ServerPhase(v) == 11 ==> |t| >= |c.clientResults| && t[..|c.clientResults|] == c.clientResults
    ensures ServerInformed(c, w)
  {
  }

  lemma ReadingPhases(v: Server)
    ensures (v.pc == ReadParamLength ==> ServerPhase(v) == 3) && (v.pc == ReadResultLength ==> ServerPhase(v) == 10)
  {
  }

  lemma ServerFramesWhole(c: Config, s: State)
    requires Sound(c) && Framed(c, s) && Informed(c, s) && ServerStep(c, s).Some?
    ensures var w, t, p := ServerStep(c, s).value.server, s.toServer, ServerPhase(s.server);
      && 0 < p < 16
      && (w.pc.ReadParams? ==> w.pc.n == |c.params|)
      && (w.pc.ReadResults? ==> w.pc.n == |c.clientResults|)
      && (p == 4 ==> |t| >= |c.params| && t[..|c.params|] == c.params)
      && (p == 11 ==> |t| >= |c.clientResults| && t[..|c.clientResults|] == c.clientResults)
  {
    hide ServerStep, ServerPhase, Framed, Flight, ClientPhase, ClientWrote, ServerWrote, BigEndian, ServerScript,
         FromBigEndian, ClientInformed, Recorded;
    var p := ServerPhase(s.server);
    Moving(c, s);
    ServerMoves(c, s);
    ServerRecords(c, s);
    ServerNextRead(c, s);
    if s.toServer != [] {
      ServerFrames(c, s);
    }
    if !ServerWrites(p) {
      ServerBlocked(c, s);
    }
    ReadingPhases(s.server);
  }

  lemma ServerStepInformed(c: Config, s: State)
    requires Sound(c) && Framed(c, s) && Informed(c, s) && ServerStep(c, s).Some?
    ensures Informed(c, ServerStep(c, s).value)
  {
    assert !s.server.exceeded && ServerPhase(s.server) <= 16;
    hide ServerStep, ServerPhase, ServerInformed, ClientInformed, Framed;
    ServerMoves(c, s);
    ServerRecords(c, s);
    ServerFramesWhole(c, s);
    ServerInformedNext(c, s.server, ServerStep(c, s).value.server, s.toServer);
  }

  lemma ServerStreamsNext(c: Config, v: Server, w: Server)
    requires ServerStreams(c, v) && 0 < ServerPhase(v) < 16 && ServerPhase(w) == ServerPhase(v) + 1
    requires w.received == v.received && w.sent == v.sent && w.streams == v.streams
    requires ServerPhase(v) == 6 ==> AllAccepted(c, v)
    ensures ServerStreams(c, w)
  {
    hide ServerPhase, ClientSends;
  }

  /** Dropping the queue when the listener is replaced drops no connection of the test. */
  lemma NobodyDropped(c: Config, s: State)
    requires WellFormed(c) && Framed(c, s) && Paired(c, s) && Queued(s)
    requires ServerPhase(s.server) == 4 || (ServerPhase(s.server) == 6 && AllAccepted(c, s.server))
    ensures Count(s.backlog, Own) == 0 == Count(s.backlog, Control)
  {
    hide Flight, ClientScript, ServerScript, Count, ClientSends;
  }

  lemma ServerStepPaired(c: Config, s: State)
    requires Sound(c) && Inv(c, s) && ServerStep(c, s).Some?
    ensures Paired(c, ServerStep(c, s).value) && Queued(ServerStep(c, s).value)
  {
    var p := ServerPhase(s.server);
    ServerMoves(c, s);
    ServerRecords(c, s);
    hide ServerStep, ServerPhase, ClientPhase, ServerStreams, ClientStreams, Framed, AllAccepted;
    if p == 6 {
      QuietWhileCreating(c, s);
    }
    if p == 4 || (p == 6 && AllAccepted(c, s.server)) {
      NobodyDropped(c, s);
    }
    Moving(c, s);
    ServerStreamsNext(c, s.server, ServerStep(c, s).value.server);
  }

  lemma Moving(c: Config, s: State)
    requires Sound(c) && Framed(c, s) && Informed(c, s) && ServerStep(c, s).Some?
    ensures 0 < ServerPhase(s.server) < 16
  {
    var p := ServerPhase(s.server);
    if !ServerWrites(p) {
      ServerBlocked(c, s);
    }
  }

  // ---------- the listener ----------

  lemma NewStreamKeeps(c: Config, v: Server)
    requires ServerStreams(c, v) && !AllAccepted(c, v) && ServerPhase(v) == 6
    ensures var w := NewStream(c, v);
      && ServerStreams(c, w) && |w.streams| == |v.streams| + 1
      && ServerPhase(w) == 6
      && w == v.(received := w.received, sent := w.sent, streams := w.streams)
  {
  }

  lemma AcceptFramed(c: Config, s: State)
    requires Sound(c) && Inv(c, s) && ServerAccept(c, s).Some?
    ensures Framed(c, ServerAccept(c, s).value) && Informed(c, ServerAccept(c, s).value)
  {
    hide Flight, ClientScript, ServerScript, Count;
  }

  /** Outside the creation of streams the queue holds no connection of the test. */
  lemma NobodyWaits(c: Config, s: State)
    requires WellFormed(c) && Framed(c, s) && Paired(c, s) && ServerPhase(s.server) != 6
    ensures Count(s.backlog, Own) == 0
  {
    hide Flight, ClientScript, ServerScript, Count;
  }

  lemma AcceptStreamPaired(c: Config, s: State)
    requires Sound(c) && Inv(c, s) && ServerAccept(c, s).Some? && ServerPhase(s.server) == 6
    ensures Paired(c, ServerAccept(c, s).value) && Queued(ServerAccept(c, s).value)
  {
    assert s.server.state == CREATE_STREAMS && s.server.control;
    NewStreamKeeps(c, s.server);
    hide Framed, Informed, NewStream, ServerPhase, ClientPhase, ServerStreams, ClientStreams;
  }

  lemma AcceptOtherPaired(c: Config, s: State)
    requires Sound(c) && Inv(c, s) && ServerAccept(c, s).Some? && ServerPhase(s.server) != 6
    ensures Paired(c, ServerAccept(c, s).value) && Queued(ServerAccept(c, s).value)
  {
    NobodyWaits(c, s);
    assert s.server.state != CREATE_STREAMS;
    hide Framed, Informed, NewStream, ClientPhase, ClientSends, ClientStreams;
  }

  lemma AcceptPaired(c: Config, s: State)
    requires Sound(c) && Inv(c, s) && ServerAccept(c, s).Some?
    ensures Paired(c, ServerAccept(c, s).value) && Queued(ServerAccept(c, s).value)
  {
    hide Inv, Paired, Queued, ServerAccept;
    if ServerPhase(s.server) == 6 {
      AcceptStreamPaired(c, s);
    } else {
      AcceptOtherPaired(c, s);
    }
  }

  // ---------- the client ----------

  lemma ClientNextRead(c: Config, s: State)
    requires WellFormed(c) && Framed(c, s)
    ensures var r, w := ClientRead(ClientPhase(s.client)), ServerWrote(ServerPhase(s.server));
      if r < w then
        var x := ServerScript(c)[r];
        |s.toClient| >= |x| && s.toClient[..|x|] == x && s.toClient[0] == x[0]
        && s.toClient[|x|..] == Flight(ServerScript(c), r + 1, w)
      else s.toClient == []
  {
    hide Flat, ServerPhase, ClientPhase, ServerRead, ClientRead, ServerWrote, ClientWrote;
    var r, w := ClientRead(ClientPhase(s.client)), ServerWrote(ServerPhase(s.server));
    if r < w {
      ReadWhole(ServerScript(c), r, w);
    }
  }

  /** While the test runs the server does not write, so the client takes no message before it has
      sent TEST_END. */
  lemma QuietWhileRunning(c: Config, s: State)
    requires WellFormed(c) && Framed(c, s) && ClientPhase(s.client) == 8
    ensures s.toClient == []
  {
    hide Flat, ServerScript, ClientScript;
  }

  /** x is what the client expects to read. */
  predicate ClientExpects(c: Config, q: nat, x: bytes)
    requires WellFormed(c)
  {
    if q == 1 then x == [PARAM_EXCHANGE]
    else if q == 4 then x == [CREATE_STREAMS]
    else if q == 6 then x == [TEST_START]
    else if q == 7 then x == [TEST_RUNNING]
    else if q == 9 then x == [EXCHANGE_RESULTS]
    else if q == 12 then x == BigEndian(|c.serverResults|)
    else if q == 13 then x == c.serverResults
    else q == 14 && x == [DISPLAY_RESULTS]
  }

  predicate ClientReads(q: nat) {
    q in {1, 4, 6, 7, 9, 12, 13, 14}
  }

  lemma ClientExpectsNext(c: Config, q: nat)
    requires WellFormed(c) && ClientReads(q)
    ensures ClientExpects(c, q, ServerScript(c)[ClientRead(q)])
  {
    hide BigEndian;
  }

  /** A message takes the client to its next phase; the last one makes it answer and stop. */
  lemma ClientMessage(c: Config, s: State, x: bytes)
    requires WellFormed(c) && s.client.pc == ClientLoop && ClientExpects(c, ClientPhase(s.client), x)
    requires |s.toClient| >= 1 && s.toClient[0] == x[0] && |x| == 1
    ensures var s', q := HandleMessageClient(s), ClientPhase(s.client);
      && s'.server == s.server && s'.toClient == s.toClient[1..]
      && s'.toServer == (if q == 14 then s.toServer + [Unsigned(IPERF_DONE)] else s.toServer)
      && ClientPhase(s'.client) == if q == 14 then 16 else q + 1
  {
    hide BigEndian;
  }

  lemma ClientMessageKeeps(c: Config, s: State, x: bytes)
    requires WellFormed(c) && s.client.pc == ClientLoop && ClientExpects(c, ClientPhase(s.client), x)
    requires |s.toClient| >= 1 && s.toClient[0] == x[0] && |x| == 1
    ensures var s', k, q := HandleMessageClient(s), s.client, ClientPhase(s.client);
      && s'.client == k.(pc := s'.client.pc, state := s'.client.state, startup := k.startup && q != 7)
      && !s'.client.pc.ReadPeerResults? && !s'.client.pc.AwaitReply?
      && (s'.client.pc.Creating? ==> q == 4 && s'.client.pc.i == 0)
      && s'.backlog == s.backlog && s'.datagrams == s.datagrams && s'.replies == s.replies
      && s'.turnedAway == s.turnedAway && s'.finished == s.finished
  {
    hide BigEndian;
  }

  predicate ClientWrites(q: nat) {
    q in {0, 2, 3, 10, 11}
  }

  /** A write, outside the creation of streams. */
  lemma ClientMovesByWrite(c: Config, s: State)
    requires Sound(c) && ClientWrites(ClientPhase(s.client)) && ClientStep(c, s).Some?
    ensures var s', q := ClientStep(c, s).value, ClientPhase(s.client);
      && ClientPhase(s'.client) == q + 1 && s'.server == s.server
      && s'.toClient == s.toClient && s'.toServer == s.toServer + ClientScript(c)[ClientWrote(q)]
      && s'.client == s.client.(pc := s'.client.pc)
      && s'.backlog == (if q == 0 then s.backlog + [Control] else s.backlog)
      && s'.datagrams == s.datagrams && s'.replies == s.replies
      && s'.turnedAway == s.turnedAway && s'.finished == s.finished
      && !s'.client.pc.Creating? && !s'.client.pc.AwaitReply? && !s'.client.pc.ReadPeerResults?
  {
    hide BigEndian, FromBigEndian, HandleMessageClient, CreateStreams, Refused, WithinLimit;
  }

  /** The read of the server's result frame. */
  lemma ClientFrameRead(c: Config, s: State, x: bytes)
    requires Sound(c) && ClientPhase(s.client) in {12, 13} && ClientExpects(c, ClientPhase(s.client), x)
    requires |s.toClient| >= |x| && s.toClient[..|x|] == x && ClientInformed(c, s.client)
    requires ClientStep(c, s).Some?
    ensures var s', q := ClientStep(c, s).value, ClientPhase(s.client);
      && ClientPhase(s'.client) == q + 1 && s'.server == s.server
      && s'.toClient == s.toClient[|x|..] && s'.toServer == s.toServer
      && s'.client == s.client.(pc := s'.client.pc, results := s'.client.results)
      && (q == 12 ==> s'.client.pc == ReadPeerResults(|c.serverResults|))
      && (q == 13 ==> s'.client.pc == ClientLoop && s'.client.results == x)
      && s'.backlog == s.backlog && s'.datagrams == s.datagrams && s'.replies == s.replies
      && s'.turnedAway == s.turnedAway && s'.finished == s.finished
  {
    if ClientPhase(s.client) == 12 {
      LengthRead(|c.serverResults|, s.toClient);
    }
    hide BigEndian, FromBigEndian, HandleMessageClient, CreateStreams, SetUpClient;
  }

  lemma ClientCounts(q: nat)
    requires q < 16
    ensures if ClientWrites(q) || q == 8
            then ClientWrote(q + 1) == ClientWrote(q) + 1 && ClientRead(q + 1) == ClientRead(q)
            else if q == 14 then ClientWrote(16) == ClientWrote(14) + 1 && ClientRead(16) == ClientRead(14) + 1
            else if ClientReads(q) then ClientWrote(q + 1) == ClientWrote(q) && ClientRead(q + 1) == ClientRead(q) + 1
            else q == 5 ==> ClientWrote(6) == ClientWrote(5) && ClientRead(6) == ClientRead(5)
  {
  }

  lemma ClientWriteFramed(c: Config, s: State)
    requires Sound(c) && Framed(c, s) && ClientWrites(ClientPhase(s.client)) && ClientStep(c, s).Some?
    ensures Framed(c, ClientStep(c, s).value)
  {
    var p, q := ServerPhase(s.server), ClientPhase(s.client);
    ClientMovesByWrite(c, s);
    ClientCounts(q);
    hide ClientStep, ServerPhase, ClientPhase, ServerScript, ClientScript, ServerRead, ServerWrote, ClientRead, Flight;
    Written(ClientScript(c), ServerRead(p), ClientWrote(q));
  }

  lemma ClientWriteInv(c: Config, s: State)
    requires Sound(c) && Inv(c, s) && ClientWrites(ClientPhase(s.client)) && ClientStep(c, s).Some?
    ensures Inv(c, ClientStep(c, s).value)
  {
    ClientWriteFramed(c, s);
    ClientMovesByWrite(c, s);
    Appended(s.backlog, Control);
    hide ClientStep, Framed, ServerPhase, ServerInformed, ServerStreams, ClientSends, ClientScript;
    var s' := ClientStep(c, s).value;
  }

  lemma {:induction false} Appended(backlog: seq<Conn>, x: Conn)
    ensures forall y :: Count(backlog + [x], y) == Count(backlog, y) + if y == x then 1 else 0
  {
    if backlog != [] {
      Appended(backlog[1..], x);
      assert (backlog + [x])[1..] == backlog[1..] + [x];
    }
  }

  /** What a reading step of the client leads to, whatever it reads. */
  ghost predicate ClientReadDone(c: Config, s: State, s': State, x: bytes)
    requires WellFormed(c)
  {
    var k, k', q := s.client, s'.client, ClientPhase(s.client);
    && |x| <= |s.toClient|
    && s'.server == s.server && s'.toClient == s.toClient[|x|..]
    && s'.toServer == (if q == 14 then s.toServer + ClientScript(c)[6] else s.toServer)
    && ClientPhase(k') == (if q == 14 then 16 else q + 1)
    && k'.streams == k.streams && k'.ends == k.ends && k'.startup == (k.startup && q != 7)
    && k'.results == (if q == 13 then c.serverResults else k.results)
    && (k'.pc.ReadPeerResults? ==> k'.pc.n == |c.serverResults|) && !k'.pc.AwaitReply?
    && (k'.pc.Creating? ==> q == 4 && k'.pc.i == 0)
    && s'.backlog == s.backlog && s'.datagrams == s.datagrams && s'.replies == s.replies
    && s'.turnedAway == s.turnedAway && s'.finished == s.finished
  }

  lemma ClientReadsNext(c: Config, s: State)
    requires Sound(c) && Framed(c, s) && ClientInformed(c, s.client)
    requires ClientReads(ClientPhase(s.client)) && ClientStep(c, s).Some?
    ensures ClientRead(ClientPhase(s.client)) < ServerWrote(ServerPhase(s.server))
    ensures ClientReadDone(c, s, ClientStep(c, s).value, ServerScript(c)[ClientRead(ClientPhase(s.client))])
  {
    var q := ClientPhase(s.client);
    var x := ServerScript(c)[ClientRead(q)];
    ClientExpectsNext(c, q);
    ClientNextRead(c, s);
    ClientWaits(c, s);
    if q == 12 || q == 13 {
      ClientFrameRead(c, s, x);
      ClientFrameKeeps(c, s);
    } else {
      ClientMessage(c, s, x);
      ClientMessageKeeps(c, s, x);
    }
    hide Framed, Flight, ServerPhase, ServerScript, ServerWrote, HandleMessageClient, CreateStreams, SetUpClient,
         ExchangeResultsClient, ClientRead, BigEndian;
  }

  lemma ClientFrameKeeps(c: Config, s: State)
    requires WellFormed(c) && ClientPhase(s.client) in {12, 13} && ClientStep(c, s).Some?
    ensures ClientStep(c, s).value.client.pc != ClientLoop ==> ClientStep(c, s).value.client.results == s.client.results
  {
    hide BigEndian, FromBigEndian, HandleMessageClient, CreateStreams, SetUpClient;
  }

  /** A reading step needs something to read. */
  lemma ClientWaits(c: Config, s: State)
    requires WellFormed(c) && ClientInformed(c, s.client)
    requires ClientReads(ClientPhase(s.client)) && ClientStep(c, s).Some?
    ensures s.toClient != []
  {
    hide BigEndian, FromBigEndian, HandleMessageClient, CreateStreams, SetUpClient;
  }

  lemma ClientReadFramed(c: Config, s: State)
    requires Sound(c) && Framed(c, s) && ClientInformed(c, s.client)
    requires ClientReads(ClientPhase(s.client)) && ClientStep(c, s).Some?
    ensures Framed(c, ClientStep(c, s).value)
  {
    var p, q := ServerPhase(s.server), ClientPhase(s.client);
    ClientReadsNext(c, s);
    ClientCounts(q);
    hide ClientStep, ServerPhase, ClientPhase, ServerScript, ClientScript, ServerRead, ServerWrote, ClientRead, Flight;
    ReadWhole(ServerScript(c), ClientRead(q), ServerWrote(p));
    if q == 14 {
      Written(ClientScript(c), ServerRead(p), ClientWrote(q));
    }
  }

  lemma ClientReadInv(c: Config, s: State)
    requires Sound(c) && Inv(c, s) && ClientReads(ClientPhase(s.client)) && ClientStep(c, s).Some?
    ensures Inv(c, ClientStep(c, s).value)
  {
    hide ClientStep, ClientReadDone;
    ClientReadFramed(c, s);
    ClientReadsNext(c, s);
    ClientReadKeeps(c, s, ClientStep(c, s).value, ServerScript(c)[ClientRead(ClientPhase(s.client))]);
  }

  lemma ClientReadKeeps(c: Config, s: State, s': State, x: bytes)
    requires WellFormed(c) && Inv(c, s) && ClientReads(ClientPhase(s.client)) && ClientReadDone(c, s, s', x)
    ensures Informed(c, s') && Paired(c, s') && Queued(s')
  {
    hide Framed, ServerPhase, ServerInformed, ServerStreams, ClientSends, ClientScript, ServerScript, Count;
  }

  /** The creation of streams. */
  lemma CreateInv(c: Config, s: State)
    requires Sound(c) && Inv(c, s) && ClientPhase(s.client) == 5 && ClientStep(c, s).Some?
    ensures Inv(c, ClientStep(c, s).value)
  {
    Appended(s.backlog, Own);
    hide ServerPhase, ServerInformed, ServerStreams, ClientSends, ClientScript, ServerScript, Flight, Count,
         SetUpClient, ExchangeResultsClient, HandleMessageClient, Refused, WithinLimit;
  }

  lemma ClientEndInv(c: Config, s: State)
    requires WellFormed(c) && Inv(c, s) && ClientEnds(s).Some?
    ensures Inv(c, ClientEnds(s).value)
  {
    var p := ServerPhase(s.server);
    Written(ClientScript(c), ServerRead(p), 3);
    hide ServerPhase, ServerInformed, ServerStreams, ClientSends, ServerScript, Flight, Count;
  }

  lemma ClientStepInv(c: Config, s: State)
    requires Sound(c) && Inv(c, s) && ClientStep(c, s).Some?
    ensures Inv(c, ClientStep(c, s).value)
  {
    var q := ClientPhase(s.client);
    if q == 8 {
      QuietWhileRunning(c, s);
    }
    ClientMoving(c, s);
    hide Inv, ClientStep, ClientPhase;
    if q == 5 {
      CreateInv(c, s);
    } else if ClientWrites(q) {
      ClientWriteInv(c, s);
    } else {
      ClientReadInv(c, s);
    }
  }

  lemma ClientMoving(c: Config, s: State)
    requires WellFormed(c) && ClientPhase(s.client) <= 16 && ClientStep(c, s).Some?
    requires ClientPhase(s.client) == 8 ==> s.toClient == []
    ensures var q := ClientPhase(s.client); q == 5 || ClientWrites(q) || ClientReads(q)
  {
    hide BigEndian, FromBigEndian, HandleMessageClient;
  }

  // ---------- every run ----------

  /** One step of either side, or of the environment. */
  ghost predicate Next(c: Config, s: State, s': State)
    requires WellFormed(c)
  {
    exists a: Action :: Apply(c, s, a) == Some(s')
  }

  ghost predicate Run(c: Config, run: seq<State>)
    requires WellFormed(c)
  {
    && run != [] && run[0] == Initial()
    && forall i :: 0 <= i < |run| - 1 ==> Next(c, run[i], run[i + 1])
  }

  lemma EnvironmentInv(c: Config, s: State, a: Action)
    requires Sound(c) && Inv(c, s) && Environment(a) && Apply(c, s, a).Some?
    ensures Inv(c, Apply(c, s, a).value)
  {
    Appended(s.backlog, Foreign);
    hide ServerPhase, ServerInformed, ServerStreams, ClientStreams, ClientScript, ServerScript, Flight, Count,
         ServerStep, ServerAccept, ClientStep, ClientEnds;
  }

  lemma StepInv(c: Config, s: State, a: Action)
    requires Sound(c) && Inv(c, s) && Apply(c, s, a).Some?
    ensures Inv(c, Apply(c, s, a).value)
  {
    hide Framed, Informed, Paired, Queued, ServerStep, ServerAccept, ClientStep, ClientEnds;
    if a == ServerActs {
      ServerStepFramed(c, s);
      ServerStepInformed(c, s);
      ServerStepPaired(c, s);
    } else if a == ServerAccepts {
      AcceptFramed(c, s);
      AcceptPaired(c, s);
    } else if a == ClientActs {
      ClientStepInv(c, s);
    } else if a == ClientStops {
      ClientEndInv(c, s);
    } else {
      EnvironmentInv(c, s, a);
    }
  }

  lemma {:induction false} RunInv(c: Config, run: seq<State>, i: nat)
    requires Sound(c) && Run(c, run) && i < |run|
    ensures Inv(c, run[i])
  {
    hide Inv;
    if i == 0 {
      InitialInv(c);
    } else {
      RunInv(c, run, i - 1);
      var a: Action :| Apply(c, run[i - 1], a) == Some(run[i]);
      StepInv(c, run[i - 1], a);
    }
  }

  /** What holds in every state of every run, whatever else connects and whenever the test ends:
      neither side fails, so no byte is taken for a message that is not one and every frame read is
      a whole one; the client sends TEST_END at most once; no client worker starts before the server
      has accepted every stream; no connection of the test is turned away; the i-th streams of the
      two sides are a sender and a receiver; and what is read of the other side's frames is what it
      wrote. */
  lemma RunsAreSafe(c: Config, run: seq<State>, i: nat)
    requires Sound(c) && Run(c, run) && i < |run|
    ensures var s := run[i];
      && !s.server.pc.ServerFailed? && !s.client.pc.ClientFailed?
      && s.client.ends <= 1
      && (!s.client.startup ==> |s.server.streams| == Total(c) == |s.client.streams|)
      && !s.turnedAway
      && (forall k :: 0 <= k < |s.server.streams| && k < |s.client.streams| ==>
            s.server.streams[k] != s.client.streams[k])
      && (ServerDone(s) ==> s.server.params == c.params && s.server.results == c.clientResults)
      && (ClientDone(s) ==> s.client.results == c.serverResults)
  {
    RunInv(c, run, i);
    hide Next, Run, Flight, ClientScript, ServerScript, Count, ClientSends;
    assert Framed(c, run[i]);
  }
}
