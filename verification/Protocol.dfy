/** The control connection: client and server as one transition system over two byte channels, the
    queue of connections at the server's listener and the UDP handshake. */
module Protocol {
  import opened Bytes

  // ---------- the constants of the control channel ----------

  const TEST_START := 1
  const TEST_RUNNING := 2
  const TEST_END := 4
  const PARAM_EXCHANGE := 9
  const CREATE_STREAMS := 10
  const SERVER_TERMINATE := 11
  const CLIENT_TERMINATE := 12
  const EXCHANGE_RESULTS := 13
  const DISPLAY_RESULTS := 14
  const IPERF_START := 15
  const IPERF_DONE := 16
  const ACCESS_DENIED := -1
  const SERVER_ERROR := -2

  const COOKIE_SIZE: nat := 37
  const MAX_PARAMS_JSON_STRING: nat := 8 * 1024
  const UDP_BUFFER_EXTRA: nat := 1024

  /** The number of the error IESETBUF2. */
  const SETBUF2: nat := 141

  /** The length of a frame for whose text JSON_read has no room to allocate: one byte more is 0. */
  const LONGEST: nat := 0xFFFF_FFFF

  /** Nread and Nwrite return their count as an int: from here on it is negative, and their callers
      take it for an error. */
  const INT_RANGE: nat := 0x8000_0000

  /** A state is sent as one signed char. */
  function Signed(b: byte): int {
    if b < 128 then b else b - 256
  }

  function Unsigned(state: int): byte
    requires -128 <= state < 128
  {
    if state < 0 then state + 256 else state
  }

  /** A 32-bit length in network byte order. */
  function BigEndian(n: nat): (r: bytes)
    requires n < 0x1_0000_0000
    ensures |r| == 4
  {
    [n / 0x100_0000, n / 0x1_0000 % 256, n / 256 % 256, n % 256]
  }

  function FromBigEndian(s: bytes): (n: nat)
    requires |s| >= 4
    ensures n < 0x1_0000_0000
  {
    var a: int, b: int, c: int, d: int := s[0], s[1], s[2], s[3];
    a * 0x100_0000 + b * 0x1_0000 + c * 256 + d
  }

  lemma LengthRoundTrip(n: nat, rest: bytes)
    requires n < 0x1_0000_0000
    ensures FromBigEndian(BigEndian(n) + rest) == n
  {
    var s := BigEndian(n) + rest;
    assert s[0] == n / 0x100_0000 && s[1] == n / 0x1_0000 % 256 && s[2] == n / 256 % 256 && s[3] == n % 256;
    assert n / 256 == n / 0x1_0000 * 256 + n / 256 % 256;
    assert n / 0x1_0000 == n / 0x100_0000 * 256 + n / 0x1_0000 % 256;
  }

  // ---------- what is fixed for one test ----------

  datatype Mode = Sender | Receiver | Bidirectional

  /** The size of a socket's buffer, in one direction: at first, and once another was asked for. */
  datatype Buffer = Buffer(initial: nat, granted: nat)

  /** What one side's kernel does with the buffers of stream sockets. */
  datatype Sockets = Sockets(send: Buffer, receive: Buffer)

  /** One test as the parameter exchange settles it. mode is the client's; tos says whether a type
      of service is to be set on stream sockets, relisten whether there is no delay or a segment size
      to be set. window is the buffer size to be set, with 0 for none, and blksize the block size.
      rate is what the client asks for on each stream, limit what the server allows in total, with 0
      for no limit, and excess whether its callbacks ever measure more than that. affinity and
      serverAffinity say that a side is to be bound to a processor, and was built without the means.
      The frames are the JSON texts the two sides exchange. */
  datatype Config = Config(
    mode: Mode, num: nat, tcp: bool, tos: bool, relisten: bool, window: nat, blksize: nat,
    rate: nat, limit: nat, excess: bool, affinity: bool, serverAffinity: bool,
    clientSockets: Sockets, serverSockets: Sockets,
    cookie: bytes, params: bytes, clientResults: bytes, serverResults: bytes)

  predicate IsFrame(t: bytes) {
    0 < |t| < 0x1_0000_0000
  }

  predicate WellFormed(c: Config) {
    c.num > 0 && |c.cookie| == COOKIE_SIZE && IsFrame(c.params) && IsFrame(c.clientResults) && IsFrame(c.serverResults)
  }

  function Total(c: Config): nat {
    if c.mode == Bidirectional then 2 * c.num else c.num
  }

  /** The total rate the client requests, in 64 bits. */
  function RequestedRate(c: Config): nat {
    c.num * c.rate * (if c.mode == Bidirectional then 2 else 1) % 0x1_0000_0000_0000_0000
  }

  predicate OverLimit(c: Config) {
    c.limit > 0 && RequestedRate(c) > c.limit
  }

  /** Whether the kernel's buffers come out smaller than the size asked for. */
  predicate Short(k: Sockets, size: nat) {
    size > k.send.granted || size > k.receive.granted
  }

  /** Whether the checks of the buffer sizes on one side end the test: they want the window, or in a UDP
      test without one, room for a block when the buffers are smaller than that. */
  predicate Refused(c: Config, k: Sockets) {
    if c.window > 0 then Short(k, c.window)
    else !c.tcp && (c.blksize > k.send.initial || c.blksize > k.receive.initial)
         && Short(k, c.blksize + UDP_BUFFER_EXTRA)
  }

  /** Whether TCP options, the window among them, make the server replace its listener. */
  predicate Relistens(c: Config) {
    c.tcp && (c.relisten || c.window > 0)
  }

  /** Whether the client sends on its i-th stream: in bidirectional tests the senders come first. */
  function ClientSends(c: Config, i: nat): bool {
    match c.mode
    case Sender => true
    case Receiver => false
    case Bidirectional => i < c.num
  }

  /** How many streams the server is to receive on, and to send on. */
  function ToReceive(c: Config): nat {
    if c.mode == Receiver then 0 else c.num
  }

  function ToSend(c: Config): nat {
    if c.mode == Sender then 0 else c.num
  }

  // ---------- the state ----------

  /** SERVER_ERROR brings the server's error with it. */
  datatype Error = IEMESSAGE | IESENDPARAMS | IERECVPARAMS | IESENDRESULTS | IERECVRESULTS | IESETTOS | IESETBUF2
    | IETOTALRATE | IERECVCOOKIE | IEAFFINITY | IESERVERTERM | IEACCESSDENIED | ServerError(number: nat)

  /** Where the server is: in its select loop, or inside a blocking read or before a write. */
  datatype ServerPc =
    | ServerLoop
    | ReadCookie | SendParamExchange | ReadParamLength | ReadParams(n: nat) | SendServerError | SendCreateStreams
    | SendRunning
    | SendExchange | ReadResultLength | ReadResults(n: nat) | SendResultLength | SendResults | SendDisplay
    | ServerFailed(error: Error)

  datatype ClientPc =
    | Unconnected
    | ClientLoop
    | SendParamLength | SendParams | ReadServerError
    | Creating(i: nat) | AwaitReply(i: nat)
    | SendOwnLength | SendOwnResults | ReadPeerLength | ReadPeerResults(n: nat)
    | ClientFailed(error: Error)

  /** streams lists, in order of acceptance, whether the server sends on the stream; exceeded is the
      flag its callbacks set when more than the limit goes through. */
  datatype Server = Server(pc: ServerPc, state: int, control: bool, received: nat, sent: nat, streams: seq<bool>,
                           workers: bool, exceeded: bool, params: bytes, results: bytes)

  datatype Client = Client(pc: ClientPc, state: int, streams: seq<bool>, startup: bool, ends: nat, results: bytes)

  datatype Conn = Control | Own | Foreign

  /** turnedAway says that the server has denied a connection that belongs to the test. */
  datatype State = State(server: Server, client: Client, toServer: bytes, toClient: bytes,
                         backlog: seq<Conn>, datagrams: nat, replies: nat, turnedAway: bool, finished: bool)

  function Initial(): State {
    State(Server(ServerLoop, IPERF_START, false, 0, 0, [], false, false, [], []),
          Client(Unconnected, 0, [], true, 0, []), [], [], [], 0, 0, false, false)
  }

  // ---------- the server ----------

  function ToClient(s: State, server: Server, t: bytes): State {
    s.(server := server, toClient := s.toClient + t)
  }

  /** iperf_set_send_state. */
  function ServerSends(s: State, server: Server, state: int): State
    requires -128 <= state < 128
  {
    ToClient(s, server.(state := state), [Unsigned(state)])
  }

  function Fail(s: State, error: Error): State {
    s.(server := s.server.(pc := ServerFailed(error)))
  }

  /** iperf_handle_message_server. */
  function HandleMessageServer(s: State): State
    requires s.toServer != []
  {
    var state := Signed(s.toServer[0]);
    var s' := s.(toServer := s.toServer[1..], server := s.server.(state := state));
    if state == TEST_START || state == IPERF_DONE then s'
    else if state == TEST_END then s'.(server := s'.server.(pc := SendExchange))
    else if state == CLIENT_TERMINATE then s'.(server := s'.server.(state := IPERF_DONE))
    else Fail(s', IEMESSAGE)
  }

  predicate AllAccepted(c: Config, server: Server) {
    server.received == ToReceive(c) && server.sent == ToSend(c)
  }

  /** What the server does next on its own: the next read of its control socket, or write to it. */
  function ServerStep(c: Config, s: State): Option<State>
    requires WellFormed(c)
  {
    if s.server.pc == ServerLoop then ServerLoopStep(c, s)
    else if s.server.pc in {SendExchange, ReadResultLength, SendResultLength, SendResults, SendDisplay}
         || s.server.pc.ReadResults?
    then ExchangeResultsServer(c, s)
    else SetUpServer(c, s)
  }

  /** A round of the loop: it gives up once the rate limit was exceeded; it starts the test when
      every stream is there, unless more is requested than the limit; and otherwise takes a message. */
  function ServerLoopStep(c: Config, s: State): Option<State> {
    var v := s.server;
    if v.exceeded && v.state != IPERF_DONE then Some(Fail(s, IETOTALRATE))
    else if v.state == CREATE_STREAMS && AllAccepted(c, v) then
      Some(StartTest(c, s.(backlog := if Relistens(c) then [] else s.backlog)))
    else if v.control && v.state != IPERF_DONE && s.toServer != [] then Some(HandleMessageServer(s))
    else None
  }

  function StartTest(c: Config, s: State): State {
    if OverLimit(c) then Fail(s, IETOTALRATE) else ServerSends(s, s.server.(pc := SendRunning), TEST_START)
  }

  /** iperf_accept and iperf_exchange_parameters, up to the creation of streams; and the second of
      the two messages that start the test. */
  function SetUpServer(c: Config, s: State): Option<State>
    requires WellFormed(c)
  {
    var v := s.server;
    match v.pc
    case ReadCookie =>
      if |s.toServer| < COOKIE_SIZE then None
      else Some(s.(toServer := s.toServer[COOKIE_SIZE..], server := v.(pc := SendParamExchange)))
    case SendParamExchange => Some(ServerSends(s, v.(pc := ReadParamLength), PARAM_EXCHANGE))
    case ReadParamLength => ServerReadsLength(s, MAX_PARAMS_JSON_STRING)
    case ReadParams(n) =>
      if |s.toServer| < n then None
      else Some(s.(toServer := s.toServer[n..], server := Listen(c, v.(params := s.toServer[..n])),
                   backlog := if Relistens(c) then [] else s.backlog))
    case SendServerError =>
      Some(Fail(ToClient(s, v, [Unsigned(SERVER_ERROR)] + BigEndian(SETBUF2) + BigEndian(0)), IESETBUF2))
    case SendCreateStreams =>
      var s' := ServerSends(s, v.(pc := ServerLoop), CREATE_STREAMS);
      Some(if c.serverAffinity then Fail(s', IEAFFINITY) else s')
    case SendRunning => Some(ServerSends(s, v.(pc := ServerLoop, workers := true), TEST_RUNNING))
    case _ => None
  }

  /** iperf_tcp_listen reads back the buffer sizes that were set; iperf_udp_listen does not. */
  function Listen(c: Config, v: Server): Server {
    v.(pc := if c.tcp && Refused(c, c.serverSockets) then SendServerError else SendCreateStreams)
  }

  /** What follows TEST_END: iperf_exchange_results between two messages. */
  function ExchangeResultsServer(c: Config, s: State): Option<State>
    requires WellFormed(c)
  {
    var v := s.server;
    match v.pc
    case SendExchange => Some(ServerSends(s, v.(pc := ReadResultLength), EXCHANGE_RESULTS))
    case ReadResultLength => ServerReadsLength(s, 0)
    case ReadResults(n) =>
      if |s.toServer| < n then None
      else if n >= INT_RANGE then Some(Fail(s.(toServer := s.toServer[n..]), IERECVRESULTS))
      else Some(s.(toServer := s.toServer[n..], server := v.(pc := SendResultLength, results := s.toServer[..n])))
    case SendResultLength => Some(ToClient(s, v.(pc := SendResults), BigEndian(|c.serverResults|)))
    case SendResults =>
      var s' := ToClient(s, v.(pc := SendDisplay), c.serverResults);
      Some(if |c.serverResults| >= INT_RANGE then Fail(s', IESENDRESULTS) else s')
    case SendDisplay => Some(ServerSends(s, v.(pc := ServerLoop), DISPLAY_RESULTS))
    case _ => None
  }

  /** The length read of JSON_read; no maximum is 0. */
  function ServerReadsLength(s: State, max: nat): Option<State> {
    if |s.toServer| < 4 then None
    else
      var n := FromBigEndian(s.toServer);
      var s' := s.(toServer := s.toServer[4..]);
      if 0 < n < LONGEST && (max == 0 || n <= max) then
        Some(s'.(server := s.server.(pc := if s.server.pc == ReadParamLength then ReadParams(n) else ReadResults(n))))
      else Some(Fail(s', if s.server.pc == ReadParamLength then IERECVPARAMS else IERECVRESULTS))
  }

  /** A stream connection takes the first role that is not full yet. */
  function NewStream(c: Config, v: Server): Server {
    if v.received != ToReceive(c) then v.(received := v.received + 1, streams := v.streams + [false])
    else if v.sent != ToSend(c) then v.(sent := v.sent + 1, streams := v.streams + [true])
    else v
  }

  /** The server's select loop serves the next connection. While streams are being created that is
      the protocol's accept; at other times iperf_accept, which turns everybody away once it has a
      control connection. A stream connection with the wrong cookie is closed at once; setting the
      type of service on the closed socket then fails. iperf_udp_accept reads back the buffer sizes. */
  function ServerAccept(c: Config, s: State): Option<State> {
    var v := s.server;
    if v.pc != ServerLoop || v.state == IPERF_DONE || v.exceeded || (v.state == CREATE_STREAMS && AllAccepted(c, v))
    then None
    else if v.state == CREATE_STREAMS && !c.tcp then
      if s.datagrams == 0 then None
      else if Refused(c, c.serverSockets) then Some(Fail(s.(datagrams := s.datagrams - 1), IESETBUF2))
      else Some(s.(datagrams := s.datagrams - 1, replies := s.replies + 1, server := NewStream(c, v)))
    else if s.backlog == [] then None
    else
      var s' := s.(backlog := s.backlog[1..]);
      if v.state == CREATE_STREAMS then
        if s.backlog[0] == Own then Some(s'.(server := NewStream(c, v)))
        else if c.tos then Some(Fail(s', IESETTOS))
        else Some(s')
      else if v.control then Some(s'.(turnedAway := s.turnedAway || s.backlog[0] != Foreign))
      else if s.backlog[0] == Control then Some(s'.(server := v.(pc := ReadCookie, control := true)))
      else Some(Fail(s', IERECVCOOKIE))
  }

  // ---------- the client ----------

  function ToServer(s: State, client: Client, t: bytes): State {
    s.(client := client, toServer := s.toServer + t)
  }

  function ClientSendsState(s: State, client: Client, state: int): State
    requires -128 <= state < 128
  {
    ToServer(s, client.(state := state), [Unsigned(state)])
  }

  function FailClient(s: State, error: Error): State {
    s.(client := s.client.(pc := ClientFailed(error)))
  }

  /** iperf_handle_message_client, and the start of the workers when the test runs. */
  function HandleMessageClient(s: State): State
    requires s.toClient != []
  {
    var state := Signed(s.toClient[0]);
    var k := s.client.(state := state);
    var s' := s.(toClient := s.toClient[1..], client := k);
    if state == PARAM_EXCHANGE then s'.(client := k.(pc := SendParamLength))
    else if state == CREATE_STREAMS then s'.(client := k.(pc := Creating(0)))
    else if state == TEST_START || state == IPERF_DONE then s'
    else if state == TEST_RUNNING then s'.(client := k.(startup := false))
    else if state == EXCHANGE_RESULTS then s'.(client := k.(pc := SendOwnLength))
    else if state == DISPLAY_RESULTS then ClientSendsState(s', k, IPERF_DONE)
    else if state == SERVER_TERMINATE then FailClient(s', IESERVERTERM)
    else if state == ACCESS_DENIED then FailClient(s', IEACCESSDENIED)
    else if state == SERVER_ERROR then s'.(client := k.(pc := ReadServerError))
    else FailClient(s', IEMESSAGE)
  }

  function ClientStep(c: Config, s: State): Option<State>
    requires WellFormed(c)
  {
    var k := s.client;
    if k.pc == ClientLoop then
      if k.state != IPERF_DONE && s.toClient != [] then Some(HandleMessageClient(s)) else None
    else if k.pc.Creating? || k.pc.AwaitReply? then CreateStreams(c, s)
    else if k.pc in {Unconnected, SendParamLength, SendParams, ReadServerError} then SetUpClient(c, s)
    else ExchangeResultsClient(c, s)
  }

  /** iperf_connect, and iperf_exchange_parameters on the client's side. */
  function SetUpClient(c: Config, s: State): Option<State>
    requires WellFormed(c)
  {
    var k := s.client;
    match k.pc
    case Unconnected =>
      if c.affinity then Some(FailClient(s, IEAFFINITY))
      else Some(ToServer(s, k.(pc := ClientLoop), c.cookie).(backlog := s.backlog + [Control]))
    case SendParamLength => Some(ToServer(s, k.(pc := SendParams), BigEndian(|c.params|)))
    case SendParams =>
      var s' := ToServer(s, k.(pc := ClientLoop), c.params);
      Some(if |c.params| >= INT_RANGE then FailClient(s', IESENDPARAMS) else s')
    case ReadServerError =>
      if |s.toClient| < 8 then None
      else Some(FailClient(s.(toClient := s.toClient[8..]), ServerError(FromBigEndian(s.toClient))))
    case _ => None
  }

  /** iperf_create_streams: a TCP connection is there at once, a UDP one when the server has replied.
      Before either, the buffer sizes are checked. */
  function CreateStreams(c: Config, s: State): Option<State> {
    var k := s.client;
    match k.pc
    case Creating(i) =>
      if i >= Total(c) then Some(s.(client := k.(pc := ClientLoop)))
      else if Refused(c, c.clientSockets) then Some(FailClient(s, IESETBUF2))
      else if c.tcp then
        Some(s.(client := k.(pc := Creating(i + 1), streams := k.streams + [ClientSends(c, i)]),
                backlog := s.backlog + [Own]))
      else Some(s.(client := k.(pc := AwaitReply(i)), datagrams := s.datagrams + 1))
    case AwaitReply(i) =>
      if s.replies == 0 then None
      else
        Some(s.(client := k.(pc := Creating(i + 1), streams := k.streams + [ClientSends(c, i)]),
                replies := s.replies - 1))
    case _ => None
  }

  /** iperf_exchange_results on the client's side: its own frame first, then the server's. */
  function ExchangeResultsClient(c: Config, s: State): Option<State>
    requires WellFormed(c)
  {
    var k := s.client;
    match k.pc
    case SendOwnLength => Some(ToServer(s, k.(pc := SendOwnResults), BigEndian(|c.clientResults|)))
    case SendOwnResults =>
      var s' := ToServer(s, k.(pc := ReadPeerLength), c.clientResults);
      Some(if |c.clientResults| >= INT_RANGE then FailClient(s', IESENDRESULTS) else s')
    case ReadPeerLength =>
      if |s.toClient| < 4 then None
      else
        var n := FromBigEndian(s.toClient);
        var s' := s.(toClient := s.toClient[4..]);
        if 0 < n < LONGEST then Some(s'.(client := k.(pc := ReadPeerResults(n))))
        else Some(FailClient(s', IERECVRESULTS))
    case ReadPeerResults(n) =>
      if |s.toClient| < n then None
      else if n >= INT_RANGE then Some(FailClient(s.(toClient := s.toClient[n..]), IERECVRESULTS))
      else Some(s.(toClient := s.toClient[n..], client := k.(pc := ClientLoop, results := s.toClient[..n])))
    case _ => None
  }

  /** The end of the test: the client, running and with its end condition met, sends TEST_END. */
  function ClientEnds(s: State): Option<State> {
    if s.client.pc == ClientLoop && s.client.state == TEST_RUNNING && s.finished then
      Some(ClientSendsState(s, s.client.(ends := s.client.ends + 1), TEST_END))
    else None
  }

  // ---------- steps ----------

  datatype Action = ServerActs | ServerAccepts | ClientActs | ClientStops | Arrival | EndConditionMet | ExcessMeasured

  /** The last three are the environment's: a connection that is not part of the test arrives, after
      the client's own; the end condition comes true; and the server's callbacks, which run between
      two rounds of its loop while the test does, find more traffic than the limit. */
  function Apply(c: Config, s: State, a: Action): Option<State>
    requires WellFormed(c)
  {
    match a
    case ServerActs => ServerStep(c, s)
    case ServerAccepts => ServerAccept(c, s)
    case ClientActs => ClientStep(c, s)
    case ClientStops => ClientEnds(s)
    case Arrival => if s.client.pc == Unconnected then None else Some(s.(backlog := s.backlog + [Foreign]))
    case EndConditionMet => Some(s.(finished := true))
    case ExcessMeasured =>
      if c.limit > 0 && c.excess && s.server.pc == ServerLoop && s.server.state == TEST_RUNNING
      then Some(s.(server := s.server.(exceeded := true)))
      else None
  }

  /** The two loops have ended. */
  predicate ServerDone(s: State) {
    s.server.pc == ServerLoop && s.server.state == IPERF_DONE
  }

  predicate ClientDone(s: State) {
    s.client.pc == ClientLoop && s.client.state == IPERF_DONE
  }

  predicate Environment(a: Action) {
    a == Arrival || a == EndConditionMet || a == ExcessMeasured
  }
}
