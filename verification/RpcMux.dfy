/** RPC multiplexing between the Gateway's `AgentConn`s (gateway/agentconn.go) and the Agent's
    connection loop (agent/connection.go), as a transition system with one step for each lock region,
    channel operation or frame. Every socket ever dialled has its own `Mux`; the Agent's request
    goroutines are one pool shared by all sockets, each holding the socket it was born on. */
module RpcMux {
  import opened Wrappers
  import opened Wire
  import D = Decimal

  /** The range of the 64-bit id counter. */
  const IdSpace: nat := 0x1_0000_0000_0000_0000

  datatype Return =
    | Answered(outcome: Outcome)
    | Expired
    | Lost(code: ErrorCode)
    | Unsent

  /** Where one `Call` stands: id taken, channel in `pending`, frame written, leaving (the deferred
      removal still to run), gone. */
  datatype Phase =
    | Numbered
    | Inserted
    | Waiting
    | Returning(ret: Return)
    | Finished(ret: Return)

  /** One `Call` with its channel of capacity one. */
  datatype Call = Call(req: Request, phase: Phase, mailbox: Option<Response>)

  datatype Reader =
    | Reading
    | Got(resp: Response)
    | Sending(channel: nat, resp: Response)
    | Stopped

  /** The Gateway side of one connection. `sent` counts, per request id, the sends ever made. */
  datatype Mux = Mux(
    nextID: nat,
    calls: seq<Call>,
    pending: map<string, nat>,
    reader: Reader,
    closed: bool,
    sent: multiset<string>)

  const EmptyMux := Mux(0, [], map[], Reading, false, multiset{})

  predicate InPending(call: Call) {
    call.phase.Inserted? || call.phase.Waiting? || call.phase.Returning?
  }

  predicate Written(call: Call) {
    !call.phase.Numbered? && !call.phase.Inserted?
  }

  function TakeNumber(m: Mux, rpc: string, params: Json): Mux {
    var n := (m.nextID + 1) % IdSpace;
    m.(nextID := n, calls := m.calls + [Call(Request(D.Format(n), rpc, params), Numbered, None)])
  }

  function WithPhase(m: Mux, c: nat, phase: Phase): Mux
    requires c < |m.calls|
  {
    m.(calls := m.calls[c := m.calls[c].(phase := phase)])
  }

  function InsertPending(m: Mux, c: nat): Mux
    requires c < |m.calls|
  {
    WithPhase(m.(pending := m.pending[m.calls[c].req.id := c]), c, Inserted)
  }

  function RemovePending(m: Mux, c: nat): Mux
    requires c < |m.calls| && m.calls[c].phase.Returning?
  {
    WithPhase(m.(pending := m.pending - {m.calls[c].req.id}), c, Finished(m.calls[c].phase.ret))
  }

  function TakeAnswer(m: Mux, c: nat): Mux
    requires c < |m.calls| && m.calls[c].mailbox.Some?
  {
    var answered := Returning(Answered(m.calls[c].mailbox.value.outcome));
    m.(calls := m.calls[c := m.calls[c].(phase := answered, mailbox := None)])
  }

  function LossCode(rpc: string): ErrorCode {
    if IsMutatingMethod(rpc) then ExecutionUnknown else TransportLost
  }

  /** The reader's locked lookup; a response nobody waits for is discarded. */
  function LookUp(m: Mux): Mux
    requires m.reader.Got?
  {
    var resp := m.reader.resp;
    if resp.id in m.pending then m.(reader := Sending(m.pending[resp.id], resp)) else m.(reader := Reading)
  }

  /** The reader's send, possible only while the channel's one slot is free. */
  predicate CanSend(m: Mux) {
    m.reader.Sending? && m.reader.channel < |m.calls| && m.calls[m.reader.channel].mailbox.None?
  }

  function Send(m: Mux): Mux
    requires CanSend(m)
  {
    var c := m.reader.channel;
    m.(calls := m.calls[c := m.calls[c].(mailbox := Some(m.reader.resp))],
       sent := m.sent + multiset{m.reader.resp.id},
       reader := Reading)
  }

  function Stop(m: Mux): Mux {
    m.(reader := Stopped, closed := true)
  }

  /** A socket: its Gateway side, whether the transport is up, the frames in flight each way, and
      whether the Agent's read loop for it is still running. */
  datatype Conn = Conn(mux: Mux, up: bool, toAgent: seq<Request>, toGateway: seq<Response>, serving: bool)

  /** Steps that touch one socket's Gateway side and its frames only. */
  datatype Local =
    | Number(rpc: string, params: Json)
    | Insert(c: nat)
    | Write(c: nat, ok: bool, delivered: bool)
    | Take(c: nat)
    | Expire(c: nat)
    | Leave(c: nat)
    | Remove(c: nat)
    | Receive
    | Find
    | Hand
    | StopReader
    | Break(requests: nat, responses: nat)
    | StopServing

  /** A write reaches the wire only while the transport is up, and reports success without reaching it
      only once the transport is down; a failing write may or may not have reached it. */
  predicate WriteOutcome(conn: Conn, ok: bool, delivered: bool) {
    (delivered ==> conn.up) && (ok ==> delivered || !conn.up)
  }

  /** A read loop ends only once the transport is down; when it goes down any suffix of the frames in
      flight is lost. */
  predicate LocalEnabled(conn: Conn, step: Local) {
    var m := conn.mux;
    match step
    case Number(_, _) => true
    case Insert(c) => c < |m.calls| && m.calls[c].phase.Numbered?
    case Write(c, ok, delivered) =>
      c < |m.calls| && m.calls[c].phase.Inserted? && WriteOutcome(conn, ok, delivered)
    case Take(c) => c < |m.calls| && m.calls[c].phase.Waiting? && m.calls[c].mailbox.Some?
    case Expire(c) => c < |m.calls| && m.calls[c].phase.Waiting?
    case Leave(c) => c < |m.calls| && m.calls[c].phase.Waiting? && m.closed
    case Remove(c) => c < |m.calls| && m.calls[c].phase.Returning?
    case Receive => m.reader.Reading? && conn.toGateway != []
    case Find => m.reader.Got?
    case Hand => CanSend(m)
    case StopReader => m.reader.Reading? && !conn.up
    case Break(requests, responses) => requests <= |conn.toAgent| && responses <= |conn.toGateway|
    case StopServing => !conn.up
  }

  function LocalApply(conn: Conn, step: Local): Conn
    requires LocalEnabled(conn, step)
  {
    var m := conn.mux;
    match step
    case Number(rpc, params) => conn.(mux := TakeNumber(m, rpc, params))
    case Insert(c) => conn.(mux := InsertPending(m, c))
    case Write(c, ok, delivered) =>
      conn.(mux := WithPhase(m, c, if ok then Waiting else Returning(Unsent)),
            toAgent := if delivered then conn.toAgent + [m.calls[c].req] else conn.toAgent)
    case Take(c) => conn.(mux := TakeAnswer(m, c))
    case Expire(c) => conn.(mux := WithPhase(m, c, Returning(Expired)))
    case Leave(c) => conn.(mux := WithPhase(m, c, Returning(Lost(LossCode(m.calls[c].req.rpc)))))
    case Remove(c) => conn.(mux := RemovePending(m, c))
    case Receive => conn.(mux := m.(reader := Got(conn.toGateway[0])), toGateway := conn.toGateway[1..])
    case Find => conn.(mux := LookUp(m))
    case Hand => conn.(mux := Send(m))
    case StopReader => conn.(mux := Stop(m))
    case Break(requests, responses) =>
      conn.(up := false, toAgent := conn.toAgent[..requests], toGateway := conn.toGateway[..responses])
    case StopServing => conn.(serving := false)
  }

  /** An Agent goroutine for one request: before dispatch `answer` is absent, afterwards it holds the
      response to be written to the captured socket. */
  datatype Handler = Handler(socket: nat, req: Request, answer: Option<Response>)

  /** A dispatch that happened: on which socket's request, what the handler gave, and what came out. */
  datatype Dispatched = Dispatched(socket: nat, req: Request, handled: HandlerResult, resp: Response)

  datatype State = State(methods: set<string>, conns: seq<Conn>, handlers: seq<Handler>, log: seq<Dispatched>)

  function Initial(methods: set<string>): State {
    State(methods, [], [], [])
  }

  /** `On` is a step of one socket; the rest involve the Agent. `Accept` takes a request frame off a
      socket and starts a goroutine for it, `Handle` dispatches it, `Reply` writes to the captured
      socket, `Abandon` is a goroutine that ends without writing (a recovered panic or an unencodable
      response). */
  datatype Step =
    | Dial
    | On(k: nat, local: Local)
    | Accept(k: nat)
    | Handle(h: nat, handled: HandlerResult)
    | Reply(h: nat, ok: bool, delivered: bool)
    | Abandon(h: nat)

  predicate Enabled(s: State, step: Step) {
    match step
    case Dial => true
    case On(k, local) => k < |s.conns| && LocalEnabled(s.conns[k], local)
    case Accept(k) => k < |s.conns| && s.conns[k].serving && s.conns[k].toAgent != []
    case Handle(h, _) => h < |s.handlers| && s.handlers[h].answer.None?
    case Reply(h, ok, delivered) =>
      h < |s.handlers| && s.handlers[h].answer.Some? && s.handlers[h].socket < |s.conns|
      && WriteOutcome(s.conns[s.handlers[h].socket], ok, delivered)
    case Abandon(h) => h < |s.handlers|
  }

  function WithConn(s: State, k: nat, conn: Conn): State
    requires k < |s.conns|
  {
    s.(conns := s.conns[k := conn])
  }

  function Without<T>(xs: seq<T>, i: nat): seq<T>
    requires i < |xs|
  {
    xs[..i] + xs[i + 1..]
  }

  function Apply(s: State, step: Step): State
    requires Enabled(s, step)
  {
    match step
    case Dial => s.(conns := s.conns + [Conn(EmptyMux, true, [], [], true)])
    case On(k, local) => WithConn(s, k, LocalApply(s.conns[k], local))
    case Accept(k) =>
      var conn := s.conns[k];
      WithConn(s.(handlers := s.handlers + [Handler(k, conn.toAgent[0], None)]), k,
               conn.(toAgent := conn.toAgent[1..]))
    case Handle(h, handled) =>
      var resp := Dispatch(s.methods, s.handlers[h].req, handled);
      s.(handlers := s.handlers[h := s.handlers[h].(answer := Some(resp))],
         log := s.log + [Dispatched(s.handlers[h].socket, s.handlers[h].req, handled, resp)])
    case Reply(h, ok, delivered) =>
      var k := s.handlers[h].socket;
      var conn := s.conns[k];
      var frames := if delivered then [s.handlers[h].answer.value] else [];
      WithConn(s.(handlers := Without(s.handlers, h)), k,
               conn.(toGateway := conn.toGateway + frames, up := conn.up && ok))
    case Abandon(h) => s.(handlers := Without(s.handlers, h))
  }

  /** A run is a sequence of steps, each enabled where it is taken. */
  predicate IsRun(s: State, steps: seq<Step>)
    decreases |steps|
  {
    steps == [] || (Enabled(s, steps[0]) && IsRun(Apply(s, steps[0]), steps[1..]))
  }

  function After(s: State, steps: seq<Step>): State
    requires IsRun(s, steps)
    decreases |steps|
  {
    if steps == [] then s else After(Apply(s, steps[0]), steps[1..])
  }

  /** The modelling hypothesis on ids: fewer than 2^64 calls on any one connection. */
  predicate WithinIdSpace(s: State) {
    forall k :: 0 <= k < |s.conns| ==> |s.conns[k].mux.calls| < IdSpace
  }
}
