/** What every run of the multiplexed connection keeps: which requests and responses can be where, and
    how many copies of each. */
module RpcMuxSafety {
  import opened Wrappers
  import opened Wire
  import opened RpcMux
  import opened Counting
  import D = Decimal

  function RequestTag(): Request -> Option<string> {
    (r: Request) => Some(r.id)
  }

  function ResponseTag(): Response -> Option<string> {
    (r: Response) => Some(r.id)
  }

  function RunningTag(k: nat): Handler -> Option<string> {
    (h: Handler) => if h.socket == k && h.answer.None? then Some(h.req.id) else None
  }

  function ReplyingTag(k: nat): Handler -> Option<string> {
    (h: Handler) => if h.socket == k && h.answer.Some? then Some(h.answer.value.id) else None
  }

  function LogTag(k: nat): Dispatched -> Option<string> {
    (e: Dispatched) => if e.socket == k then Some(e.req.id) else None
  }

  /** How often each id of socket `k` has been dispatched. */
  function Dispatches(k: nat, log: seq<Dispatched>): multiset<string> {
    Tally(log, LogTag(k))
  }

  /** Requests of socket `k` on the wire, in an undispatched goroutine, or already dispatched. */
  function Asked(k: nat, conn: Conn, handlers: seq<Handler>, log: seq<Dispatched>): multiset<string> {
    Tally(conn.toAgent, RequestTag()) + Tally(handlers, RunningTag(k)) + Dispatches(k, log)
  }

  function ReaderIds(reader: Reader): multiset<string> {
    if reader.Got? || reader.Sending? then multiset{reader.resp.id} else multiset{}
  }

  /** Responses for socket `k` held by a goroutine, on the wire, in the reader's hand, or already sent
      on a channel. */
  function Replies(k: nat, conn: Conn, handlers: seq<Handler>): multiset<string> {
    Tally(handlers, ReplyingTag(k)) + Tally(conn.toGateway, ResponseTag())
    + ReaderIds(conn.mux.reader) + conn.mux.sent
  }

  predicate ReturnOk(m: Mux, call: Call) {
    (call.phase.Returning? || call.phase.Finished?) && call.phase.ret.Lost?
    ==> m.closed && call.phase.ret.code == LossCode(call.req.rpc)
  }

  /** Ids are the decimal numerals 1, 2, 3, ... of the connection's own counter. */
  ghost predicate IdsInv(m: Mux) {
    m.nextID == |m.calls| < IdSpace && forall c :: 0 <= c < |m.calls| ==> m.calls[c].req.id == D.Format(c + 1)
  }

  ghost predicate DistinctIds(m: Mux) {
    forall i, j :: 0 <= i < j < |m.calls| ==> m.calls[i].req.id != m.calls[j].req.id
  }

  /** `pending` maps exactly the ids of the calls between insertion and removal, each to its call. */
  ghost predicate PendingInv(m: Mux) {
    && (forall id :: id in m.pending ==>
          m.pending[id] < |m.calls| && m.calls[m.pending[id]].req.id == id && InPending(m.calls[m.pending[id]]))
    && (forall c :: 0 <= c < |m.calls| && InPending(m.calls[c]) ==>
          m.calls[c].req.id in m.pending && m.pending[m.calls[c].req.id] == c)
  }

  ghost predicate MailInv(m: Mux) {
    && (m.reader.Sending? ==>
          m.reader.channel < |m.calls| && m.calls[m.reader.channel].req.id == m.reader.resp.id)
    && (forall c :: 0 <= c < |m.calls| && m.calls[c].mailbox.Some? ==>
          m.calls[c].mailbox.value.id == m.calls[c].req.id && m.calls[c].req.id in m.sent)
  }

  ghost predicate ExitInv(m: Mux) {
    (m.closed <==> m.reader.Stopped?) && forall c :: 0 <= c < |m.calls| ==> ReturnOk(m, m.calls[c])
  }

  ghost predicate MuxInv(m: Mux) {
    DistinctIds(m) && PendingInv(m) && MailInv(m) && ExitInv(m)
  }

  /** `r` is the request of a call of this connection that has written it. */
  ghost predicate IsWritten(m: Mux, r: Request) {
    exists c :: 0 <= c < |m.calls| && m.calls[c].req == r && Written(m.calls[c])
  }

  /** `r` is what the dispatcher produced for some request of socket `k`. */
  ghost predicate IsProduced(k: nat, log: seq<Dispatched>, r: Response) {
    exists e :: e in log && e.socket == k && e.resp == r
  }

  ghost predicate Requests(k: nat, conn: Conn, handlers: seq<Handler>, log: seq<Dispatched>) {
    && (forall r :: r in conn.toAgent ==> IsWritten(conn.mux, r))
    && (forall h :: h in handlers && h.socket == k ==> IsWritten(conn.mux, h.req))
    && (forall e :: e in log && e.socket == k ==> IsWritten(conn.mux, e.req) && e.resp.id == e.req.id)
  }

  ghost predicate Responses(k: nat, conn: Conn, handlers: seq<Handler>, log: seq<Dispatched>) {
    var m := conn.mux;
    && (forall h :: h in handlers && h.socket == k && h.answer.Some? ==> IsProduced(k, log, h.answer.value))
    && (forall r :: r in conn.toGateway ==> IsProduced(k, log, r))
    && (m.reader.Got? || m.reader.Sending? ==> IsProduced(k, log, m.reader.resp))
    && (forall c :: 0 <= c < |m.calls| && m.calls[c].mailbox.Some? ==> IsProduced(k, log, m.calls[c].mailbox.value))
    && (forall c :: 0 <= c < |m.calls| ==> AnswerProduced(k, log, m.calls[c]))
  }

  ghost predicate AnswerProduced(k: nat, log: seq<Dispatched>, call: Call) {
    (call.phase.Returning? || call.phase.Finished?) && call.phase.ret.Answered?
    ==> IsProduced(k, log, Response(call.req.id, call.phase.ret.outcome))
  }

  ghost predicate AtMostOnce(ids: multiset<string>) {
    forall id :: ids[id] <= 1
  }

  ghost predicate Counted(k: nat, conn: Conn, handlers: seq<Handler>, log: seq<Dispatched>) {
    && AtMostOnce(Asked(k, conn, handlers, log))
    && Replies(k, conn, handlers) <= Dispatches(k, log)
  }

  ghost predicate ConnInv(k: nat, conn: Conn, handlers: seq<Handler>, log: seq<Dispatched>) {
    IdsInv(conn.mux) && MuxInv(conn.mux)
    && Requests(k, conn, handlers, log) && Responses(k, conn, handlers, log) && Counted(k, conn, handlers, log)
  }

  ghost predicate Inv(s: State) {
    && (forall k :: 0 <= k < |s.conns| ==> ConnInv(k, s.conns[k], s.handlers, s.log))
    && (forall h :: h in s.handlers ==> h.socket < |s.conns|)
    && (forall e :: e in s.log ==> e.socket < |s.conns|)
  }

  lemma NumberKeepsMux(m: Mux, rpc: string, params: Json)
    requires IdsInv(m) && MuxInv(m) && |m.calls| + 1 < IdSpace
    ensures IdsInv(TakeNumber(m, rpc, params)) && MuxInv(TakeNumber(m, rpc, params))
  {
    NumberKeepsIds(m, rpc, params);
    NumberKeepsDistinct(m, rpc, params);
    NumberKeepsPending(m, rpc, params);
    NumberKeepsMail(m, rpc, params);
    NumberKeepsExit(m, rpc, params);
    hide IdsInv, DistinctIds, PendingInv, MailInv, ExitInv;
  }

  lemma NumberKeepsIds(m: Mux, rpc: string, params: Json)
    requires IdsInv(m) && |m.calls| + 1 < IdSpace
    ensures IdsInv(TakeNumber(m, rpc, params))
  {
    hide D.Format;
  }

  lemma NumberKeepsDistinct(m: Mux, rpc: string, params: Json)
    requires IdsInv(m) && DistinctIds(m) && |m.calls| + 1 < IdSpace
    ensures DistinctIds(TakeNumber(m, rpc, params))
  {
    NumberIsNew(m);
    hide D.Format;
  }

  lemma NumberKeepsPending(m: Mux, rpc: string, params: Json)
    requires PendingInv(m)
    ensures PendingInv(TakeNumber(m, rpc, params))
  {
    hide D.Format;
  }

  lemma NumberKeepsMail(m: Mux, rpc: string, params: Json)
    requires MailInv(m)
    ensures MailInv(TakeNumber(m, rpc, params))
  {
    hide D.Format;
  }

  lemma NumberKeepsExit(m: Mux, rpc: string, params: Json)
    requires ExitInv(m)
    ensures ExitInv(TakeNumber(m, rpc, params))
  {
    hide D.Format;
  }

  lemma NumberIsNew(m: Mux)
    requires IdsInv(m)
    ensures forall c :: 0 <= c < |m.calls| ==> m.calls[c].req.id != D.Format(|m.calls| + 1)
  {
    hide D.Format;
    var n := |m.calls|;
    forall c | 0 <= c < n
      ensures m.calls[c].req.id != D.Format(n + 1)
    {
      if m.calls[c].req.id == D.Format(n + 1) {
        D.FormatInjective(c + 1, n + 1);
      }
    }
  }

  /** A change of phase that leaves `pending` alone. */
  lemma PhaseKeepsMux(m: Mux, c: nat, phase: Phase)
    requires MuxInv(m) && c < |m.calls| && InPending(m.calls[c]) && InPending(m.calls[c].(phase := phase))
    requires ReturnOk(m, m.calls[c].(phase := phase))
    ensures MuxInv(WithPhase(m, c, phase))
  {
  }

  lemma SendKeepsMux(m: Mux)
    requires MuxInv(m) && CanSend(m)
    ensures MuxInv(Send(m))
  {
  }

  lemma TakeKeepsMux(m: Mux, c: nat)
    requires MuxInv(m) && c < |m.calls| && m.calls[c].phase.Waiting? && m.calls[c].mailbox.Some?
    ensures MuxInv(TakeAnswer(m, c))
  {
  }

  lemma InsertKeepsMux(m: Mux, c: nat)
    requires MuxInv(m) && c < |m.calls| && m.calls[c].phase.Numbered?
    ensures MuxInv(InsertPending(m, c))
  {
  }

  lemma RemoveKeepsMux(m: Mux, c: nat)
    requires MuxInv(m) && c < |m.calls| && m.calls[c].phase.Returning?
    ensures MuxInv(RemovePending(m, c))
  {
  }

  lemma LookUpKeepsMux(m: Mux)
    requires MuxInv(m) && m.reader.Got?
    ensures MuxInv(LookUp(m))
  {
  }

  lemma StopKeepsMux(m: Mux)
    requires MuxInv(m) && m.reader.Reading?
    ensures MuxInv(Stop(m))
  {
  }

  lemma LocalKeepsMux(conn: Conn, step: Local)
    requires IdsInv(conn.mux) && MuxInv(conn.mux)
    requires LocalEnabled(conn, step) && |LocalApply(conn, step).mux.calls| < IdSpace
    ensures MuxInv(LocalApply(conn, step).mux)
  {
    var m := conn.mux;
    match step
    case Number(rpc, params) => NumberKeepsMux(m, rpc, params);
    case Insert(c) => InsertKeepsMux(m, c);
    case Write(c, ok, _) => PhaseKeepsMux(m, c, if ok then Waiting else Returning(Unsent));
    case Take(c) => TakeKeepsMux(m, c);
    case Expire(c) => PhaseKeepsMux(m, c, Returning(Expired));
    case Leave(c) => PhaseKeepsMux(m, c, Returning(Lost(LossCode(m.calls[c].req.rpc))));
    case Remove(c) => RemoveKeepsMux(m, c);
    case Receive =>
    case Find => LookUpKeepsMux(m);
    case Hand => SendKeepsMux(m);
    case StopReader => StopKeepsMux(m);
    case Break(_, _) =>
    case StopServing =>
  }

  lemma LocalKeepsIds(conn: Conn, step: Local)
    requires IdsInv(conn.mux) && MuxInv(conn.mux)
    requires LocalEnabled(conn, step) && |LocalApply(conn, step).mux.calls| < IdSpace
    ensures IdsInv(LocalApply(conn, step).mux)
  {
    if step.Number? {
      NumberKeepsMux(conn.mux, step.rpc, step.params);
    }
  }

  // ----- where requests and responses come from -----

  lemma WrittenStays(conn: Conn, step: Local, r: Request)
    requires LocalEnabled(conn, step) && IsWritten(conn.mux, r)
    ensures IsWritten(LocalApply(conn, step).mux, r)
  {
    var m := conn.mux;
    var c :| 0 <= c < |m.calls| && m.calls[c].req == r && Written(m.calls[c]);
    assert LocalApply(conn, step).mux.calls[c].req == r;
  }

  lemma WriteIsWritten(conn: Conn, step: Local)
    requires step.Write? && LocalEnabled(conn, step)
    ensures IsWritten(LocalApply(conn, step).mux, conn.mux.calls[step.c].req)
  {
    assert LocalApply(conn, step).mux.calls[step.c].req == conn.mux.calls[step.c].req;
  }

  lemma LocalKeepsRequests(k: nat, conn: Conn, handlers: seq<Handler>, log: seq<Dispatched>, step: Local)
    requires LocalEnabled(conn, step) && Requests(k, conn, handlers, log)
    ensures Requests(k, LocalApply(conn, step), handlers, log)
  {
    var next := LocalApply(conn, step);
    forall r | IsWritten(conn.mux, r)
      ensures IsWritten(next.mux, r)
    {
      WrittenStays(conn, step, r);
    }
    if step.Write? {
      WriteIsWritten(conn, step);
    }
  }

  lemma LocalKeepsResponses(k: nat, conn: Conn, handlers: seq<Handler>, log: seq<Dispatched>, step: Local)
    requires LocalEnabled(conn, step) && MuxInv(conn.mux) && Responses(k, conn, handlers, log)
    ensures Responses(k, LocalApply(conn, step), handlers, log)
  {
    var next := LocalApply(conn, step);
    forall c | 0 <= c < |next.mux.calls|
      ensures CallProduced(k, log, next.mux.calls[c])
    {
      assert c < |conn.mux.calls| ==> CallProduced(k, log, conn.mux.calls[c]);
      CallStaysProduced(k, conn, log, step, c);
    }
    FramesStayProduced(k, conn, handlers, log, step);
    hide LocalApply, LocalEnabled, IsProduced, MuxInv;
  }

  /** Whatever answer the call holds or has returned came from the dispatcher. */
  ghost predicate CallProduced(k: nat, log: seq<Dispatched>, call: Call) {
    (call.mailbox.Some? ==> IsProduced(k, log, call.mailbox.value)) && AnswerProduced(k, log, call)
  }

  lemma CallStaysProduced(k: nat, conn: Conn, log: seq<Dispatched>, step: Local, c: nat)
    requires LocalEnabled(conn, step) && MailInv(conn.mux) && c < |LocalApply(conn, step).mux.calls|
    requires conn.mux.reader.Sending? ==> IsProduced(k, log, conn.mux.reader.resp)
    requires c < |conn.mux.calls| ==> CallProduced(k, log, conn.mux.calls[c])
    ensures CallProduced(k, log, LocalApply(conn, step).mux.calls[c])
  {
    hide IsProduced;
    var m := conn.mux;
    if step.Take? && step.c == c {
      var resp := m.calls[c].mailbox.value;
      assert resp == Response(m.calls[c].req.id, resp.outcome);
    }
  }

  lemma FramesStayProduced(k: nat, conn: Conn, handlers: seq<Handler>, log: seq<Dispatched>, step: Local)
    requires LocalEnabled(conn, step) && Responses(k, conn, handlers, log)
    ensures var next := LocalApply(conn, step);
            && (forall r :: r in next.toGateway ==> IsProduced(k, log, r))
            && (next.mux.reader.Got? || next.mux.reader.Sending? ==> IsProduced(k, log, next.mux.reader.resp))
  {
    hide IsProduced, AnswerProduced;
    assert forall r :: r in LocalApply(conn, step).toGateway ==> r in conn.toGateway;
  }

  // ----- how many of them there are -----

  /** An id that has been asked for belongs to a call that has written it. */
  lemma AskedIsWritten(k: nat, conn: Conn, handlers: seq<Handler>, log: seq<Dispatched>, id: string)
    requires Requests(k, conn, handlers, log) && id in Asked(k, conn, handlers, log)
    ensures exists r :: IsWritten(conn.mux, r) && r.id == id
  {
    hide IsWritten, Tally;
    TallyMember(conn.toAgent, RequestTag(), id);
    TallyMember(handlers, RunningTag(k), id);
    TallyMember(log, LogTag(k), id);
    if i :| 0 <= i < |conn.toAgent| && RequestTag()(conn.toAgent[i]) == Some(id) {
      assert conn.toAgent[i] in conn.toAgent;
    } else if i :| 0 <= i < |handlers| && RunningTag(k)(handlers[i]) == Some(id) {
      assert handlers[i] in handlers;
    } else {
      var i :| 0 <= i < |log| && LogTag(k)(log[i]) == Some(id);
      assert log[i] in log;
    }
  }

  lemma UnwrittenNotAsked(k: nat, conn: Conn, handlers: seq<Handler>, log: seq<Dispatched>, c: nat)
    requires DistinctIds(conn.mux) && Requests(k, conn, handlers, log)
    requires c < |conn.mux.calls| && !Written(conn.mux.calls[c])
    ensures conn.mux.calls[c].req.id !in Asked(k, conn, handlers, log)
  {
    var id := conn.mux.calls[c].req.id;
    if id in Asked(k, conn, handlers, log) {
      AskedIsWritten(k, conn, handlers, log, id);
    }
  }

  /** A delivered write asks for its id for the first time; no other Gateway step asks for anything. */
  lemma LocalAsks(k: nat, conn: Conn, handlers: seq<Handler>, log: seq<Dispatched>, step: Local)
    requires LocalEnabled(conn, step)
    ensures var before, after := Asked(k, conn, handlers, log), Asked(k, LocalApply(conn, step), handlers, log);
            if step.Write? && step.delivered then after == before + multiset{conn.mux.calls[step.c].req.id}
            else after <= before
  {
    if step.Write? && step.delivered {
      var r := conn.mux.calls[step.c].req;
      TallyConcat(conn.toAgent, [r], RequestTag());
      TallyOne(r, RequestTag());
    } else if step.Break? {
      TallyPrefix(conn.toAgent, step.requests, RequestTag());
    } else {
      assert LocalApply(conn, step).toAgent == conn.toAgent;
    }
  }

  lemma LocalKeepsAsked(k: nat, conn: Conn, handlers: seq<Handler>, log: seq<Dispatched>, step: Local)
    requires LocalEnabled(conn, step) && DistinctIds(conn.mux) && Requests(k, conn, handlers, log)
    requires AtMostOnce(Asked(k, conn, handlers, log))
    ensures AtMostOnce(Asked(k, LocalApply(conn, step), handlers, log))
  {
    LocalAsks(k, conn, handlers, log, step);
    if step.Write? && step.delivered {
      UnwrittenNotAsked(k, conn, handlers, log, step.c);
    }
  }

  lemma ReceiveMovesReply(k: nat, conn: Conn, handlers: seq<Handler>)
    requires LocalEnabled(conn, Receive)
    ensures Replies(k, LocalApply(conn, Receive), handlers) == Replies(k, conn, handlers)
  {
    var first, rest := conn.toGateway[0], conn.toGateway[1..];
    assert conn.toGateway == [first] + rest;
    TallyConcat([first], rest, ResponseTag());
    TallyOne(first, ResponseTag());
    assert ResponseTag()(first) == Some(first.id);
  }

  /** No Gateway step adds a response: one in the reader's hand is sent on, kept, or dropped. */
  lemma LocalAddsNoReply(k: nat, conn: Conn, handlers: seq<Handler>, step: Local)
    requires LocalEnabled(conn, step)
    ensures Replies(k, LocalApply(conn, step), handlers) <= Replies(k, conn, handlers)
  {
    if step.Receive? {
      ReceiveMovesReply(k, conn, handlers);
    } else if step.Break? {
      TallyPrefix(conn.toGateway, step.responses, ResponseTag());
    } else {
      var next := LocalApply(conn, step);
      ReaderAddsNoReply(conn, step);
      hide LocalApply, LocalEnabled, ReaderIds, Tally;
      assert next.toGateway == conn.toGateway;
    }
  }

  lemma ReaderAddsNoReply(conn: Conn, step: Local)
    requires LocalEnabled(conn, step) && !step.Receive? && !step.Break?
    ensures LocalApply(conn, step).toGateway == conn.toGateway
    ensures var m := LocalApply(conn, step).mux;
            ReaderIds(m.reader) + m.sent <= ReaderIds(conn.mux.reader) + conn.mux.sent
  {
  }

  lemma LocalKeepsConn(k: nat, conn: Conn, handlers: seq<Handler>, log: seq<Dispatched>, step: Local)
    requires ConnInv(k, conn, handlers, log)
    requires LocalEnabled(conn, step) && |LocalApply(conn, step).mux.calls| < IdSpace
    ensures ConnInv(k, LocalApply(conn, step), handlers, log)
  {
    LocalKeepsIds(conn, step);
    LocalKeepsMux(conn, step);
    LocalKeepsRequests(k, conn, handlers, log, step);
    LocalKeepsResponses(k, conn, handlers, log, step);
    LocalKeepsAsked(k, conn, handlers, log, step);
    LocalAddsNoReply(k, conn, handlers, step);
  }

  // ----- the Agent's steps -----

  /** A change to frames and goroutines that brings in nothing unaccounted for keeps the invariant. */
  lemma Transfer(j: nat, conn: Conn, next: Conn, handlers: seq<Handler>, pool: seq<Handler>, log: seq<Dispatched>)
    requires ConnInv(j, conn, handlers, log) && next.mux == conn.mux
    requires Asked(j, next, pool, log) <= Asked(j, conn, handlers, log)
    requires Replies(j, next, pool) <= Replies(j, conn, handlers)
    requires forall r :: r in next.toAgent ==> r in conn.toAgent
    requires forall r :: r in next.toGateway ==>
               r in conn.toGateway || exists h :: h in handlers && h.socket == j && h.answer == Some(r)
    requires forall g :: g in pool && g.socket == j ==>
               g in handlers || (g.answer.None? && g.req in conn.toAgent)
    ensures ConnInv(j, next, pool, log)
  {
    assert Requests(j, next, pool, log);
    assert Responses(j, next, pool, log);
  }

  /** Accepting a frame moves its id from the wire to a goroutine of the same socket. */
  lemma AcceptMovesRequest(s: State, k: nat, j: nat)
    requires Enabled(s, Accept(k)) && j < |s.conns|
    ensures var t := Apply(s, Accept(k));
            && Asked(j, t.conns[j], t.handlers, t.log) == Asked(j, s.conns[j], s.handlers, s.log)
            && Replies(j, t.conns[j], t.handlers) == Replies(j, s.conns[j], s.handlers)
  {
    AcceptConn(s, k, j);
    var first, rest := s.conns[k].toAgent[0], s.conns[k].toAgent[1..];
    hide Apply, Enabled, Tally, ReaderIds;
    FirstRequest(first, rest);
    BornTokens(s.handlers, Handler(k, first, None), j);
  }

  /** What accepting a frame does to the sockets and goroutines. */
  lemma AcceptConn(s: State, k: nat, j: nat)
    requires Enabled(s, Accept(k)) && j < |s.conns|
    ensures var t := Apply(s, Accept(k));
            var first, rest := s.conns[k].toAgent[0], s.conns[k].toAgent[1..];
            && s.conns[k].toAgent == [first] + rest
            && t.handlers == s.handlers + [Handler(k, first, None)] && t.log == s.log
            && t.conns[j].toAgent == (if j == k then rest else s.conns[j].toAgent)
            && t.conns[j].toGateway == s.conns[j].toGateway && t.conns[j].mux == s.conns[j].mux
  {
  }

  lemma FirstRequest(first: Request, rest: seq<Request>)
    ensures Tally([first] + rest, RequestTag()) == multiset{first.id} + Tally(rest, RequestTag())
  {
    TallyConcat([first], rest, RequestTag());
    TallyOne(first, RequestTag());
  }

  /** A new goroutine holds one request of its socket and no reply. */
  lemma BornTokens(handlers: seq<Handler>, h: Handler, j: nat)
    requires h.answer.None?
    ensures var born := if h.socket == j then multiset{h.req.id} else multiset{};
            Tally(handlers + [h], RunningTag(j)) == Tally(handlers, RunningTag(j)) + born
    ensures Tally(handlers + [h], ReplyingTag(j)) == Tally(handlers, ReplyingTag(j))
  {
    TallyConcat(handlers, [h], RunningTag(j));
    TallyOne(h, RunningTag(j));
    TallyConcat(handlers, [h], ReplyingTag(j));
    TallyOne(h, ReplyingTag(j));
    hide Tally;
  }

  lemma AcceptKeeps(s: State, k: nat, j: nat)
    requires Inv(s) && Enabled(s, Accept(k)) && j < |s.conns|
    ensures ConnInv(j, Apply(s, Accept(k)).conns[j], Apply(s, Accept(k)).handlers, s.log)
  {
    hide ConnInv, Asked, Replies;
    var t := Apply(s, Accept(k));
    AcceptMovesRequest(s, k, j);
    Transfer(j, s.conns[j], t.conns[j], s.handlers, t.handlers, s.log);
  }

  /** Dispatching moves the id from a goroutine to the log and creates the one reply for it. */
  lemma HandleMovesRequest(s: State, h: nat, handled: HandlerResult, j: nat)
    requires Enabled(s, Handle(h, handled)) && j < |s.conns|
    ensures var t := Apply(s, Handle(h, handled));
            var born := if s.handlers[h].socket == j then multiset{s.handlers[h].req.id} else multiset{};
            && Asked(j, s.conns[j], t.handlers, t.log) == Asked(j, s.conns[j], s.handlers, s.log)
            && Replies(j, s.conns[j], t.handlers) == Replies(j, s.conns[j], s.handlers) + born
            && Dispatches(j, t.log) == Dispatches(j, s.log) + born
  {
    hide Tally;
    var t := Apply(s, Handle(h, handled));
    var e := t.log[|s.log|];
    HandleMovesReply(s.handlers, h, t.handlers[h], j);
    TallyConcat(s.log, [e], LogTag(j));
    TallyOne(e, LogTag(j));
    assert t.handlers[h].answer.value.id == s.handlers[h].req.id;
  }

  lemma HandleMovesReply(handlers: seq<Handler>, h: nat, after: Handler, j: nat)
    requires h < |handlers| && handlers[h].answer.None? && after.answer.Some? && after.socket == handlers[h].socket
    ensures Tally(handlers, RunningTag(j)) == Tally(handlers[h := after], RunningTag(j)) + One(RunningTag(j)(handlers[h]))
    ensures Tally(handlers[h := after], ReplyingTag(j)) == Tally(handlers, ReplyingTag(j)) + One(ReplyingTag(j)(after))
  {
    TallyReplace(handlers, h, after, RunningTag(j));
    TallyReplace(handlers, h, after, ReplyingTag(j));
  }

  lemma LongerLog(j: nat, log: seq<Dispatched>, e: Dispatched, r: Response)
    requires IsProduced(j, log, r)
    ensures IsProduced(j, log + [e], r)
  {
    var d :| d in log && d.socket == j && d.resp == r;
    assert d in log + [e];
  }

  lemma HandleKeepsResponses(s: State, h: nat, handled: HandlerResult, j: nat)
    requires Inv(s) && Enabled(s, Handle(h, handled)) && j < |s.conns|
    ensures Responses(j, s.conns[j], Apply(s, Handle(h, handled)).handlers, Apply(s, Handle(h, handled)).log)
  {
    var t := Apply(s, Handle(h, handled));
    var e := t.log[|s.log|];
    assert ConnInv(j, s.conns[j], s.handlers, s.log);
    forall r | IsProduced(j, s.log, r)
      ensures IsProduced(j, t.log, r)
    {
      LongerLog(j, s.log, e, r);
    }
    assert e in t.log;
    assert forall g :: g in t.handlers ==> g in s.handlers || g == t.handlers[h];
  }

  lemma HandleKeeps(s: State, h: nat, handled: HandlerResult, j: nat)
    requires Inv(s) && Enabled(s, Handle(h, handled)) && j < |s.conns|
    ensures ConnInv(j, s.conns[j], Apply(s, Handle(h, handled)).handlers, Apply(s, Handle(h, handled)).log)
  {
    hide Requests, Responses, MuxInv, IdsInv, Asked, Replies, Dispatches, Dispatch;
    assert ConnInv(j, s.conns[j], s.handlers, s.log);
    HandleKeepsRequests(s.methods, s.conns[j], s.handlers, s.log, h, handled, j);
    HandleKeepsResponses(s, h, handled, j);
    HandleMovesRequest(s, h, handled, j);
  }

  lemma HandleKeepsRequests(methods: set<string>, conn: Conn, handlers: seq<Handler>, log: seq<Dispatched>, h: nat,
                            handled: HandlerResult, j: nat)
    requires Requests(j, conn, handlers, log) && h < |handlers|
    ensures var resp := Dispatch(methods, handlers[h].req, handled);
            Requests(j, conn, handlers[h := handlers[h].(answer := Some(resp))],
                     log + [Dispatched(handlers[h].socket, handlers[h].req, handled, resp)])
  {
    hide IsWritten;
    assert handlers[h] in handlers;
    var resp := Dispatch(methods, handlers[h].req, handled);
    var after := handlers[h := handlers[h].(answer := Some(resp))];
    assert forall g :: g in after ==> g in handlers || g == after[h];
  }

  /** A goroutine that ends takes at most its own tokens with it. */
  lemma EndDropsTokens(handlers: seq<Handler>, h: nat, j: nat)
    requires h < |handlers|
    ensures Tally(Without(handlers, h), RunningTag(j)) <= Tally(handlers, RunningTag(j))
    ensures Tally(Without(handlers, h), ReplyingTag(j)) + One(ReplyingTag(j)(handlers[h])) == Tally(handlers, ReplyingTag(j))
  {
    TallyWithout(handlers, h, RunningTag(j));
    TallyWithout(handlers, h, ReplyingTag(j));
    TallyOne(handlers[h], ReplyingTag(j));
  }

  lemma ReplyMovesToken(s: State, h: nat, ok: bool, delivered: bool, j: nat)
    requires Enabled(s, Reply(h, ok, delivered)) && j < |s.conns|
    ensures var t := Apply(s, Reply(h, ok, delivered));
            && Asked(j, t.conns[j], t.handlers, t.log) <= Asked(j, s.conns[j], s.handlers, s.log)
            && Replies(j, t.conns[j], t.handlers) <= Replies(j, s.conns[j], s.handlers)
  {
    hide Tally, Without, ReaderIds;
    var t := Apply(s, Reply(h, ok, delivered));
    var resp := s.handlers[h].answer.value;
    EndDropsTokens(s.handlers, h, j);
    LastReply(s.conns[j].toGateway, resp);
    ReplyConn(s, h, ok, delivered, j);
    var mine := s.handlers[h].socket == j;
    assert One(ReplyingTag(j)(s.handlers[h])) == if mine then multiset{resp.id} else multiset{};
    hide Apply, Enabled, One;
  }

  /** What a reply does to a socket: at most one frame more on the goroutine's own one. */
  lemma ReplyConn(s: State, h: nat, ok: bool, delivered: bool, j: nat)
    requires Enabled(s, Reply(h, ok, delivered)) && j < |s.conns|
    ensures var t := Apply(s, Reply(h, ok, delivered));
            && t.handlers == Without(s.handlers, h) && t.log == s.log
            && t.conns[j].toAgent == s.conns[j].toAgent && t.conns[j].mux == s.conns[j].mux
            && t.conns[j].toGateway == if s.handlers[h].socket == j && delivered
                                       then s.conns[j].toGateway + [s.handlers[h].answer.value]
                                       else s.conns[j].toGateway
  {
    hide Without, WriteOutcome;
    assert s.conns[j].toGateway + [] == s.conns[j].toGateway;
  }

  lemma LastReply(frames: seq<Response>, resp: Response)
    ensures Tally(frames + [resp], ResponseTag()) == Tally(frames, ResponseTag()) + multiset{resp.id}
  {
    TallyConcat(frames, [resp], ResponseTag());
    TallyOne(resp, ResponseTag());
    hide Tally;
  }

  /** The only frame a reply can add to a socket is the answer of one of its own goroutines. */
  lemma ReplyFrames(s: State, h: nat, ok: bool, delivered: bool, j: nat, r: Response)
    requires Enabled(s, Reply(h, ok, delivered)) && j < |s.conns|
    requires r in Apply(s, Reply(h, ok, delivered)).conns[j].toGateway
    ensures r in s.conns[j].toGateway || exists g :: g in s.handlers && g.socket == j && g.answer == Some(r)
  {
    ReplyConn(s, h, ok, delivered, j);
    if r !in s.conns[j].toGateway {
      assert s.handlers[h] in s.handlers && s.handlers[h].socket == j && s.handlers[h].answer == Some(r);
    }
  }

  lemma ReplyKeeps(s: State, h: nat, ok: bool, delivered: bool, j: nat)
    requires Inv(s) && Enabled(s, Reply(h, ok, delivered)) && j < |s.conns|
    ensures var t := Apply(s, Reply(h, ok, delivered)); ConnInv(j, t.conns[j], t.handlers, t.log)
  {
    hide ConnInv, Asked, Replies;
    var t := Apply(s, Reply(h, ok, delivered));
    ReplyConn(s, h, ok, delivered, j);
    forall r | r in t.conns[j].toGateway
      ensures r in s.conns[j].toGateway || exists g :: g in s.handlers && g.socket == j && g.answer == Some(r)
    {
      ReplyFrames(s, h, ok, delivered, j, r);
    }
    ReplyMovesToken(s, h, ok, delivered, j);
    assert forall g :: g in t.handlers ==> g in s.handlers;
    hide *;
    Transfer(j, s.conns[j], t.conns[j], s.handlers, t.handlers, s.log);
  }

  lemma AbandonKeeps(s: State, h: nat, j: nat)
    requires Inv(s) && Enabled(s, Abandon(h)) && j < |s.conns|
    ensures ConnInv(j, s.conns[j], Without(s.handlers, h), s.log)
  {
    hide ConnInv, Asked, Replies;
    AbandonMovesNothing(s.conns[j], s.handlers, h, s.log, j);
    assert forall g :: g in Without(s.handlers, h) ==> g in s.handlers;
    hide Without;
    Transfer(j, s.conns[j], s.conns[j], s.handlers, Without(s.handlers, h), s.log);
  }

  lemma AbandonMovesNothing(conn: Conn, handlers: seq<Handler>, h: nat, log: seq<Dispatched>, j: nat)
    requires h < |handlers|
    ensures Asked(j, conn, Without(handlers, h), log) <= Asked(j, conn, handlers, log)
    ensures Replies(j, conn, Without(handlers, h)) <= Replies(j, conn, handlers)
  {
    EndDropsTokens(handlers, h, j);
    hide Tally, Without, ReaderIds;
  }

  lemma DialKeeps(s: State)
    requires Inv(s)
    ensures var n := |s.conns|; ConnInv(n, Apply(s, Dial).conns[n], s.handlers, s.log)
  {
    var n := |s.conns|;
    var conn := Apply(s, Dial).conns[n];
    TallyNone(s.handlers, RunningTag(n));
    TallyNone(s.handlers, ReplyingTag(n));
    TallyNone(s.log, LogTag(n));
    assert Asked(n, conn, s.handlers, s.log) == multiset{};
    assert Replies(n, conn, s.handlers) == multiset{};
  }

  lemma StepKeepsConn(s: State, step: Step, j: nat)
    requires Inv(s) && Enabled(s, step) && WithinIdSpace(Apply(s, step)) && j < |Apply(s, step).conns|
    ensures var t := Apply(s, step); ConnInv(j, t.conns[j], t.handlers, t.log)
  {
    hide ConnInv;
    match step
    case Dial => if j == |s.conns| { DialKeeps(s); }
    case On(k, local) =>
      if j == k {
        assert |Apply(s, step).conns[k].mux.calls| < IdSpace;
        LocalKeepsConn(k, s.conns[k], s.handlers, s.log, local);
      }
    case Accept(k) => AcceptKeeps(s, k, j);
    case Handle(h, handled) => HandleKeeps(s, h, handled, j);
    case Reply(h, ok, delivered) => ReplyKeeps(s, h, ok, delivered, j);
    case Abandon(h) => AbandonKeeps(s, h, j);
  }

  /** When the reader is about to send, the slot is free: a second response for one id would break the counting
      laws. */
  lemma SlotIsFree(k: nat, conn: Conn, handlers: seq<Handler>, log: seq<Dispatched>)
    requires ConnInv(k, conn, handlers, log)
    ensures conn.mux.reader.Sending? ==> CanSend(conn.mux)
    ensures AtMostOnce(conn.mux.sent)
  {
    hide Tally, Requests, Responses;
    var m := conn.mux;
    forall id
      ensures ReaderIds(m.reader)[id] + m.sent[id] <= 1
    {
      assert Replies(k, conn, handlers)[id] <= Dispatches(k, log)[id];
      assert Asked(k, conn, handlers, log)[id] <= 1;
    }
  }

  /** Every step keeps the invariant, as long as the id counters do not wrap. */
  lemma StepKeeps(s: State, step: Step)
    requires Inv(s) && Enabled(s, step) && WithinIdSpace(Apply(s, step))
    ensures Inv(Apply(s, step))
  {
    var t := Apply(s, step);
    forall j | 0 <= j < |t.conns|
      ensures ConnInv(j, t.conns[j], t.handlers, t.log)
    {
      StepKeepsConn(s, step, j);
    }
    PoolSockets(s, step);
  }

  /** Goroutines and log entries only ever name sockets that exist. */
  lemma PoolSockets(s: State, step: Step)
    requires Enabled(s, step)
    requires forall h :: h in s.handlers ==> h.socket < |s.conns|
    requires forall e :: e in s.log ==> e.socket < |s.conns|
    ensures forall h :: h in Apply(s, step).handlers ==> h.socket < |Apply(s, step).conns|
    ensures forall e :: e in Apply(s, step).log ==> e.socket < |Apply(s, step).conns|
  {
    if step.Handle? {
      assert s.handlers[step.h] in s.handlers;
    }
  }

  lemma CallsGrow(s: State, step: Step)
    requires Enabled(s, step) && WithinIdSpace(Apply(s, step))
    ensures WithinIdSpace(s)
  {
    var t := Apply(s, step);
    forall k | 0 <= k < |s.conns|
      ensures |s.conns[k].mux.calls| < IdSpace
    {
      assert |s.conns[k].mux.calls| <= |t.conns[k].mux.calls|;
    }
  }

  lemma {:induction false} RunGrows(s: State, steps: seq<Step>)
    requires IsRun(s, steps) && WithinIdSpace(After(s, steps))
    ensures WithinIdSpace(s)
    decreases |steps|
  {
    if steps != [] {
      RunGrows(Apply(s, steps[0]), steps[1..]);
      CallsGrow(s, steps[0]);
    }
  }

  lemma {:induction false} RunKeeps(s: State, steps: seq<Step>)
    requires Inv(s) && IsRun(s, steps) && WithinIdSpace(After(s, steps))
    ensures Inv(After(s, steps))
    decreases |steps|
  {
    if steps != [] {
      RunGrows(Apply(s, steps[0]), steps[1..]);
      StepKeeps(s, steps[0]);
      RunKeeps(Apply(s, steps[0]), steps[1..]);
    }
  }

  /** Every state the system can reach satisfies the invariant. */
  lemma ReachableInv(methods: set<string>, steps: seq<Step>)
    requires IsRun(Initial(methods), steps) && WithinIdSpace(After(Initial(methods), steps))
    ensures Inv(After(Initial(methods), steps))
  {
    RunKeeps(Initial(methods), steps);
  }
}
