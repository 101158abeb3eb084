/** That no answer is lost: while a connection is up and no goroutine gave up on its request, each call that waits
    has exactly one copy of its id somewhere between the wire and its own hands, and the copy can always move on. */
module RpcMuxDelivery {
  import opened Wrappers
  import opened Wire
  import opened RpcMux
  import opened RpcMuxSafety
  import opened RpcMuxTheorems
  import opened Counting

  // ----- where the ids are -----

  /** The ids of socket `k` on their way: requests on the wire, goroutines at work, goroutines with an answer in
      hand, answers on the wire, the answer in the reader's hand. */
  function Flight(k: nat, conn: Conn, handlers: seq<Handler>): multiset<string> {
    Tally(conn.toAgent, RequestTag()) + Tally(handlers, RunningTag(k)) + Tally(handlers, ReplyingTag(k))
    + Tally(conn.toGateway, ResponseTag()) + ReaderIds(conn.mux.reader)
  }

  predicate HasAnswer(call: Call) {
    (call.phase.Returning? || call.phase.Finished?) && call.phase.ret.Answered?
  }

  /** A call that waits for its answer, or has returned it. */
  predicate Awaits(call: Call) {
    call.phase.Waiting? || HasAnswer(call)
  }

  /** The copies that have come in: in the channel's slot, or returned. */
  function Arrived(call: Call): nat {
    (if call.mailbox.Some? then 1 else 0) + (if HasAnswer(call) then 1 else 0)
  }

  /** Each such call has exactly one copy of its id, counting all stations. */
  ghost predicate Conserved(k: nat, conn: Conn, handlers: seq<Handler>) {
    forall c :: 0 <= c < |conn.mux.calls| && Awaits(conn.mux.calls[c]) ==>
      Flight(k, conn, handlers)[conn.mux.calls[c].req.id] + Arrived(conn.mux.calls[c]) == 1
  }

  ghost predicate ConservedAt(s: State, k: nat) {
    k < |s.conns| && s.conns[k].up ==>
      s.conns[k].serving && !s.conns[k].mux.reader.Stopped? && Conserved(k, s.conns[k], s.handlers)
  }

  /** What the two counting laws of the invariant have to do with it. */
  lemma FlightSum(k: nat, conn: Conn, handlers: seq<Handler>, log: seq<Dispatched>)
    ensures Flight(k, conn, handlers) + Dispatches(k, log) + conn.mux.sent
         == Asked(k, conn, handlers, log) + Replies(k, conn, handlers)
  {
    hide Tally, ReaderIds, Dispatches;
  }

  lemma FlightAt(k: nat, conn: Conn, handlers: seq<Handler>, log: seq<Dispatched>, id: string)
    ensures Flight(k, conn, handlers)[id] + Dispatches(k, log)[id] + conn.mux.sent[id]
         == Asked(k, conn, handlers, log)[id] + Replies(k, conn, handlers)[id]
  {
    FlightSum(k, conn, handlers, log);
    hide Flight, Dispatches, Asked, Replies;
    assert (Flight(k, conn, handlers) + Dispatches(k, log) + conn.mux.sent)[id]
        == (Asked(k, conn, handlers, log) + Replies(k, conn, handlers))[id];
  }

  /** What is gained on one side is gained on the other. */
  lemma Cancel(after: multiset<string>, before: multiset<string>, next: multiset<string>, last: multiset<string>,
               x: multiset<string>)
    requires after + last == before + next
    ensures next == last + x ==> after == before + x
    ensures next + x == last ==> after + x == before
  {
    forall id
      ensures after[id] + last[id] == before[id] + next[id]
    {
      assert (after + last)[id] == (before + next)[id];
    }
    if next == last + x {
      assert forall id :: next[id] == last[id] + x[id];
      assert forall id :: after[id] == (before + x)[id];
    }
    if next + x == last {
      assert forall id :: last[id] == next[id] + x[id];
      assert forall id :: (after + x)[id] == before[id];
    }
  }

  // ----- the Gateway's steps -----

  /** A step that takes an id out of the reader's hand: into a channel, or away if nobody waits for it. */
  predicate LeavesReader(m: Mux, step: Local) {
    (step.Hand? && m.reader.Sending?) || (step.Find? && m.reader.Got? && m.reader.resp.id !in m.pending)
  }

  /** What a step of the Gateway does to the ids on their way. */
  lemma LocalFlight(k: nat, conn: Conn, handlers: seq<Handler>, step: Local)
    requires LocalEnabled(conn, step) && !step.Break?
    ensures var before, after := Flight(k, conn, handlers), Flight(k, LocalApply(conn, step), handlers);
            if step.Write? && step.delivered then after == before + multiset{conn.mux.calls[step.c].req.id}
            else if LeavesReader(conn.mux, step) then after + multiset{conn.mux.reader.resp.id} == before
            else after == before
  {
    hide Flight;
    var next := LocalApply(conn, step);
    var before, after := Flight(k, conn, handlers), Flight(k, next, handlers);
    FlightFrames(k, conn, next, handlers);
    LocalFrames(conn, step);
    if step.Write? && step.delivered {
      Cancel(after, before, Framed(next), Framed(conn), multiset{conn.mux.calls[step.c].req.id});
    } else if LeavesReader(conn.mux, step) {
      Cancel(after, before, Framed(next), Framed(conn), multiset{conn.mux.reader.resp.id});
    } else {
      Cancel(after, before, Framed(next), Framed(conn), multiset{});
    }
    hide Framed, LocalApply, LocalEnabled, LeavesReader;
  }

  /** The same of the frames and the reader alone. */
  lemma LocalFrames(conn: Conn, step: Local)
    requires LocalEnabled(conn, step) && !step.Break?
    ensures var next := LocalApply(conn, step);
            if step.Write? && step.delivered then Framed(next) == Framed(conn) + multiset{conn.mux.calls[step.c].req.id}
            else if LeavesReader(conn.mux, step) then Framed(next) + multiset{conn.mux.reader.resp.id} == Framed(conn)
            else Framed(next) == Framed(conn)
  {
    hide Tally, ReaderIds, RequestTag, ResponseTag;
    if step.Receive? {
      ReceiveFlight(conn);
      hide LocalApply, LocalEnabled;
    } else if step.Write? && step.delivered {
      ReaderStep(conn, step);
      var r := conn.mux.calls[step.c].req;
      hide LocalApply, LocalEnabled;
      LastRequest(conn.toAgent, r);
    } else {
      ReaderStep(conn, step);
      hide LocalApply, LocalEnabled;
    }
  }

  /** With the same goroutines, what is on its way changes as the frames and the reader do. */
  lemma FlightFrames(k: nat, conn: Conn, next: Conn, handlers: seq<Handler>)
    ensures Flight(k, next, handlers) + Framed(conn) == Flight(k, conn, handlers) + Framed(next)
  {
    hide Tally, ReaderIds;
  }

  function Framed(conn: Conn): multiset<string> {
    Tally(conn.toAgent, RequestTag()) + Tally(conn.toGateway, ResponseTag()) + ReaderIds(conn.mux.reader)
  }

  lemma LastRequest(frames: seq<Request>, r: Request)
    ensures Tally(frames + [r], RequestTag()) == Tally(frames, RequestTag()) + multiset{r.id}
  {
    TallyConcat(frames, [r], RequestTag());
    TallyOne(r, RequestTag());
    hide Tally;
  }

  lemma ReceiveFlight(conn: Conn)
    requires LocalEnabled(conn, Receive)
    ensures var next := LocalApply(conn, Receive);
            && next.toAgent == conn.toAgent && ReaderIds(conn.mux.reader) == multiset{}
            && Tally(conn.toGateway, ResponseTag()) == Tally(next.toGateway, ResponseTag()) + ReaderIds(next.mux.reader)
  {
    var first, rest := conn.toGateway[0], conn.toGateway[1..];
    assert conn.toGateway == [first] + rest;
    TallyConcat([first], rest, ResponseTag());
    TallyOne(first, ResponseTag());
    assert ResponseTag()(first) == Some(first.id);
    hide Tally;
  }

  lemma ReaderStep(conn: Conn, step: Local)
    requires LocalEnabled(conn, step) && !step.Break? && !step.Receive?
    ensures var next := LocalApply(conn, step);
            && next.toGateway == conn.toGateway
            && next.toAgent == (if step.Write? && step.delivered then conn.toAgent + [conn.mux.calls[step.c].req]
                                else conn.toAgent)
            && (if LeavesReader(conn.mux, step) then
                  ReaderIds(next.mux.reader) == multiset{} && ReaderIds(conn.mux.reader) == multiset{conn.mux.reader.resp.id}
                else ReaderIds(next.mux.reader) == ReaderIds(conn.mux.reader))
  {
  }

  /** An id that has not been written is nowhere. */
  lemma UnwrittenIsNowhere(k: nat, conn: Conn, handlers: seq<Handler>, log: seq<Dispatched>, c: nat)
    requires ConnInv(k, conn, handlers, log) && c < |conn.mux.calls| && !Written(conn.mux.calls[c])
    ensures Flight(k, conn, handlers)[conn.mux.calls[c].req.id] == 0 && conn.mux.calls[c].mailbox.None?
  {
    var id := conn.mux.calls[c].req.id;
    UnwrittenNotAsked(k, conn, handlers, log, c);
    FlightSum(k, conn, handlers, log);
    hide Flight, Requests, Responses, Tally, ReaderIds;
    assert id !in Dispatches(k, log);
    assert Replies(k, conn, handlers)[id] <= Dispatches(k, log)[id];
    SentIsReplied(k, conn, handlers, id);
  }

  lemma SentIsReplied(k: nat, conn: Conn, handlers: seq<Handler>, id: string)
    ensures conn.mux.sent[id] <= Replies(k, conn, handlers)[id]
  {
  }

  /** What the step does to the call's own end. */
  lemma LocalArrived(conn: Conn, step: Local, c: nat)
    requires MuxInv(conn.mux) && LocalEnabled(conn, step) && LocalApply(conn, step).up
    requires c < |LocalApply(conn, step).mux.calls| && Awaits(LocalApply(conn, step).mux.calls[c])
    ensures c < |conn.mux.calls|
    ensures var before, after := conn.mux.calls[c], LocalApply(conn, step).mux.calls[c];
            && after.req.id == before.req.id
            && (if step.Write? && step.c == c then
                  step.delivered && !Written(before) && Arrived(after) == if before.mailbox.Some? then 1 else 0
                else
                  Awaits(before) && Arrived(after) == Arrived(before) +
                  if step.Hand? && before.req.id == conn.mux.reader.resp.id then 1 else 0)
  {
    hide PendingInv, ExitInv;
    if step.Hand? {
      assert forall d :: 0 <= d < |conn.mux.calls| && conn.mux.calls[d].req.id == conn.mux.reader.resp.id ==>
          d == conn.mux.reader.channel;
    }
    hide DistinctIds, MailInv;
  }

  /** One step of the Gateway, seen by one call. */
  lemma LocalConservesCall(k: nat, conn: Conn, handlers: seq<Handler>, log: seq<Dispatched>, step: Local, c: nat)
    requires ConnInv(k, conn, handlers, log) && Conserved(k, conn, handlers)
    requires LocalEnabled(conn, step) && LocalApply(conn, step).up
    requires c < |LocalApply(conn, step).mux.calls| && Awaits(LocalApply(conn, step).mux.calls[c])
    ensures var call := LocalApply(conn, step).mux.calls[c];
            Flight(k, LocalApply(conn, step), handlers)[call.req.id] + Arrived(call) == 1
  {
    LocalArrived(conn, step, c);
    assert !step.Break?;
    LocalFlight(k, conn, handlers, step);
    if step.Write? && step.c == c {
      UnwrittenIsNowhere(k, conn, handlers, log, c);
    } else if step.Write? {
      assert conn.mux.calls[step.c].req.id != conn.mux.calls[c].req.id;
    } else if LeavesReader(conn.mux, step) && step.Find? {
      DroppedIsNotAwaited(k, conn, handlers, c);
    }
    hide Flight, Arrived, LocalApply, LocalEnabled, ConnInv;
  }

  /** A response that finds nobody in `pending` is not what a call waits for. */
  lemma DroppedIsNotAwaited(k: nat, conn: Conn, handlers: seq<Handler>, c: nat)
    requires PendingInv(conn.mux) && Conserved(k, conn, handlers) && LeavesReader(conn.mux, Find)
    requires c < |conn.mux.calls| && Awaits(conn.mux.calls[c])
    ensures conn.mux.calls[c].req.id != conn.mux.reader.resp.id
  {
    ReaderHolds(k, conn, handlers);
    hide Flight;
  }

  lemma ReaderHolds(k: nat, conn: Conn, handlers: seq<Handler>)
    requires conn.mux.reader.Got? || conn.mux.reader.Sending?
    ensures Flight(k, conn, handlers)[conn.mux.reader.resp.id] >= 1
  {
  }

  lemma LocalConserves(k: nat, conn: Conn, handlers: seq<Handler>, log: seq<Dispatched>, step: Local)
    requires ConnInv(k, conn, handlers, log) && Conserved(k, conn, handlers)
    requires LocalEnabled(conn, step) && LocalApply(conn, step).up
    ensures Conserved(k, LocalApply(conn, step), handlers)
  {
    hide ConnInv, Flight, Arrived;
    var next := LocalApply(conn, step);
    forall c | 0 <= c < |next.mux.calls| && Awaits(next.mux.calls[c])
      ensures Flight(k, next, handlers)[next.mux.calls[c].req.id] + Arrived(next.mux.calls[c]) == 1
    {
      LocalConservesCall(k, conn, handlers, log, step, c);
    }
  }

  // ----- the Agent's steps -----

  /** The counting laws move in step, so what is on its way stays. */
  lemma SameFlight(k: nat, conn: Conn, next: Conn, handlers: seq<Handler>, pool: seq<Handler>, log: seq<Dispatched>,
                   longer: seq<Dispatched>, born: multiset<string>)
    requires Asked(k, next, pool, longer) == Asked(k, conn, handlers, log) && next.mux.sent == conn.mux.sent
    requires Replies(k, next, pool) == Replies(k, conn, handlers) + born
    requires Dispatches(k, longer) == Dispatches(k, log) + born
    ensures Flight(k, next, pool) == Flight(k, conn, handlers)
  {
    hide Flight, Dispatches, Asked, Replies;
    forall id
      ensures Flight(k, next, pool)[id] == Flight(k, conn, handlers)[id]
    {
      FlightAt(k, conn, handlers, log, id);
      FlightAt(k, next, pool, longer, id);
      assert Replies(k, next, pool)[id] == Replies(k, conn, handlers)[id] + born[id];
      assert Dispatches(k, longer)[id] == Dispatches(k, log)[id] + born[id];
    }
  }

  lemma AcceptFlight(s: State, k: nat, j: nat)
    requires Enabled(s, Accept(j)) && k < |s.conns|
    ensures var t := Apply(s, Accept(j)); Flight(k, t.conns[k], t.handlers) == Flight(k, s.conns[k], s.handlers)
  {
    var t := Apply(s, Accept(j));
    AcceptMovesRequest(s, j, k);
    assert t.log == s.log && t.conns[k].mux == s.conns[k].mux;
    hide *;
    SameFlight(k, s.conns[k], t.conns[k], s.handlers, t.handlers, s.log, t.log, multiset{});
  }

  lemma HandleFlight(s: State, k: nat, h: nat, handled: HandlerResult)
    requires Enabled(s, Handle(h, handled)) && k < |s.conns|
    ensures var t := Apply(s, Handle(h, handled)); Flight(k, s.conns[k], t.handlers) == Flight(k, s.conns[k], s.handlers)
  {
    HandleMovesRequest(s, h, handled, k);
    var t := Apply(s, Handle(h, handled));
    var born := if s.handlers[h].socket == k then multiset{s.handlers[h].req.id} else multiset{};
    hide *;
    SameFlight(k, s.conns[k], s.conns[k], s.handlers, t.handlers, s.log, t.log, born);
  }

  /** A goroutine of another socket has nothing of this one. */
  lemma StrangerEnds(handlers: seq<Handler>, h: nat, k: nat)
    requires h < |handlers| && handlers[h].socket != k
    ensures Tally(Without(handlers, h), RunningTag(k)) == Tally(handlers, RunningTag(k))
    ensures Tally(Without(handlers, h), ReplyingTag(k)) == Tally(handlers, ReplyingTag(k))
  {
    TallyWithout(handlers, h, RunningTag(k));
    TallyWithout(handlers, h, ReplyingTag(k));
    TallyOne(handlers[h], RunningTag(k));
    TallyOne(handlers[h], ReplyingTag(k));
    hide Tally;
  }

  /** A goroutine with an answer has only that. */
  lemma AnsweredEnds(handlers: seq<Handler>, h: nat)
    requires h < |handlers| && handlers[h].answer.Some?
    ensures var k := handlers[h].socket;
            && Tally(Without(handlers, h), RunningTag(k)) == Tally(handlers, RunningTag(k))
            && Tally(Without(handlers, h), ReplyingTag(k)) + multiset{handlers[h].answer.value.id}
               == Tally(handlers, ReplyingTag(k))
  {
    var k := handlers[h].socket;
    TallyWithout(handlers, h, RunningTag(k));
    TallyWithout(handlers, h, ReplyingTag(k));
    TallyOne(handlers[h], RunningTag(k));
    TallyOne(handlers[h], ReplyingTag(k));
    hide Tally;
  }

  /** A reply that leaves the socket up has put its frame on the wire. */
  lemma ReplyFlight(s: State, k: nat, h: nat, ok: bool, delivered: bool)
    requires Enabled(s, Reply(h, ok, delivered)) && k < |s.conns| && Apply(s, Reply(h, ok, delivered)).conns[k].up
    ensures var t := Apply(s, Reply(h, ok, delivered)); Flight(k, t.conns[k], t.handlers) == Flight(k, s.conns[k], s.handlers)
  {
    var t := Apply(s, Reply(h, ok, delivered));
    ReplyConn(s, h, ok, delivered, k);
    if s.handlers[h].socket == k {
      assert delivered;
      AnsweredEnds(s.handlers, h);
      LastReply(s.conns[k].toGateway, s.handlers[h].answer.value);
    } else {
      StrangerEnds(s.handlers, h, k);
    }
    hide Apply, Enabled, Tally, Without, ReaderIds, RequestTag, ResponseTag, RunningTag, ReplyingTag;
  }

  /** A goroutine of socket `k` gives up: it panics, or its answer does not encode. */
  predicate GivesUp(s: State, k: nat, step: Step)
    requires Enabled(s, step)
  {
    step.Abandon? && s.handlers[step.h].socket == k
  }

  lemma AgentFlight(s: State, k: nat, step: Step)
    requires Enabled(s, step) && !step.Dial? && !step.On? && !GivesUp(s, k, step)
    requires k < |s.conns| && Apply(s, step).conns[k].up
    ensures var t := Apply(s, step);
            && Flight(k, t.conns[k], t.handlers) == Flight(k, s.conns[k], s.handlers)
            && t.conns[k].mux == s.conns[k].mux && t.conns[k].serving == s.conns[k].serving && s.conns[k].up
  {
    match step
    case Accept(j) => AcceptFlight(s, k, j); hide Flight;
    case Handle(h, handled) => HandleFlight(s, k, h, handled); hide Flight;
    case Reply(h, ok, delivered) => ReplyFlight(s, k, h, ok, delivered); hide Flight;
    case Abandon(h) => StrangerEnds(s.handlers, h, k); hide Tally, Without;
  }

  // ----- every run -----

  lemma StepConserves(s: State, step: Step, k: nat)
    requires Inv(s) && Enabled(s, step) && ConservedAt(s, k) && !GivesUp(s, k, step)
    ensures ConservedAt(Apply(s, step), k)
  {
    hide Conserved, Flight, Inv;
    var t := Apply(s, step);
    if k < |t.conns| && t.conns[k].up {
      if step.Dial? {
        if k == |s.conns| {
          EmptyConserved(k, t.conns[k], t.handlers);
        }
      } else if step.On? {
        if step.k == k {
          OnConserves(s, k, step.local);
        }
      } else {
        AgentConserves(s, step, k);
      }
    }
  }

  lemma OnConserves(s: State, k: nat, local: Local)
    requires Inv(s) && Enabled(s, On(k, local)) && ConservedAt(s, k) && LocalApply(s.conns[k], local).up
    ensures ConservedAt(Apply(s, On(k, local)), k)
  {
    assert ConnInv(k, s.conns[k], s.handlers, s.log);
    hide Conserved, ConnInv;
    UpIsOld(s.conns[k], local);
    LocalConserves(k, s.conns[k], s.handlers, s.log, local);
    hide LocalApply, LocalEnabled;
  }

  lemma AgentConserves(s: State, step: Step, k: nat)
    requires Enabled(s, step) && !step.Dial? && !step.On? && !GivesUp(s, k, step) && ConservedAt(s, k)
    requires k < |s.conns| && Apply(s, step).conns[k].up
    ensures ConservedAt(Apply(s, step), k)
  {
    AgentFlight(s, k, step);
    hide Apply, Enabled, Flight, Arrived;
  }

  lemma EmptyConserved(k: nat, conn: Conn, handlers: seq<Handler>)
    requires conn.mux.calls == []
    ensures Conserved(k, conn, handlers)
  {
  }

  /** A socket that is up was up before, and its loops go on. */
  lemma UpIsOld(conn: Conn, step: Local)
    requires LocalEnabled(conn, step) && LocalApply(conn, step).up
    ensures conn.up && LocalApply(conn, step).serving == conn.serving
    ensures LocalApply(conn, step).mux.reader.Stopped? ==> conn.mux.reader.Stopped?
  {
  }

  /** No goroutine of socket `k` gives up in this run. */
  predicate NobodyGivesUp(s: State, k: nat, steps: seq<Step>)
    requires IsRun(s, steps)
    decreases |steps|
  {
    steps == [] || (!GivesUp(s, k, steps[0]) && NobodyGivesUp(Apply(s, steps[0]), k, steps[1..]))
  }

  lemma {:induction false} RunConserves(s: State, k: nat, steps: seq<Step>)
    requires Inv(s) && IsRun(s, steps) && WithinIdSpace(After(s, steps)) && ConservedAt(s, k) && NobodyGivesUp(s, k, steps)
    ensures ConservedAt(After(s, steps), k)
    decreases |steps|
  {
    hide Inv, Enabled, Apply, ConservedAt;
    if steps != [] {
      RunGrows(Apply(s, steps[0]), steps[1..]);
      StepKeeps(s, steps[0]);
      StepConserves(s, steps[0], k);
      RunConserves(Apply(s, steps[0]), k, steps[1..]);
    }
  }

  /** In every run in which no goroutine of the socket gave up, as long as the socket is up, each call that waits or
      has returned an answer has exactly one copy of its id: its request on the wire, or a goroutine working on it,
      or one holding its answer, or the answer on the wire, or in the reader's hand, or in its own channel, or
      returned. */
  lemma NoAnswerIsLost(methods: set<string>, steps: seq<Step>, k: nat, c: nat)
    requires IsRun(Initial(methods), steps) && WithinIdSpace(After(Initial(methods), steps))
    requires NobodyGivesUp(Initial(methods), k, steps)
    requires var s := After(Initial(methods), steps);
             k < |s.conns| && s.conns[k].up && c < |s.conns[k].mux.calls| && Awaits(s.conns[k].mux.calls[c])
    ensures var s := After(Initial(methods), steps);
            var call := s.conns[k].mux.calls[c];
            Flight(k, s.conns[k], s.handlers)[call.req.id] + Arrived(call) == 1
  {
    RunConserves(Initial(methods), k, steps);
    hide Flight, Arrived;
  }

  // ----- and it gets there -----

  function ReaderWork(reader: Reader): nat {
    if reader.Got? then 2 else if reader.Sending? then 1 else 0
  }

  /** The steps that what is on its way still has to take, until it is in the channels. */
  function FlightWork(k: nat, conn: Conn, handlers: seq<Handler>): nat {
    6 * |Tally(conn.toAgent, RequestTag())| + 5 * |Tally(handlers, RunningTag(k))| + 4 * |Tally(handlers, ReplyingTag(k))|
    + 3 * |Tally(conn.toGateway, ResponseTag())| + ReaderWork(conn.mux.reader)
  }

  /** A step that carries something of socket `k` on. */
  predicate Carries(s: State, k: nat, step: Step) {
    match step
    case Accept(j) => j == k
    case Handle(h, _) => h < |s.handlers| && s.handlers[h].socket == k
    case Reply(h, ok, delivered) => h < |s.handlers| && s.handlers[h].socket == k && ok && delivered
    case On(j, local) => j == k && (local.Receive? || local.Find? || local.Hand?)
    case _ => false
  }

  lemma CarryAccept(s: State, k: nat)
    requires Enabled(s, Accept(k))
    ensures var t := Apply(s, Accept(k)); FlightWork(k, t.conns[k], t.handlers) < FlightWork(k, s.conns[k], s.handlers)
  {
    AcceptConn(s, k, k);
    var first, rest := s.conns[k].toAgent[0], s.conns[k].toAgent[1..];
    hide Apply, Enabled, Tally, ReaderIds;
    FirstRequest(first, rest);
    BornTokens(s.handlers, Handler(k, first, None), k);
  }

  lemma CarryHandle(s: State, k: nat, h: nat, handled: HandlerResult)
    requires Enabled(s, Handle(h, handled)) && k < |s.conns| && s.handlers[h].socket == k
    ensures var t := Apply(s, Handle(h, handled));
            FlightWork(k, t.conns[k], t.handlers) < FlightWork(k, s.conns[k], s.handlers)
  {
    var t := Apply(s, Handle(h, handled));
    HandleMovesReply(s.handlers, h, t.handlers[h], k);
    assert One(RunningTag(k)(s.handlers[h])) == multiset{s.handlers[h].req.id};
    assert One(ReplyingTag(k)(t.handlers[h])) == multiset{s.handlers[h].req.id};
    assert t.conns == s.conns && t.handlers == s.handlers[h := t.handlers[h]];
    hide Apply, Enabled, Tally, Dispatch, One, RunningTag, ReplyingTag;
  }

  lemma CarryReply(s: State, k: nat, h: nat)
    requires Enabled(s, Reply(h, true, true)) && k < |s.conns| && s.handlers[h].socket == k
    ensures var t := Apply(s, Reply(h, true, true));
            FlightWork(k, t.conns[k], t.handlers) < FlightWork(k, s.conns[k], s.handlers)
  {
    ReplyConn(s, h, true, true, k);
    AnsweredEnds(s.handlers, h);
    LastReply(s.conns[k].toGateway, s.handlers[h].answer.value);
    hide Apply, Enabled, Tally, Without, RequestTag, ResponseTag, RunningTag, ReplyingTag;
  }

  lemma CarryLocal(k: nat, conn: Conn, handlers: seq<Handler>, local: Local)
    requires LocalEnabled(conn, local) && (local.Receive? || local.Find? || local.Hand?)
    ensures FlightWork(k, LocalApply(conn, local), handlers) < FlightWork(k, conn, handlers)
  {
    if local.Receive? {
      var first, rest := conn.toGateway[0], conn.toGateway[1..];
      assert conn.toGateway == [first] + rest;
      TallyConcat([first], rest, ResponseTag());
      TallyOne(first, ResponseTag());
      assert ResponseTag()(first) == Some(first.id);
    }
    hide Tally, RequestTag, ResponseTag, RunningTag, ReplyingTag;
  }

  /** A goroutine counted under a tag can be found. */
  lemma FindTagged(handlers: seq<Handler>, tag: Handler -> Option<string>) returns (h: nat)
    requires |Tally(handlers, tag)| > 0
    ensures h < |handlers| && tag(handlers[h]).Some?
  {
    var id :| id in Tally(handlers, tag);
    TallyMember(handlers, tag, id);
    h :| 0 <= h < |handlers| && tag(handlers[h]) == Some(id);
  }

  lemma NothingTallied<T>(xs: seq<T>, tag: T -> Option<string>)
    ensures xs == [] ==> Tally(xs, tag) == multiset{}
  {
  }

  /** Whatever is on its way can be carried on, whoever holds it. */
  lemma CarryStep(s: State, k: nat) returns (step: Step)
    requires Inv(s) && ConservedAt(s, k) && k < |s.conns| && s.conns[k].up && FlightWork(k, s.conns[k], s.handlers) > 0
    ensures Enabled(s, step) && Carries(s, k, step)
  {
    hide ConnInv, Conserved, Tally;
    var conn := s.conns[k];
    NothingTallied(conn.toGateway, ResponseTag());
    NothingTallied(conn.toAgent, RequestTag());
    if ReaderWork(conn.mux.reader) > 0 || |Tally(conn.toGateway, ResponseTag())| > 0 {
      assert ConnInv(k, conn, s.handlers, s.log);
      SlotIsFree(k, conn, s.handlers, s.log);
      step := On(k, if conn.mux.reader.Got? then Find else if conn.mux.reader.Sending? then Hand else Receive);
    } else if |Tally(s.handlers, ReplyingTag(k))| > 0 {
      var h := FindTagged(s.handlers, ReplyingTag(k));
      step := Reply(h, true, true);
    } else if |Tally(s.handlers, RunningTag(k))| > 0 {
      var h := FindTagged(s.handlers, RunningTag(k));
      step := Handle(h, Opaque(""));
    } else {
      step := Accept(k);
    }
  }

  /** And that brings it closer. */
  lemma CarryIsProgress(s: State, k: nat, step: Step)
    requires k < |s.conns| && Enabled(s, step) && Carries(s, k, step)
    ensures k < |Apply(s, step).conns|
    ensures var t := Apply(s, step); FlightWork(k, t.conns[k], t.handlers) < FlightWork(k, s.conns[k], s.handlers)
  {
    match step
    case Accept(_) => CarryAccept(s, k); hide FlightWork;
    case Handle(h, handled) => CarryHandle(s, k, h, handled); hide FlightWork;
    case Reply(h, _, _) => CarryReply(s, k, h); hide FlightWork;
    case On(_, local) => CarryLocal(k, s.conns[k], s.handlers, local); hide FlightWork, LocalApply;
  }

  /** Carrying leaves the socket up and every call where it stands. */
  lemma CarryKeeps(s: State, k: nat, step: Step)
    requires k < |s.conns| && Enabled(s, step) && Carries(s, k, step) && WithinIdSpace(s) && s.conns[k].up
    ensures var t := Apply(s, step);
            && k < |t.conns| && t.conns[k].up && WithinIdSpace(t) && |t.conns[k].mux.calls| == |s.conns[k].mux.calls|
            && !GivesUp(s, k, step)
            && (forall c :: 0 <= c < |s.conns[k].mux.calls| ==> t.conns[k].mux.calls[c].phase == s.conns[k].mux.calls[c].phase)
  {
    var t := Apply(s, step);
    assert forall j :: 0 <= j < |t.conns| ==> |t.conns[j].mux.calls| == |s.conns[j].mux.calls|;
  }

  lemma RunCons(s: State, step: Step, rest: seq<Step>)
    requires Enabled(s, step) && IsRun(Apply(s, step), rest)
    ensures IsRun(s, [step] + rest) && After(s, [step] + rest) == After(Apply(s, step), rest)
  {
    hide Enabled, Apply;
    assert ([step] + rest)[1..] == rest;
  }

  /** Everything on its way can be carried into the channels. */
  lemma {:induction false} CarryAll(s: State, k: nat) returns (steps: seq<Step>)
    requires Inv(s) && WithinIdSpace(s) && ConservedAt(s, k) && k < |s.conns| && s.conns[k].up
    ensures IsRun(s, steps) && |steps| <= FlightWork(k, s.conns[k], s.handlers)
    ensures var t := After(s, steps);
            && Inv(t) && WithinIdSpace(t) && ConservedAt(t, k) && k < |t.conns| && t.conns[k].up
            && FlightWork(k, t.conns[k], t.handlers) == 0 && |t.conns[k].mux.calls| == |s.conns[k].mux.calls|
            && (forall c :: 0 <= c < |s.conns[k].mux.calls| ==> t.conns[k].mux.calls[c].phase == s.conns[k].mux.calls[c].phase)
    decreases FlightWork(k, s.conns[k], s.handlers)
  {
    hide Inv, ConservedAt, FlightWork, Enabled, Apply, Carries;
    if FlightWork(k, s.conns[k], s.handlers) == 0 {
      steps := [];
    } else {
      var step := CarryStep(s, k);
      CarryIsProgress(s, k, step);
      CarryKeeps(s, k, step);
      StepKeeps(s, step);
      StepConserves(s, step, k);
      var rest := CarryAll(Apply(s, step), k);
      RunCons(s, step, rest);
      steps := [step] + rest;
    }
  }

  /** With nothing on its way, whoever waits has its answer in the channel. */
  lemma EmptyFlight(k: nat, conn: Conn, handlers: seq<Handler>, c: nat)
    requires FlightWork(k, conn, handlers) == 0 && Conserved(k, conn, handlers)
    requires c < |conn.mux.calls| && conn.mux.calls[c].phase.Waiting?
    ensures conn.mux.calls[c].mailbox.Some?
  {
    hide Tally;
    assert Flight(k, conn, handlers) == multiset{};
  }

  /** The calls from `c` on take what is in their channels. */
  lemma {:induction false} TakeAll(s: State, k: nat, c: nat) returns (steps: seq<Step>)
    requires k < |s.conns| && c <= |s.conns[k].mux.calls|
    requires forall d :: c <= d < |s.conns[k].mux.calls| && s.conns[k].mux.calls[d].phase.Waiting? ==>
               s.conns[k].mux.calls[d].mailbox.Some?
    ensures IsRun(s, steps) && |steps| <= |s.conns[k].mux.calls| - c
    ensures var t := After(s, steps);
            && k < |t.conns| && t.conns[k].up == s.conns[k].up && |t.conns[k].mux.calls| == |s.conns[k].mux.calls|
            && (WithinIdSpace(s) ==> WithinIdSpace(t))
            && (forall d :: 0 <= d < c ==> t.conns[k].mux.calls[d] == s.conns[k].mux.calls[d])
            && (forall d :: c <= d < |s.conns[k].mux.calls| && s.conns[k].mux.calls[d].phase.Waiting? ==>
                  t.conns[k].mux.calls[d].phase.Returning? && HasAnswer(t.conns[k].mux.calls[d]))
    decreases |s.conns[k].mux.calls| - c
  {
    if c == |s.conns[k].mux.calls| {
      steps := [];
    } else if s.conns[k].mux.calls[c].phase.Waiting? {
      var step := On(k, Take(c));
      assert Enabled(s, step);
      TakeOne(s, k, c);
      var t := Apply(s, step);
      hide Apply, Enabled;
      var rest := TakeAll(t, k, c + 1);
      RunCons(s, step, rest);
      steps := [step] + rest;
    } else {
      steps := TakeAll(s, k, c + 1);
    }
  }

  lemma TakeOne(s: State, k: nat, c: nat)
    requires Enabled(s, On(k, Take(c)))
    ensures var t := Apply(s, On(k, Take(c)));
            && |t.conns| == |s.conns| && t.conns[k].up == s.conns[k].up
            && |t.conns[k].mux.calls| == |s.conns[k].mux.calls| && (WithinIdSpace(s) ==> WithinIdSpace(t))
            && t.conns[k].mux.calls[c].phase.Returning? && HasAnswer(t.conns[k].mux.calls[c])
            && (forall d :: 0 <= d < |s.conns[k].mux.calls| && d != c ==>
                  t.conns[k].mux.calls[d] == s.conns[k].mux.calls[d])
  {
  }

  /** From any state a run has led to, while the socket is up and nobody gave up: Agent, wire, reader and callers can
      go on so that every call that waits gets its answer, in a bounded number of steps and without anything new. */
  lemma AnswersArrive(s: State, k: nat) returns (steps: seq<Step>)
    requires Inv(s) && WithinIdSpace(s) && ConservedAt(s, k) && k < |s.conns| && s.conns[k].up
    ensures IsRun(s, steps) && |steps| <= FlightWork(k, s.conns[k], s.handlers) + |s.conns[k].mux.calls|
    ensures var t := After(s, steps);
            && WithinIdSpace(t) && k < |t.conns| && t.conns[k].up && |t.conns[k].mux.calls| == |s.conns[k].mux.calls|
            && (forall c :: 0 <= c < |s.conns[k].mux.calls| && s.conns[k].mux.calls[c].phase.Waiting? ==>
                  t.conns[k].mux.calls[c].phase.Returning? && HasAnswer(t.conns[k].mux.calls[c]))
  {
    hide Inv, Conserved, FlightWork;
    var carried := CarryAll(s, k);
    var t := After(s, carried);
    forall c | 0 <= c < |t.conns[k].mux.calls| && t.conns[k].mux.calls[c].phase.Waiting?
      ensures t.conns[k].mux.calls[c].mailbox.Some?
    {
      EmptyFlight(k, t.conns[k], t.handlers, c);
    }
    hide ConservedAt;
    var taken := TakeAll(t, k, 0);
    RunConcat(s, carried, taken);
    steps := carried + taken;
  }

  lemma {:induction false} RunConcat(s: State, first: seq<Step>, second: seq<Step>)
    requires IsRun(s, first) && IsRun(After(s, first), second)
    ensures IsRun(s, first + second) && After(s, first + second) == After(After(s, first), second)
    decreases |first|
  {
    hide Enabled, Apply;
    if first == [] {
      assert first + second == second;
    } else {
      RunConcat(Apply(s, first[0]), first[1..], second);
      assert (first + second)[1..] == first[1..] + second;
    }
  }

  /** So a run can always be continued to one in which the call is over: it has returned what the handler gave for
      that very request, and its id is out of the table. */
  lemma EveryCallCanBeAnswered(methods: set<string>, steps: seq<Step>, k: nat, c: nat) returns (more: seq<Step>)
    requires IsRun(Initial(methods), steps) && WithinIdSpace(After(Initial(methods), steps))
    requires NobodyGivesUp(Initial(methods), k, steps)
    requires var s := After(Initial(methods), steps);
             k < |s.conns| && s.conns[k].up && c < |s.conns[k].mux.calls| && s.conns[k].mux.calls[c].phase.Waiting?
    ensures IsRun(Initial(methods), steps + more)
    ensures var t := After(Initial(methods), steps + more);
            && k < |t.conns| && c < |t.conns[k].mux.calls|
            && var call := t.conns[k].mux.calls[c];
            && call.phase.Finished? && HasAnswer(call) && call.req.id !in t.conns[k].mux.pending
            && exists i :: 0 <= i < |t.log| && t.log[i].socket == k && t.log[i].req == call.req
                           && Tells(t.methods, call.req.rpc, t.log[i].handled, call.phase.ret.outcome)
  {
    hide Inv, ConservedAt;
    var s := After(Initial(methods), steps);
    ReachableInv(methods, steps);
    InitialConserved(methods, k);
    RunConserves(Initial(methods), k, steps);
    var arrive := AnswersArrive(s, k);
    var back := After(s, arrive);
    LeaveTable(back, k, c);
    var leave := [On(k, Remove(c))];
    RunConcat(s, arrive, leave);
    more := arrive + leave;
    RunConcat(Initial(methods), steps, more);
    var t := After(Initial(methods), steps + more);
    assert Reachable(t);
    hide Reachable, Tells;
    AnswerIsOwn(t, k, c);
  }

  /** The deferred removal of a call that returns. */
  lemma LeaveTable(s: State, k: nat, c: nat)
    requires k < |s.conns| && c < |s.conns[k].mux.calls| && s.conns[k].mux.calls[c].phase.Returning? && WithinIdSpace(s)
    ensures var steps := [On(k, Remove(c))];
            && IsRun(s, steps) && WithinIdSpace(After(s, steps))
            && var t := After(s, steps);
            && k < |t.conns| && c < |t.conns[k].mux.calls| && t.conns[k].mux.calls[c].phase.Finished?
            && t.conns[k].mux.calls[c].phase.ret == s.conns[k].mux.calls[c].phase.ret
            && t.conns[k].mux.calls[c].req.id !in t.conns[k].mux.pending
  {
    var step := On(k, Remove(c));
    var t := Apply(s, step);
    assert IsRun(t, []) && After(t, []) == t;
    assert [step] + [] == [step];
    RunCons(s, step, []);
    assert forall j :: 0 <= j < |t.conns| ==> |t.conns[j].mux.calls| == |s.conns[j].mux.calls|;
  }

  lemma InitialConserved(methods: set<string>, k: nat)
    ensures Inv(Initial(methods)) && ConservedAt(Initial(methods), k)
  {
  }
}
