/** What a run of the multiplexed connection makes of each call, told from the steps that were taken and not from the
    state they led to: what was asked, how the call ended, what its handler gave, and what can no longer happen. */
module RpcMuxHistory {
  import opened Wrappers
  import opened Wire
  import opened RpcMux
  import opened RpcMuxSafety
  import opened RpcMuxTheorems
  import opened RpcMuxDelivery
  import D = Decimal

  /** The calls of socket `k`, none before it is dialled. */
  function CallsAt(s: State, k: nat): seq<Call> {
    if k < |s.conns| then s.conns[k].mux.calls else []
  }

  // ----- what was asked -----

  /** The methods and parameters `Call` was given on socket `k`, in order. */
  function Asks(k: nat, steps: seq<Step>): seq<(string, Json)> {
    if steps == [] then []
    else (if steps[0].On? && steps[0].k == k && steps[0].local.Number? then
            [(steps[0].local.rpc, steps[0].local.params)] else [])
         + Asks(k, steps[1..])
  }

  predicate IsFor(call: Call, asked: (string, Json)) {
    call.req.rpc == asked.0 && call.req.params == asked.1
  }

  ghost predicate AllFor(calls: seq<Call>, asked: seq<(string, Json)>) {
    |calls| == |asked| && forall c :: 0 <= c < |calls| ==> IsFor(calls[c], asked[c])
  }

  lemma {:induction false} RunKeepsAsks(s: State, k: nat, steps: seq<Step>, asked: seq<(string, Json)>)
    requires IsRun(s, steps) && AllFor(CallsAt(s, k), asked)
    ensures AllFor(CallsAt(After(s, steps), k), asked + Asks(k, steps))
    decreases |steps|
  {
    if steps == [] {
      assert asked + [] == asked;
    } else {
      var now := Asks(k, [steps[0]]);
      StepKeepsAsks(s, k, steps[0], asked);
      FirstAsks(k, steps);
      hide Enabled, Apply, AllFor, CallsAt, Asks;
      RunKeepsAsks(Apply(s, steps[0]), k, steps[1..], asked + now);
      assert asked + now + Asks(k, steps[1..]) == asked + Asks(k, steps);
    }
  }

  lemma FirstAsks(k: nat, steps: seq<Step>)
    requires steps != []
    ensures Asks(k, steps) == Asks(k, [steps[0]]) + Asks(k, steps[1..])
  {
    assert [steps[0]][1..] == [] && Asks(k, []) == [];
  }

  lemma StepKeepsAsks(s: State, k: nat, step: Step, asked: seq<(string, Json)>)
    requires Enabled(s, step) && AllFor(CallsAt(s, k), asked)
    ensures AllFor(CallsAt(Apply(s, step), k), asked + Asks(k, [step]))
  {
    hide D.Format, Dispatch;
    assert [step][1..] == [] && Asks(k, []) == [];
    if step.On? && step.k == k {
      LocalKeepsAsks(s.conns[k], step.local, asked);
      hide LocalApply, LocalEnabled, AllFor;
    } else {
      assert asked + [] == asked;
      assert CallsAt(Apply(s, step), k) == CallsAt(s, k);
      hide Apply, Enabled, AllFor;
    }
  }

  lemma LocalKeepsAsks(conn: Conn, local: Local, asked: seq<(string, Json)>)
    requires LocalEnabled(conn, local) && AllFor(conn.mux.calls, asked)
    ensures AllFor(LocalApply(conn, local).mux.calls, asked + if local.Number? then [(local.rpc, local.params)] else [])
  {
    hide D.Format;
    if !local.Number? {
      assert asked + [] == asked;
    }
  }

  /** The requests of a connection are those its callers asked for, method and parameters unchanged, in the order in
      which they were numbered. */
  lemma RequestsAreAsked(methods: set<string>, steps: seq<Step>, k: nat)
    requires IsRun(Initial(methods), steps)
    ensures AllFor(CallsAt(After(Initial(methods), steps), k), Asks(k, steps))
  {
    RunKeepsAsks(Initial(methods), k, steps, []);
    assert [] + Asks(k, steps) == Asks(k, steps);
  }

  // ----- how a call ends -----

  /** A step of call `c` itself. */
  predicate IsOf(local: Local, c: nat) {
    match local
    case Insert(d) => c == d
    case Write(d, _, _) => c == d
    case Take(d) => c == d
    case Expire(d) => c == d
    case Leave(d) => c == d
    case Remove(d) => c == d
    case _ => false
  }

  /** The steps call `c` of socket `k` took, in order. */
  function StepsOf(k: nat, c: nat, steps: seq<Step>): seq<Local> {
    if steps == [] then []
    else (if steps[0].On? && steps[0].k == k && IsOf(steps[0].local, c) then [steps[0].local] else [])
         + StepsOf(k, c, steps[1..])
  }

  /** The order `Call` does things in: insert, write, wait if the write succeeded, and remove whatever happened. */
  predicate InOrder(own: seq<Local>) {
    && |own| <= 4
    && (|own| > 0 ==> own[0].Insert?)
    && (|own| > 1 ==> own[1].Write?)
    && (|own| > 2 ==> if own[1].ok then own[2].Take? || own[2].Expire? || own[2].Leave? else own[2].Remove?)
    && (|own| > 3 ==> own[1].ok && own[3].Remove?)
  }

  /** What a call returns that left by `exit`. */
  predicate ReturnsBy(exit: Local, ret: Return, rpc: string) {
    match exit
    case Take(_) => ret.Answered?
    case Expire(_) => ret.Expired?
    case Leave(_) => ret == Lost(if IsMutatingMethod(rpc) then ExecutionUnknown else TransportLost)
    case Write(_, ok, _) => !ok && ret.Unsent?
    case _ => false
  }

  /** The step by which a call left, if it has. */
  function ExitOf(own: seq<Local>): Option<Local>
    requires InOrder(own)
  {
    if |own| > 1 && !own[1].ok then Some(own[1]) else if |own| > 2 then Some(own[2]) else None
  }

  /** Where the call stands is where its own steps have brought it. */
  predicate StandsBy(own: seq<Local>, call: Call) {
    InOrder(own) &&
    match call.phase
    case Numbered => own == []
    case Inserted => |own| == 1
    case Waiting => |own| == 2 && own[1].ok
    case Returning(ret) => ExitOf(own).Some? && !own[|own| - 1].Remove? && ReturnsBy(ExitOf(own).value, ret, call.req.rpc)
    case Finished(ret) => ExitOf(own).Some? && own[|own| - 1].Remove? && ReturnsBy(ExitOf(own).value, ret, call.req.rpc)
  }

  ghost predicate StandsAt(s: State, k: nat, c: nat, own: seq<Local>) {
    if c < |CallsAt(s, k)| then StandsBy(own, CallsAt(s, k)[c]) else own == []
  }

  lemma LocalStands(conn: Conn, local: Local, c: nat, own: seq<Local>)
    requires LocalEnabled(conn, local) && c < |conn.mux.calls| && StandsBy(own, conn.mux.calls[c])
    ensures c < |LocalApply(conn, local).mux.calls|
    ensures StandsBy(own + (if IsOf(local, c) then [local] else []), LocalApply(conn, local).mux.calls[c])
  {
    if !IsOf(local, c) {
      assert own + [] == own;
      assert LocalApply(conn, local).mux.calls[c].phase == conn.mux.calls[c].phase;
      assert LocalApply(conn, local).mux.calls[c].req == conn.mux.calls[c].req;
      hide LocalApply, LocalEnabled;
    }
  }

  lemma StepStands(s: State, k: nat, c: nat, step: Step, own: seq<Local>)
    requires Enabled(s, step) && StandsAt(s, k, c, own)
    ensures StandsAt(Apply(s, step), k, c, own + StepsOf(k, c, [step]))
  {
    assert [step][1..] == [] && StepsOf(k, c, []) == [];
    if step.On? && step.k == k && c < |CallsAt(s, k)| {
      LocalStands(s.conns[k], step.local, c, own);
      hide LocalApply, LocalEnabled, StandsBy;
    } else {
      assert own + [] == own;
      hide StandsBy, InOrder, ExitOf;
      OthersLeaveCall(s, k, c, step);
    }
  }

  lemma OthersLeaveCall(s: State, k: nat, c: nat, step: Step)
    requires Enabled(s, step) && !(step.On? && step.k == k && c < |CallsAt(s, k)|)
    ensures c < |CallsAt(s, k)| ==> CallsAt(Apply(s, step), k) == CallsAt(s, k)
    ensures c >= |CallsAt(s, k)| && c < |CallsAt(Apply(s, step), k)| ==> CallsAt(Apply(s, step), k)[c].phase.Numbered?
    ensures c >= |CallsAt(s, k)| ==> StepsOf(k, c, [step]) == []
  {
    hide D.Format, Dispatch;
    assert [step][1..] == [] && StepsOf(k, c, []) == [];
    if step.On? {
      if step.k == k {
        NewestIsNumbered(s.conns[k], step.local);
      }
      hide LocalApply;
    } else if step.Reply? {
      ReplyConn(s, step.h, step.ok, step.delivered, if k < |s.conns| then k else s.handlers[step.h].socket);
    }
  }

  /** A step only ever adds a numbered call, and none below that count takes a step of its own. */
  lemma NewestIsNumbered(conn: Conn, local: Local)
    requires LocalEnabled(conn, local)
    ensures var before, after := conn.mux.calls, LocalApply(conn, local).mux.calls;
            && |before| <= |after| && (forall c :: |before| <= c < |after| ==> after[c].phase.Numbered?)
            && (forall c :: |before| <= c ==> !IsOf(local, c))
  {
    hide D.Format;
  }

  lemma FirstSteps(k: nat, c: nat, steps: seq<Step>)
    requires steps != []
    ensures StepsOf(k, c, steps) == StepsOf(k, c, [steps[0]]) + StepsOf(k, c, steps[1..])
  {
    assert [steps[0]][1..] == [] && StepsOf(k, c, []) == [];
  }

  lemma {:induction false} RunStands(s: State, k: nat, c: nat, steps: seq<Step>, own: seq<Local>)
    requires IsRun(s, steps) && StandsAt(s, k, c, own)
    ensures StandsAt(After(s, steps), k, c, own + StepsOf(k, c, steps))
    decreases |steps|
  {
    if steps == [] {
      assert own + [] == own;
    } else {
      var now := StepsOf(k, c, [steps[0]]);
      StepStands(s, k, c, steps[0], own);
      FirstSteps(k, c, steps);
      hide Enabled, Apply, StandsAt, StepsOf;
      RunStands(Apply(s, steps[0]), k, c, steps[1..], own + now);
      assert own + now + StepsOf(k, c, steps[1..]) == own + StepsOf(k, c, steps);
    }
  }

  /** In every run a call stands where its own steps brought it, took them in the order of `Call`, and returns what its
      exit says: an answer exactly if it took one, the timeout if its context ended, the loss by method if it left a
      closed connection, the failed write if the write failed; removing it from the table changes nothing of that. */
  lemma CallStandsByItsSteps(methods: set<string>, steps: seq<Step>, k: nat, c: nat)
    requires IsRun(Initial(methods), steps) && c < |CallsAt(After(Initial(methods), steps), k)|
    ensures StandsBy(StepsOf(k, c, steps), CallsAt(After(Initial(methods), steps), k)[c])
  {
    RunStands(Initial(methods), k, c, steps, []);
    assert [] + StepsOf(k, c, steps) == StepsOf(k, c, steps);
  }

  /** What a call returns is fixed once it returns: through the deferred removal and ever after. */
  predicate Holds(calls: seq<Call>, c: nat, ret: Return) {
    c < |calls| && (calls[c].phase == Returning(ret) || calls[c].phase == Finished(ret))
  }

  lemma {:induction false} ResultIsKept(s: State, k: nat, c: nat, ret: Return, steps: seq<Step>)
    requires IsRun(s, steps) && Holds(CallsAt(s, k), c, ret)
    ensures Holds(CallsAt(After(s, steps), k), c, ret)
    ensures CallsAt(s, k)[c].phase.Finished? ==> CallsAt(After(s, steps), k)[c].phase.Finished?
    decreases |steps|
  {
    if steps != [] {
      StepKeepsResult(s, k, c, ret, steps[0]);
      hide Apply, Enabled, CallsAt, Holds;
      ResultIsKept(Apply(s, steps[0]), k, c, ret, steps[1..]);
    }
  }

  lemma StepKeepsResult(s: State, k: nat, c: nat, ret: Return, step: Step)
    requires Enabled(s, step) && Holds(CallsAt(s, k), c, ret)
    ensures Holds(CallsAt(Apply(s, step), k), c, ret)
    ensures CallsAt(s, k)[c].phase.Finished? ==> CallsAt(Apply(s, step), k)[c].phase.Finished?
  {
    hide D.Format, Dispatch;
    if step.On? && step.k == k {
      LocalKeepsResult(s.conns[k], step.local, c, ret);
      hide LocalApply, LocalEnabled;
    } else {
      assert CallsAt(Apply(s, step), k) == CallsAt(s, k);
    }
  }

  lemma LocalKeepsResult(conn: Conn, local: Local, c: nat, ret: Return)
    requires LocalEnabled(conn, local) && Holds(conn.mux.calls, c, ret)
    ensures Holds(LocalApply(conn, local).mux.calls, c, ret)
    ensures conn.mux.calls[c].phase.Finished? ==> LocalApply(conn, local).mux.calls[c].phase.Finished?
  {
    hide D.Format;
  }

  // ----- what the handlers gave -----

  /** What handlers gave, in the order in which they were run. */
  function Gave(steps: seq<Step>): seq<HandlerResult> {
    if steps == [] then [] else (if steps[0].Handle? then [steps[0].handled] else []) + Gave(steps[1..])
  }

  ghost predicate LogIs(log: seq<Dispatched>, gave: seq<HandlerResult>) {
    |log| == |gave| && forall i :: 0 <= i < |log| ==> log[i].handled == gave[i]
  }

  lemma {:induction false} RunLogs(s: State, steps: seq<Step>, gave: seq<HandlerResult>)
    requires IsRun(s, steps) && LogIs(s.log, gave)
    ensures LogIs(After(s, steps).log, gave + Gave(steps))
    decreases |steps|
  {
    if steps == [] {
      assert gave + [] == gave;
    } else {
      var now := if steps[0].Handle? then [steps[0].handled] else [];
      assert LogIs(Apply(s, steps[0]).log, gave + now);
      hide Enabled, Apply, LogIs;
      RunLogs(Apply(s, steps[0]), steps[1..], gave + now);
      assert gave + now + Gave(steps[1..]) == gave + Gave(steps);
    }
  }

  /** The log is the history of the handlers: one entry for each that was run, with what it gave. */
  lemma LogIsHistory(methods: set<string>, steps: seq<Step>)
    requires IsRun(Initial(methods), steps)
    ensures LogIs(After(Initial(methods), steps).log, Gave(steps)) && After(Initial(methods), steps).methods == methods
  {
    RunLogs(Initial(methods), steps, []);
    MethodsStay(Initial(methods), steps);
    assert [] + Gave(steps) == Gave(steps);
  }

  lemma {:induction false} MethodsStay(s: State, steps: seq<Step>)
    requires IsRun(s, steps)
    ensures After(s, steps).methods == s.methods
    decreases |steps|
  {
    if steps != [] {
      MethodsStay(Apply(s, steps[0]), steps[1..]);
    }
  }

  /** So, in terms of the run alone: a call that returned an answer returned what the handler of its method gave when it
      was run for this very request, at some point of the run. */
  lemma AnswerIsWhatTheHandlerGave(methods: set<string>, steps: seq<Step>, k: nat, c: nat)
    requires IsRun(Initial(methods), steps) && WithinIdSpace(After(Initial(methods), steps))
    requires var calls := CallsAt(After(Initial(methods), steps), k);
             c < |calls| && (calls[c].phase.Returning? || calls[c].phase.Finished?) && calls[c].phase.ret.Answered?
    ensures var s := After(Initial(methods), steps);
            && |Asks(k, steps)| > c && |s.log| == |Gave(steps)|
            && exists i :: 0 <= i < |s.log|
                 && s.log[i].socket == k && s.log[i].req == CallsAt(s, k)[c].req
                 && Tells(methods, Asks(k, steps)[c].0, Gave(steps)[i], CallsAt(s, k)[c].phase.ret.outcome)
  {
    var s := After(Initial(methods), steps);
    assert Reachable(s);
    RequestsAreAsked(methods, steps, k);
    LogIsHistory(methods, steps);
    hide Tells, IsRun, Reachable;
    AnswerIsOwn(s, k, c);
    var i :| 0 <= i < |s.log| && s.log[i].socket == k && s.log[i].req == s.conns[k].mux.calls[c].req
             && Tells(s.methods, s.conns[k].mux.calls[c].req.rpc, s.log[i].handled,
                      s.conns[k].mux.calls[c].phase.ret.outcome);
    assert s.log[i].handled == Gave(steps)[i];
  }

  // ----- what can no longer happen -----

  /** A socket whose read loop has ended on the Agent takes no further request. */
  lemma {:induction false} EndedLoopAcceptsNothing(s: State, k: nat, steps: seq<Step>)
    requires k < |s.conns| && !s.conns[k].serving && IsRun(s, steps)
    ensures forall i :: 0 <= i < |steps| ==> steps[i] != Accept(k)
    decreases |steps|
  {
    if steps != [] {
      assert !Apply(s, steps[0]).conns[k].serving;
      hide Apply;
      EndedLoopAcceptsNothing(Apply(s, steps[0]), k, steps[1..]);
    }
  }

  /** After the read loop of the Gateway has ended no frame of that socket is read or handed to anybody. */
  lemma {:induction false} EndedReaderIsSilent(s: State, k: nat, steps: seq<Step>)
    requires k < |s.conns| && s.conns[k].mux.reader.Stopped? && IsRun(s, steps)
    ensures forall i :: 0 <= i < |steps| ==>
              steps[i] != On(k, Receive) && steps[i] != On(k, Find) && steps[i] != On(k, Hand)
    decreases |steps|
  {
    if steps != [] {
      assert Apply(s, steps[0]).conns[k].mux.reader.Stopped?;
      hide Apply;
      EndedReaderIsSilent(Apply(s, steps[0]), k, steps[1..]);
    }
  }

  /** Once a transport is down nothing more gets on its wire, in either direction. */
  lemma {:induction false} DownWireStaysEmptier(s: State, k: nat, steps: seq<Step>)
    requires k < |s.conns| && !s.conns[k].up && IsRun(s, steps)
    ensures var t := After(s, steps);
            && k < |t.conns| && !t.conns[k].up
            && |t.conns[k].toAgent| <= |s.conns[k].toAgent| && |t.conns[k].toGateway| <= |s.conns[k].toGateway|
    decreases |steps|
  {
    if steps != [] {
      DownStep(s, k, steps[0]);
      hide Apply, Enabled;
      DownWireStaysEmptier(Apply(s, steps[0]), k, steps[1..]);
    }
  }

  lemma DownStep(s: State, k: nat, step: Step)
    requires k < |s.conns| && !s.conns[k].up && Enabled(s, step)
    ensures var t := Apply(s, step);
            && k < |t.conns| && !t.conns[k].up
            && |t.conns[k].toAgent| <= |s.conns[k].toAgent| && |t.conns[k].toGateway| <= |s.conns[k].toGateway|
  {
    if step.Reply? {
      ReplyDown(s, k, step.h, step.ok, step.delivered);
    }
    hide Without;
  }

  lemma ReplyDown(s: State, k: nat, h: nat, ok: bool, delivered: bool)
    requires k < |s.conns| && !s.conns[k].up && Enabled(s, Reply(h, ok, delivered))
    ensures Apply(s, Reply(h, ok, delivered)).conns[k].toGateway == s.conns[k].toGateway
    ensures !Apply(s, Reply(h, ok, delivered)).conns[k].up
  {
    ReplyConn(s, h, ok, delivered, k);
  }

  /** The three steps that bring this about do. */
  lemma EndsAreFinal(s: State, k: nat, local: Local, steps: seq<Step>)
    requires Enabled(s, On(k, local)) && IsRun(Apply(s, On(k, local)), steps)
    ensures local.StopServing? ==> forall i :: 0 <= i < |steps| ==> steps[i] != Accept(k)
    ensures local.StopReader? ==> forall i :: 0 <= i < |steps| ==>
              steps[i] != On(k, Receive) && steps[i] != On(k, Find) && steps[i] != On(k, Hand)
    ensures local.Break? ==> k < |After(Apply(s, On(k, local)), steps).conns| && !After(Apply(s, On(k, local)), steps).conns[k].up
  {
    var t := Apply(s, On(k, local));
    if local.StopServing? {
      EndedLoopAcceptsNothing(t, k, steps);
    } else if local.StopReader? {
      EndedReaderIsSilent(t, k, steps);
    } else if local.Break? {
      DownWireStaysEmptier(t, k, steps);
    }
  }

  // ----- a new call -----

  /** The steps of a call on a socket dialled for it, up to the wait. */
  function CallSteps(k: nat, rpc: string, params: Json): seq<Step> {
    [Dial, On(k, Number(rpc, params)), On(k, Insert(0)), On(k, Write(0, true, true))]
  }

  lemma NewSocketStep(s: State, rpc: string, params: Json)
    requires WithinIdSpace(s)
    ensures var k := |s.conns|;
            && IsRun(s, CallSteps(k, rpc, params)) && NobodyGivesUp(s, k, CallSteps(k, rpc, params))
            && var t := After(s, CallSteps(k, rpc, params));
            && |t.conns| == k + 1 && t.conns[k].up && |CallsAt(t, k)| == 1 && CallsAt(t, k)[0].phase.Waiting?
            && IsFor(CallsAt(t, k)[0], (rpc, params)) && WithinIdSpace(t)
  {
    var k := |s.conns|;
    var a, b, c, d := Dial, On(k, Number(rpc, params)), On(k, Insert(0)), On(k, Write(0, true, true));
    var s1 := Apply(s, a);
    var s2 := Apply(s1, b);
    var s3 := Apply(s2, c);
    var s4 := Apply(s3, d);
    assert s4.conns == s.conns + [s4.conns[k]];
    assert s4.conns[k].up && CallsAt(s4, k) == [Call(Request(D.Format(1), rpc, params), Waiting, None)];
    hide Apply, Enabled, D.Format;
    OneMore(s3, k, d, []);
    OneMore(s2, k, c, [d]);
    OneMore(s1, k, b, [c, d]);
    OneMore(s, k, a, [b, c, d]);
    assert [d] + [] == [d] && [c] + [d] == [c, d] && [b] + [c, d] == [b, c, d] && [a] + [b, c, d] == [a, b, c, d];
  }

  lemma OneMore(s: State, k: nat, step: Step, rest: seq<Step>)
    requires Enabled(s, step) && !step.Abandon? && IsRun(Apply(s, step), rest) && NobodyGivesUp(Apply(s, step), k, rest)
    ensures IsRun(s, [step] + rest) && NobodyGivesUp(s, k, [step] + rest)
    ensures After(s, [step] + rest) == After(Apply(s, step), rest)
  {
    hide Enabled, Apply;
    assert ([step] + rest)[1..] == rest;
  }

  /** A socket that has not been dialled has nobody who could give up. */
  lemma {:induction false} NobodyYet(s: State, k: nat, steps: seq<Step>)
    requires Inv(s) && IsRun(s, steps) && WithinIdSpace(After(s, steps)) && k >= |After(s, steps).conns|
    ensures NobodyGivesUp(s, k, steps)
    decreases |steps|
  {
    if steps != [] {
      var t := Apply(s, steps[0]);
      RunGrows(t, steps[1..]);
      StepKeeps(s, steps[0]);
      SocketsStay(t, steps[1..]);
      assert steps[0].Abandon? ==> s.handlers[steps[0].h] in s.handlers;
      assert |s.conns| <= |t.conns|;
      hide Inv, Apply, Enabled;
      NobodyYet(t, k, steps[1..]);
    }
  }

  lemma {:induction false} SocketsStay(s: State, steps: seq<Step>)
    requires IsRun(s, steps)
    ensures |s.conns| <= |After(s, steps).conns|
    decreases |steps|
  {
    if steps != [] {
      SocketsStay(Apply(s, steps[0]), steps[1..]);
    }
  }

  lemma {:induction false} NobodyConcat(s: State, k: nat, first: seq<Step>, second: seq<Step>)
    requires IsRun(s, first) && IsRun(After(s, first), second)
    requires NobodyGivesUp(s, k, first) && NobodyGivesUp(After(s, first), k, second)
    ensures IsRun(s, first + second) && NobodyGivesUp(s, k, first + second)
    decreases |first|
  {
    hide Enabled, Apply;
    RunConcat(s, first, second);
    if first == [] {
      assert first + second == second;
    } else {
      NobodyConcat(Apply(s, first[0]), k, first[1..], second);
      assert (first + second)[1..] == first[1..] + second;
    }
  }

  /** From any run the Agent can dial again, and a call made on the new connection can be answered: it returns what the
      handler of its method gives for its parameters, and leaves nothing in the table. */
  lemma NewCallIsAnswered(methods: set<string>, steps: seq<Step>, rpc: string, params: Json) returns (more: seq<Step>)
    requires IsRun(Initial(methods), steps) && WithinIdSpace(After(Initial(methods), steps))
    ensures IsRun(Initial(methods), steps + more)
    ensures var k, t := |After(Initial(methods), steps).conns|, After(Initial(methods), steps + more);
            && k < |t.conns| && |CallsAt(t, k)| >= 1 && IsFor(CallsAt(t, k)[0], (rpc, params))
            && CallsAt(t, k)[0].phase.Finished? && CallsAt(t, k)[0].phase.ret.Answered?
            && CallsAt(t, k)[0].req.id !in t.conns[k].mux.pending
            && exists handled :: Tells(methods, rpc, handled, CallsAt(t, k)[0].phase.ret.outcome)
  {
    var s := After(Initial(methods), steps);
    var k := |s.conns|;
    var call := CallSteps(k, rpc, params);
    InitialConserved(methods, k);
    NobodyYet(Initial(methods), k, steps);
    NewSocketStep(s, rpc, params);
    NobodyConcat(Initial(methods), k, steps, call);
    RunConcat(Initial(methods), steps, call);
    hide Inv, ConservedAt, NobodyGivesUp, CallSteps, Tells;
    var rest := EveryCallCanBeAnswered(methods, steps + call, k, 0);
    more := call + rest;
    assert steps + call + rest == steps + more;
    var u, t := After(Initial(methods), steps + call), After(Initial(methods), steps + more);
    RunSplit(Initial(methods), steps + call, rest);
    RequestIsKept(u, k, 0, rest);
    MethodsStay(Initial(methods), steps + more);
  }

  lemma {:induction false} RunSplit(s: State, first: seq<Step>, second: seq<Step>)
    requires IsRun(s, first + second)
    ensures IsRun(s, first) && IsRun(After(s, first), second) && After(s, first + second) == After(After(s, first), second)
    decreases |first|
  {
    hide Enabled, Apply;
    if first == [] {
      assert first + second == second;
    } else {
      assert (first + second)[1..] == first[1..] + second;
      RunSplit(Apply(s, first[0]), first[1..], second);
    }
  }

  lemma StepKeepsRequest(s: State, k: nat, c: nat, step: Step)
    requires Enabled(s, step) && c < |CallsAt(s, k)|
    ensures c < |CallsAt(Apply(s, step), k)| && CallsAt(Apply(s, step), k)[c].req == CallsAt(s, k)[c].req
  {
    hide D.Format, Dispatch;
    if step.On? && step.k == k {
      LocalKeepsRequest(s.conns[k], step.local, c);
      hide LocalApply;
    }
  }

  lemma LocalKeepsRequest(conn: Conn, local: Local, c: nat)
    requires LocalEnabled(conn, local) && c < |conn.mux.calls|
    ensures c < |LocalApply(conn, local).mux.calls| && LocalApply(conn, local).mux.calls[c].req == conn.mux.calls[c].req
  {
    hide D.Format;
  }

  lemma {:induction false} RequestIsKept(s: State, k: nat, c: nat, steps: seq<Step>)
    requires IsRun(s, steps) && c < |CallsAt(s, k)|
    ensures c < |CallsAt(After(s, steps), k)| && CallsAt(After(s, steps), k)[c].req == CallsAt(s, k)[c].req
    decreases |steps|
  {
    if steps != [] {
      hide Apply, Enabled, CallsAt;
      StepKeepsRequest(s, k, c, steps[0]);
      RequestIsKept(Apply(s, steps[0]), k, c, steps[1..]);
    }
  }
}
