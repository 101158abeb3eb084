/** The guarantees of the multiplexed connection over whole runs, for every interleaving of calls,
    timeouts, disconnects and reconnects. */
module RpcMuxTheorems {
  import opened Wrappers
  import opened Wire
  import opened RpcMux
  import opened RpcMuxSafety
  import opened Counting
  import D = Decimal

  /** States the system can be in, given fewer than 2^64 calls on each connection. */
  ghost predicate Reachable(s: State) {
    WithinIdSpace(s) && exists methods, steps :: IsRun(Initial(methods), steps) && After(Initial(methods), steps) == s
  }

  lemma ReachableKeeps(s: State)
    requires Reachable(s)
    ensures Inv(s) && LogDispatched(s)
  {
    var methods, steps :| IsRun(Initial(methods), steps) && After(Initial(methods), steps) == s;
    ReachableInv(methods, steps);
    RunKeepsLog(Initial(methods), steps);
  }

  /** Every log entry tells what the handler run for its request gave. */
  ghost predicate LogDispatched(s: State) {
    forall e :: e in s.log ==> Tells(s.methods, e.req.rpc, e.handled, e.resp.outcome)
  }

  lemma {:induction false} RunKeepsLog(s: State, steps: seq<Step>)
    requires LogDispatched(s) && IsRun(s, steps)
    ensures LogDispatched(After(s, steps))
    decreases |steps|
  {
    if steps != [] {
      StepKeepsLog(s, steps[0]);
      hide LogDispatched, Enabled, Apply;
      RunKeepsLog(Apply(s, steps[0]), steps[1..]);
    }
  }

  lemma StepKeepsLog(s: State, step: Step)
    requires LogDispatched(s) && Enabled(s, step)
    ensures LogDispatched(Apply(s, step))
  {
    hide Tells;
    assert Apply(s, step).methods == s.methods;
  }

  // ----- the reader -----

  /** The Gateway's read loop never waits on a channel: whenever it is about to send, the one slot is
      free. Every channel is sent to at most once in its life. */
  lemma ReaderNeverBlocks(s: State, k: nat)
    requires Reachable(s) && k < |s.conns|
    ensures s.conns[k].mux.reader.Sending? ==> CanSend(s.conns[k].mux)
    ensures AtMostOnce(s.conns[k].mux.sent)
  {
    ReachableKeeps(s);
    assert ConnInv(k, s.conns[k], s.handlers, s.log);
    SlotIsFree(k, s.conns[k], s.handlers, s.log);
  }

  // ----- answers -----

  /** Each request is dispatched at most once in a whole run, reconnects included. */
  lemma DispatchedAtMostOnce(s: State, k: nat, i: nat, j: nat)
    requires Reachable(s) && i < |s.log| && j < |s.log|
    requires s.log[i].socket == s.log[j].socket == k && s.log[i].req.id == s.log[j].req.id
    ensures i == j
  {
    ReachableKeeps(s);
    assert s.log[i] in s.log;
    assert ConnInv(k, s.conns[k], s.handlers, s.log);
    var id := s.log[i].req.id;
    assert Asked(k, s.conns[k], s.handlers, s.log)[id] <= 1;
    assert LogTag(k)(s.log[i]) == LogTag(k)(s.log[j]) == Some(id);
    if i < j {
      TallyTwice(s.log, LogTag(k), i, j, id);
    } else if j < i {
      TallyTwice(s.log, LogTag(k), j, i, id);
    }
  }

  lemma AnswerInLog(s: State, k: nat, c: nat) returns (i: nat)
    requires Inv(s) && k < |s.conns| && c < |s.conns[k].mux.calls|
    requires var phase := s.conns[k].mux.calls[c].phase;
             (phase.Returning? || phase.Finished?) && phase.ret.Answered?
    ensures var call := s.conns[k].mux.calls[c];
            i < |s.log| && s.log[i].socket == k && s.log[i].req == call.req
            && s.log[i].resp.outcome == call.phase.ret.outcome
  {
    var conn, call := s.conns[k], s.conns[k].mux.calls[c];
    assert ConnInv(k, conn, s.handlers, s.log);
    assert AnswerProduced(k, s.log, call);
    var e :| e in s.log && e.socket == k && e.resp == Response(call.req.id, call.phase.ret.outcome);
    assert IsWritten(conn.mux, e.req);
    var d :| 0 <= d < |conn.mux.calls| && conn.mux.calls[d].req == e.req;
    assert d == c;
    i :| 0 <= i < |s.log| && s.log[i] == e;
  }

  /** A call that returns an answer returns what the handler run for its own request on its own connection gave, its
      value or its error unchanged, and no other handler was ever run for it. */
  lemma AnswerIsOwn(s: State, k: nat, c: nat)
    requires Reachable(s) && k < |s.conns| && c < |s.conns[k].mux.calls|
    requires var phase := s.conns[k].mux.calls[c].phase;
             (phase.Returning? || phase.Finished?) && phase.ret.Answered?
    ensures var call := s.conns[k].mux.calls[c];
            exists i :: 0 <= i < |s.log|
              && s.log[i].socket == k && s.log[i].req == call.req
              && s.log[i].resp.outcome == call.phase.ret.outcome
              && Tells(s.methods, call.req.rpc, s.log[i].handled, call.phase.ret.outcome)
              && (forall j :: 0 <= j < |s.log| && s.log[j].socket == k && s.log[j].req.id == call.req.id ==> j == i)
  {
    var call := s.conns[k].mux.calls[c];
    ReachableKeeps(s);
    var i := AnswerInLog(s, k, c);
    assert s.log[i] in s.log;
    hide Reachable, Inv, Tells;
    forall j | 0 <= j < |s.log| && s.log[j].socket == k && s.log[j].req.id == call.req.id
      ensures j == i
    {
      DispatchedAtMostOnce(s, k, j, i);
    }
  }

  /** A call that leaves because the connection was lost reports `ExecutionUnknown` exactly when its
      method changes state, and only after the read loop of that connection has ended. */
  lemma LossIsReportedByMethod(s: State, k: nat, c: nat)
    requires Reachable(s) && k < |s.conns| && c < |s.conns[k].mux.calls|
    requires var phase := s.conns[k].mux.calls[c].phase;
             (phase.Returning? || phase.Finished?) && phase.ret.Lost?
    ensures var call := s.conns[k].mux.calls[c];
            && s.conns[k].mux.closed
            && (call.phase.ret.code == ExecutionUnknown <==> IsMutatingMethod(call.req.rpc))
            && (call.phase.ret.code == TransportLost <==> !IsMutatingMethod(call.req.rpc))
  {
    ReachableKeeps(s);
    assert ConnInv(k, s.conns[k], s.handlers, s.log);
    assert ReturnOk(s.conns[k].mux, s.conns[k].mux.calls[c]);
  }

  // ----- ids -----

  /** The id the counter gives to call number `c` (from zero). */
  function IdOf(c: nat): string {
    D.Format((c + 1) % IdSpace)
  }

  /** Two calls of one connection share an id exactly when a multiple of 2^64 calls lies between them, so
      the hypothesis of fewer than 2^64 calls is what makes ids unique. */
  lemma IdsCollide(c: nat, d: nat)
    ensures IdOf(c) == IdOf(d) <==> (c - d) % IdSpace == 0
  {
    if IdOf(c) == IdOf(d) {
      D.FormatInjective((c + 1) % IdSpace, (d + 1) % IdSpace);
    }
    SameRemainder(c + 1, d + 1, IdSpace);
    hide IdSpace, D.Format;
  }

  lemma SameRemainder(a: int, b: int, n: nat)
    requires n > 0
    ensures a % n == b % n <==> (a - b) % n == 0
  {
    var p, q := a / n, b / n;
    var r := a % n - b % n;
    assert a - b == (p - q) * n + r && 0 < r + n && r < n;
    if (a - b) % n == 0 {
      var t := (a - b) / n;
      assert a - b == t * n;
      NoSmallMultiple(t - (p - q), n, r);
    } else if r == 0 {
      MultipleHasNoRemainder(p - q, n);
    }
  }

  lemma NoSmallMultiple(k: int, n: nat, r: int)
    requires n > 0 && k * n == r && 0 < r + n && r < n
    ensures r == 0
  {
    assert k > 0 ==> (k - 1) * n >= 0;
    assert k < 0 ==> (-k - 1) * n >= 0;
  }

  lemma MultipleHasNoRemainder(k: int, n: nat)
    requires n > 0
    ensures (k * n) % n == 0
  {
    var m := k * n;
    var t, r := m / n, m % n;
    assert m == t * n + r;
    assert (k - t) * n == r;
    NoSmallMultiple(k - t, n, r);
  }

  lemma IdsOfReachable(s: State, k: nat, c: nat)
    requires Reachable(s) && k < |s.conns| && c < |s.conns[k].mux.calls|
    ensures s.conns[k].mux.calls[c].req.id == IdOf(c)
  {
    ReachableKeeps(s);
    assert ConnInv(k, s.conns[k], s.handlers, s.log);
    var m := s.conns[k].mux;
    assert IdsInv(m);
    hide Reachable, Inv, ConnInv, D.Format, IdSpace;
    SmallRemainder(c + 1, IdSpace);
  }

  lemma SmallRemainder(a: nat, n: nat)
    requires a < n
    ensures a % n == a
  {
  }

  // ----- the pending table -----

  /** `pending` holds exactly the ids of the calls between insertion and deferred removal, and maps each
      to that call's channel. */
  lemma PendingIsExact(s: State, k: nat)
    requires Reachable(s) && k < |s.conns|
    ensures var m := s.conns[k].mux;
            m.pending.Keys == set c | 0 <= c < |m.calls| && InPending(m.calls[c]) :: m.calls[c].req.id
    ensures var m := s.conns[k].mux;
            forall c :: 0 <= c < |m.calls| && InPending(m.calls[c]) ==>
              m.calls[c].req.id in m.pending && m.pending[m.calls[c].req.id] == c
  {
    ReachableKeeps(s);
    var m := s.conns[k].mux;
    assert ConnInv(k, s.conns[k], s.handlers, s.log);
    forall id | id in m.pending
      ensures exists c :: 0 <= c < |m.calls| && InPending(m.calls[c]) && m.calls[c].req.id == id
    {
      assert InPending(m.calls[m.pending[id]]);
    }
  }

  function Weight(phase: Phase): nat {
    match phase
    case Numbered => 4
    case Inserted => 3
    case Waiting => 2
    case Returning(_) => 1
    case Finished(_) => 0
  }

  /** The steps the calls of a connection still have to take. */
  function Work(calls: seq<Call>): nat {
    if calls == [] then 0 else Weight(calls[0].phase) + Work(calls[1..])
  }

  lemma {:induction false} WorkUpdate(calls: seq<Call>, c: nat, call: Call)
    requires c < |calls|
    ensures Work(calls[c := call]) + Weight(calls[c].phase) == Work(calls) + Weight(call.phase)
  {
    if c == 0 {
      assert calls[0 := call][1..] == calls[1..];
    } else {
      WorkUpdate(calls[1..], c - 1, call);
      assert calls[c := call][1..] == calls[1..][c - 1 := call];
    }
  }

  /** A step of one of the connection's calls, as opposed to its reader, its transport or a new call. */
  predicate IsCallStep(local: Local) {
    local.Insert? || local.Write? || local.Take? || local.Expire? || local.Leave? || local.Remove?
  }

  lemma LocalWork(conn: Conn, local: Local)
    requires LocalEnabled(conn, local) && !local.Number?
    ensures Work(LocalApply(conn, local).mux.calls) + (if IsCallStep(local) then 1 else 0) <= Work(conn.mux.calls)
  {
    var calls := conn.mux.calls;
    if IsCallStep(local) {
      WorkUpdate(calls, local.c, LocalApply(conn, local).mux.calls[local.c]);
    } else if local.Hand? {
      var c := conn.mux.reader.channel;
      WorkUpdate(calls, c, LocalApply(conn, local).mux.calls[c]);
    }
  }

  function CallSteps(k: nat, steps: seq<Step>): nat {
    if steps == [] then 0
    else (if steps[0].On? && steps[0].k == k && IsCallStep(steps[0].local) then 1 else 0) + CallSteps(k, steps[1..])
  }

  predicate NoNewCalls(k: nat, steps: seq<Step>) {
    forall i :: 0 <= i < |steps| && steps[i].On? && steps[i].k == k ==> !steps[i].local.Number?
  }

  /** In any run without new calls on connection `k`, its calls take no more steps than `Work` allows,
      whatever everybody else does in between. */
  lemma {:induction false} WorkBudget(s: State, k: nat, steps: seq<Step>)
    requires k < |s.conns| && IsRun(s, steps) && NoNewCalls(k, steps)
    ensures k < |After(s, steps).conns|
    ensures CallSteps(k, steps) + Work(After(s, steps).conns[k].mux.calls) <= Work(s.conns[k].mux.calls)
    decreases |steps|
  {
    if steps != [] {
      var t := Apply(s, steps[0]);
      if steps[0].On? && steps[0].k == k {
        assert !steps[0].local.Number?;
        LocalWork(s.conns[k], steps[0].local);
      }
      assert NoNewCalls(k, steps[1..]);
      WorkBudget(t, k, steps[1..]);
    }
  }

  /** Once the read loop has ended, each call in `pending` has a next step of its own; one past its write
      needs nothing from anybody. */
  lemma ClosedCallCanLeave(conn: Conn, id: string) returns (local: Local)
    requires MuxInv(conn.mux) && conn.mux.closed && id in conn.mux.pending
    ensures LocalEnabled(conn, local) && IsCallStep(local)
    ensures var m := LocalApply(conn, local).mux; m.closed && |m.calls| == |conn.mux.calls|
    ensures var call := conn.mux.calls[conn.mux.pending[id]];
            Written(call) ==> local.c == conn.mux.pending[id] && (local.Leave? || local.Remove?)
  {
    var c := conn.mux.pending[id];
    match conn.mux.calls[c].phase
    case Inserted => local := Write(c, false, false);
    case Waiting => local := Leave(c);
    case Returning(_) => local := Remove(c);
  }

  /** One such step, seen from the whole system. */
  lemma DrainStep(s: State, k: nat) returns (local: Local)
    requires Inv(s) && WithinIdSpace(s) && k < |s.conns| && s.conns[k].mux.closed
    requires s.conns[k].mux.pending != map[]
    ensures IsCallStep(local) && Enabled(s, On(k, local))
    ensures var t := Apply(s, On(k, local));
            Inv(t) && WithinIdSpace(t) && t.conns[k].mux.closed
            && Work(t.conns[k].mux.calls) < Work(s.conns[k].mux.calls)
  {
    hide Inv, Work, LocalApply, LocalEnabled;
    local := DrainConn(s, k);
    OnKeepsIdSpace(s, k, local);
    StepKeeps(s, On(k, local));
  }

  lemma OnKeepsIdSpace(s: State, k: nat, local: Local)
    requires WithinIdSpace(s) && Enabled(s, On(k, local))
    requires |LocalApply(s.conns[k], local).mux.calls| == |s.conns[k].mux.calls|
    ensures Apply(s, On(k, local)).conns[k] == LocalApply(s.conns[k], local)
    ensures WithinIdSpace(Apply(s, On(k, local)))
  {
    hide LocalApply, LocalEnabled;
  }

  lemma DrainConn(s: State, k: nat) returns (local: Local)
    requires Inv(s) && k < |s.conns| && s.conns[k].mux.closed && s.conns[k].mux.pending != map[]
    ensures LocalEnabled(s.conns[k], local) && IsCallStep(local)
    ensures var m := LocalApply(s.conns[k], local).mux;
            m.closed && |m.calls| == |s.conns[k].mux.calls| && Work(m.calls) < Work(s.conns[k].mux.calls)
  {
    var conn := s.conns[k];
    assert ConnInv(k, conn, s.handlers, s.log);
    var id :| id in conn.mux.pending;
    local := ClosedCallCanLeave(conn, id);
    LocalWork(conn, local);
  }

  lemma {:induction false} ClosedDrains(s: State, k: nat) returns (steps: seq<Step>)
    requires Inv(s) && WithinIdSpace(s) && k < |s.conns| && s.conns[k].mux.closed
    ensures IsRun(s, steps) && |steps| <= Work(s.conns[k].mux.calls)
    ensures forall i :: 0 <= i < |steps| ==> steps[i].On? && steps[i].k == k && IsCallStep(steps[i].local)
    ensures k < |After(s, steps).conns| && After(s, steps).conns[k].mux.pending == map[]
    decreases Work(s.conns[k].mux.calls)
  {
    hide Inv, Work;
    if s.conns[k].mux.pending == map[] {
      steps := [];
    } else {
      var local := DrainStep(s, k);
      var rest := ClosedDrains(Apply(s, On(k, local)), k);
      steps := [On(k, local)] + rest;
      assert steps[1..] == rest;
    }
  }

  /** From any reachable state a closed connection's `pending` can be emptied by its own calls alone, in at
      most `Work` steps. */
  lemma ReachableDrains(s: State, k: nat) returns (steps: seq<Step>)
    requires Reachable(s) && k < |s.conns| && s.conns[k].mux.closed
    ensures IsRun(s, steps) && |steps| <= Work(s.conns[k].mux.calls)
    ensures forall i :: 0 <= i < |steps| ==> steps[i].On? && steps[i].k == k && IsCallStep(steps[i].local)
    ensures k < |After(s, steps).conns| && After(s, steps).conns[k].mux.pending == map[]
  {
    ReachableKeeps(s);
    steps := ClosedDrains(s, k);
  }
}
