/** The Gateway's connection object in its own terms (gateway/agentconn.go): a table from ids to channels, channels
    with one slot, and for each `Call` the locals of its goroutine. One method for each lock region or channel
    operation. Seen through `View` each method is one step of `RpcMux`, and the object can follow any run. */
module AgentConnObject {
  import opened Wrappers
  import opened Wire
  import opened RpcMux
  import opened RpcMuxSafety
  import opened RpcMuxTheorems
  import D = Decimal

  /** A channel of capacity one. `owner` numbers the call that made it. */
  class Chan {
    var slot: Option<Response>
    ghost const owner: nat

    constructor (ghost owner: nat)
      ensures slot.None? && this.owner == owner
    {
      slot := None;
      this.owner := owner;
    }
  }

  /** The locals of one `Call`: its request, its channel and where it stands. */
  class CallFrame {
    const req: Request
    const ch: Chan
    var phase: Phase

    constructor (req: Request, ch: Chan)
      ensures this.req == req && this.ch == ch && phase.Numbered?
    {
      this.req, this.ch := req, ch;
      phase := Numbered;
    }
  }

  /** Where the goroutine of `readLoop` stands. */
  datatype LoopAt = Blocked | Holding(resp: Response) | Handing(ch: Chan, resp: Response) | Ended

  /** The branches of the three-way wait. */
  datatype Branch = Answer | Context | Loss

  ghost function Channels(frames: seq<CallFrame>): set<Chan> {
    set f | f in frames :: f.ch
  }

  ghost function CallOf(f: CallFrame): Call
    reads f, f.ch
  {
    Call(f.req, f.phase, f.ch.slot)
  }

  ghost function CallsOf(frames: seq<CallFrame>): (calls: seq<Call>)
    reads frames, Channels(frames)
    ensures |calls| == |frames| && forall c :: 0 <= c < |frames| ==> calls[c] == CallOf(frames[c])
  {
    if frames == [] then [] else CallsOf(frames[..|frames| - 1]) + [CallOf(frames[|frames| - 1])]
  }

  /** `ch` is the channel of one of the calls. */
  ghost predicate IsChannel(frames: seq<CallFrame>, ch: Chan) {
    ch.owner < |frames| && frames[ch.owner].ch == ch
  }

  /** The table, with each channel replaced by the number of its call. */
  ghost function OwnersOf(pending: map<string, Chan>): map<string, nat> {
    map id | id in pending :: pending[id].owner
  }

  lemma OwnersUpdate(pending: map<string, Chan>, id: string, ch: Chan)
    ensures OwnersOf(pending[id := ch]) == OwnersOf(pending)[id := ch.owner]
    ensures OwnersOf(pending - {id}) == OwnersOf(pending) - {id}
  {
  }

  ghost predicate OwnChannels(frames: seq<CallFrame>) {
    forall c :: 0 <= c < |frames| ==> frames[c].ch.owner == c
  }

  ghost function ReaderOf(loop: LoopAt): Reader {
    match loop
    case Blocked => Reading
    case Holding(resp) => Got(resp)
    case Handing(ch, resp) => Sending(ch.owner, resp)
    case Ended => Stopped
  }

  class AgentConn {
    var nextID: nat
    var pending: map<string, Chan>
    var closed: bool
    var loop: LoopAt
    ghost var frames: seq<CallFrame>
    ghost var sent: multiset<string>

    /** Each call has its own channel, and no other channel is known to the table or the loop. */
    ghost predicate Valid()
      reads this
    {
      && OwnChannels(frames)
      && (forall id :: id in pending ==> IsChannel(frames, pending[id]))
      && (loop.Handing? ==> IsChannel(frames, loop.ch))
    }

    ghost function View(): Mux
      requires Valid()
      reads this, frames, Channels(frames)
    {
      Mux(nextID, CallsOf(frames), OwnersOf(pending), ReaderOf(loop), closed, sent)
    }

    constructor ()
      ensures Valid() && View() == EmptyMux && frames == []
    {
      nextID, pending, closed, loop, frames, sent := 0, map[], false, Blocked, [], multiset{};
    }

    /** The atomic increment, the request built from it, and the new channel. */
    method Begin(rpc: string, params: Json) returns (f: CallFrame)
      requires Valid()
      modifies this
      ensures Valid() && fresh(f) && fresh(f.ch) && frames == old(frames) + [f]
      ensures View() == TakeNumber(old(View()), rpc, params)
    {
      hide D.Format;
      nextID := (nextID + 1) % IdSpace;
      var ch := new Chan(|frames|);
      f := new CallFrame(Request(D.Format(nextID), rpc, params), ch);
      frames := frames + [f];
      assert frames[..|frames| - 1] == old(frames);
    }

    method InsertChannel(f: CallFrame, ghost c: nat)
      requires Valid() && c < |frames| && frames[c] == f && f.phase.Numbered?
      modifies this`pending, f`phase
      ensures Valid() && View() == InsertPending(old(View()), c)
    {
      ghost var calls := CallsOf(frames);
      OwnersUpdate(pending, f.req.id, f.ch);
      hide OwnersOf;
      pending := pending[f.req.id := f.ch];
      f.phase := Inserted;
      assert CallsOf(frames) == calls[c := CallOf(frames[c])];
    }

    /** What the serialised write came to: only after a success does the call wait. */
    method Sent(f: CallFrame, ghost c: nat, ok: bool)
      requires Valid() && c < |frames| && frames[c] == f && f.phase.Inserted?
      modifies f`phase
      ensures Valid() && View() == WithPhase(old(View()), c, if ok then Waiting else Returning(Unsent))
    {
      ghost var calls := CallsOf(frames);
      if ok {
        f.phase := Waiting;
      } else {
        f.phase := Returning(Unsent);
      }
      assert CallsOf(frames) == calls[c := CallOf(frames[c])];
    }

    predicate Ready(f: CallFrame, ctxDone: bool, branch: Branch)
      reads this, f.ch
    {
      match branch
      case Answer => f.ch.slot.Some?
      case Context => ctxDone
      case Loss => closed
    }

    /** The three-way wait: it blocks while no branch is ready, and of several ready ones takes any. */
    method Select(f: CallFrame, ghost c: nat, ctxDone: bool, prefer: Branch) returns (taken: Option<Branch>)
      requires Valid() && c < |frames| && frames[c] == f && f.phase.Waiting?
      modifies f`phase, f.ch`slot
      ensures Valid()
      ensures taken.None? <==> old(f.ch.slot).None? && !ctxDone && !closed
      ensures taken.Some? ==> old(Ready(f, ctxDone, taken.value))
      ensures old(Ready(f, ctxDone, prefer)) ==> taken == Some(prefer)
      ensures View() == match taken
                        case None => old(View())
                        case Some(Answer) => TakeAnswer(old(View()), c)
                        case Some(Context) => WithPhase(old(View()), c, Returning(Expired))
                        case Some(Loss) => WithPhase(old(View()), c, Returning(Lost(LossCode(f.req.rpc))))
    {
      ghost var calls := CallsOf(frames);
      taken := None;
      if Ready(f, ctxDone, prefer) {
        taken := Some(prefer);
      } else if f.ch.slot.Some? {
        taken := Some(Answer);
      } else if ctxDone {
        taken := Some(Context);
      } else if closed {
        taken := Some(Loss);
      }
      if taken == Some(Answer) {
        f.phase := Returning(Answered(f.ch.slot.value.outcome));
        f.ch.slot := None;
      } else if taken == Some(Context) {
        f.phase := Returning(Expired);
      } else if taken == Some(Loss) {
        var code := TransportLost;
        if IsMutatingMethod(f.req.rpc) {
          code := ExecutionUnknown;
        }
        f.phase := Returning(Lost(code));
      }
      assert CallsOf(frames) == calls[c := CallOf(frames[c])];
    }

    /** The deferred deletion. */
    method RemoveChannel(f: CallFrame, ghost c: nat)
      requires Valid() && c < |frames| && frames[c] == f && f.phase.Returning?
      modifies this`pending, f`phase
      ensures Valid() && View() == RemovePending(old(View()), c)
    {
      ghost var calls := CallsOf(frames);
      OwnersUpdate(pending, f.req.id, f.ch);
      hide OwnersOf;
      pending := pending - {f.req.id};
      f.phase := Finished(f.phase.ret);
      assert CallsOf(frames) == calls[c := CallOf(frames[c])];
    }

    /** A frame arrives. */
    method Receive(resp: Response)
      requires Valid() && loop.Blocked?
      modifies this`loop
      ensures Valid() && View() == old(View()).(reader := Got(resp))
    {
      loop := Holding(resp);
    }

    /** The read loop's lookup under the lock. */
    method FindChannel()
      requires Valid() && loop.Holding?
      modifies this`loop
      ensures Valid() && View() == LookUp(old(View()))
    {
      var resp := loop.resp;
      loop := Blocked;
      if resp.id in pending {
        loop := Handing(pending[resp.id], resp);
      }
    }

    /** The read loop's send, outside the lock; it can only go through while the slot is free. */
    method HandOver()
      requires Valid() && loop.Handing? && loop.ch.slot.None?
      modifies this`loop, this`sent, loop.ch`slot
      ensures Valid() && View() == Send(old(View()))
    {
      ghost var calls := CallsOf(frames);
      ghost var c := loop.ch.owner;
      loop.ch.slot := Some(loop.resp);
      sent := sent + multiset{loop.resp.id};
      loop := Blocked;
      assert CallsOf(frames) == calls[c := CallOf(frames[c])];
    }

    method EndReading()
      requires Valid() && loop.Blocked?
      modifies this`loop, this`closed
      ensures Valid() && View() == Stop(old(View()))
    {
      closed := true;
      loop := Ended;
    }
  }

  // ----- the object in a run -----

  /** Performs one step of its socket. What the step leaves open is an input to the methods: the branch of the wait,
      the outcome of the write, the frame that arrives. */
  method Perform(conn: AgentConn, calls: seq<CallFrame>, socket: Conn, local: Local) returns (all: seq<CallFrame>)
    requires conn.Valid() && conn.frames == calls && conn.View() == socket.mux && LocalEnabled(socket, local)
    modifies conn, calls, Channels(calls)
    ensures conn.Valid() && conn.frames == all && conn.View() == LocalApply(socket, local).mux
    ensures all == calls || (exists f :: all == calls + [f] && fresh(f) && fresh(f.ch))
  {
    all := calls;
    match local
    case Number(rpc, params) =>
      var f := conn.Begin(rpc, params);
      all := calls + [f];
    case Insert(c) => conn.InsertChannel(calls[c], c);
    case Write(c, ok, _) => conn.Sent(calls[c], c, ok);
    case Take(c) =>
      assert CallOf(calls[c]) == socket.mux.calls[c];
      var taken := conn.Select(calls[c], c, false, Answer);
    case Expire(c) =>
      assert CallOf(calls[c]) == socket.mux.calls[c];
      var taken := conn.Select(calls[c], c, true, Context);
    case Leave(c) =>
      assert CallOf(calls[c]) == socket.mux.calls[c];
      var taken := conn.Select(calls[c], c, false, Loss);
    case Remove(c) => conn.RemoveChannel(calls[c], c);
    case Receive => conn.Receive(socket.toGateway[0]);
    case Find => conn.FindChannel();
    case Hand => conn.HandOver();
    case StopReader => conn.EndReading();
    case Break(_, _) =>
    case StopServing =>
  }

  /** The object follows any run of the whole system: performing the steps of its own socket, with everybody else's in
      between, it ends up as the run says. So what is proved of the runs is proved of the object. */
  method Follow(conn: AgentConn, calls: seq<CallFrame>, s: State, k: nat, steps: seq<Step>) returns (all: seq<CallFrame>)
    requires conn.Valid() && conn.frames == calls
    requires IsRun(s, steps) && k < |s.conns| && conn.View() == s.conns[k].mux
    modifies conn, calls, Channels(calls)
    ensures conn.Valid() && conn.frames == all
    ensures k < |After(s, steps).conns| && conn.View() == After(s, steps).conns[k].mux
    decreases |steps|
  {
    if steps == [] {
      return calls;
    }
    MuxMovesOnItsOwn(s, k, steps[0]);
    var t := Apply(s, steps[0]);
    all := calls;
    if steps[0].On? && steps[0].k == k {
      all := Perform(conn, calls, s.conns[k], steps[0].local);
    }
    hide Apply, Enabled, LocalApply, LocalEnabled;
    all := Follow(conn, all, t, k, steps[1..]);
  }

  /** Only its own steps move a socket's Gateway side. */
  lemma MuxMovesOnItsOwn(s: State, k: nat, step: Step)
    requires Enabled(s, step) && k < |s.conns|
    ensures k < |Apply(s, step).conns|
    ensures Apply(s, step).conns[k].mux ==
            if step.On? && step.k == k then LocalApply(s.conns[k], step.local).mux else s.conns[k].mux
  {
  }

  /** What the object can do next is what the protocol allows: each branch of the wait, and the read loop's send. */
  lemma BranchesAgree(conn: AgentConn, socket: Conn, c: nat)
    requires conn.Valid() && conn.View() == socket.mux && c < |conn.frames|
    ensures var f := conn.frames[c];
            f.phase.Waiting? ==>
              && (LocalEnabled(socket, Take(c)) <==> conn.Ready(f, false, Answer))
              && (forall ctxDone :: conn.Ready(f, ctxDone, Context) ==> LocalEnabled(socket, Expire(c)))
              && (LocalEnabled(socket, Leave(c)) <==> conn.Ready(f, false, Loss))
    ensures LocalEnabled(socket, Hand) <==> conn.loop.Handing? && conn.loop.ch.slot.None?
    ensures LocalEnabled(socket, Find) <==> conn.loop.Holding?
  {
    assert socket.mux.calls[c] == CallOf(conn.frames[c]);
    if conn.loop.Handing? {
      assert socket.mux.calls[conn.loop.ch.owner] == CallOf(conn.frames[conn.loop.ch.owner]);
    }
  }

  /** In the object's own terms: when the loop is about to send, the channel's slot is free; and the table holds
      exactly the channels of the calls between insertion and removal. */
  lemma ObjectNeverBlocks(conn: AgentConn, s: State, k: nat)
    requires Reachable(s) && k < |s.conns| && conn.Valid() && conn.View() == s.conns[k].mux
    ensures conn.loop.Handing? ==> conn.loop.ch.slot.None?
    ensures forall c :: 0 <= c < |conn.frames| ==>
              (InPending(CallOf(conn.frames[c])) <==>
               conn.frames[c].req.id in conn.pending && conn.pending[conn.frames[c].req.id] == conn.frames[c].ch)
  {
    ReaderNeverBlocks(s, k);
    PendingIsExact(s, k);
    var m := conn.View();
    if conn.loop.Handing? {
      assert m.calls[conn.loop.ch.owner] == CallOf(conn.frames[conn.loop.ch.owner]);
    }
    forall c | 0 <= c < |conn.frames|
      ensures InPending(CallOf(conn.frames[c])) <==>
              conn.frames[c].req.id in conn.pending && conn.pending[conn.frames[c].req.id] == conn.frames[c].ch
    {
      TableEntry(conn, s, k, c);
    }
  }

  lemma TableEntry(conn: AgentConn, s: State, k: nat, c: nat)
    requires Reachable(s) && k < |s.conns| && conn.Valid() && conn.View() == s.conns[k].mux && c < |conn.frames|
    ensures var f := conn.frames[c];
            InPending(CallOf(f)) <==> f.req.id in conn.pending && conn.pending[f.req.id] == f.ch
  {
    var f, m := conn.frames[c], s.conns[k].mux;
    ReachableKeeps(s);
    assert ConnInv(k, s.conns[k], s.handlers, s.log);
    assert PendingInv(m) && m.calls[c] == CallOf(f);
    assert f.req.id in conn.pending ==> m.pending[f.req.id] == conn.pending[f.req.id].owner;
  }
}
