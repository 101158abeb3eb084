/** The Agent-facing handler of the Gateway (gateway/wsserver.go) and its registry, with many handlers
    and `CloseAll` interleaved, one step for each lock region. */
module RegistryProtocol {
  import opened Registry

  /** Where the handler of one connection stands. */
  datatype Phase =
    | Accepted
    | Rejected
    | Verified
    | Serving
    | LoopEnded
    | Returned

  datatype Peer = Peer(deviceID: string, phase: Phase)

  /** `closing` are connections some `Register` or `CloseAll` has taken out of the table and still has to
      close, `closed` those it has closed. */
  datatype State = State(conns: map<string, nat>, peers: seq<Peer>, closing: set<nat>, closed: set<nat>)

  const Initial := State(map[], [], {}, {})

  datatype Hello = Hello(wellFormed: bool, deviceID: string, secretOk: bool)

  datatype Step =
    | Accept
    | Greet(c: nat, hello: Hello)
    | Register(c: nat)
    | EndLoop(c: nat)
    | Unregister(c: nat)
    | CloseAll
    | Close(c: nat)

  predicate Enabled(s: State, step: Step) {
    match step
    case Accept => true
    case Greet(c, _) => c < |s.peers| && s.peers[c].phase.Accepted?
    case Register(c) => c < |s.peers| && s.peers[c].phase.Verified?
    case EndLoop(c) => c < |s.peers| && s.peers[c].phase.Serving?
    case Unregister(c) => c < |s.peers| && s.peers[c].phase.LoopEnded?
    case CloseAll => true
    case Close(c) => c in s.closing
  }

  function WithPhase(s: State, c: nat, phase: Phase): State
    requires c < |s.peers|
  {
    s.(peers := s.peers[c := s.peers[c].(phase := phase)])
  }

  function Apply(s: State, step: Step): State
    requires Enabled(s, step)
  {
    match step
    case Accept => s.(peers := s.peers + [Peer("", Accepted)])
    case Greet(c, hello) =>
      if hello.wellFormed && hello.secretOk then s.(peers := s.peers[c := Peer(hello.deviceID, Verified)])
      else WithPhase(s, c, Rejected)
    case Register(c) =>
      var d := s.peers[c].deviceID;
      var displaced := if d in s.conns then {s.conns[d]} else {};
      WithPhase(s.(conns := Put(s.conns, d, c), closing := s.closing + displaced), c, Serving)
    case EndLoop(c) => WithPhase(s, c, LoopEnded)
    case Unregister(c) => WithPhase(s.(conns := Drop(s.conns, s.peers[c].deviceID, c)), c, Returned)
    case CloseAll => s.(conns := map[], closing := s.closing + s.conns.Values)
    case Close(c) => s.(closing := s.closing - {c}, closed := s.closed + {c})
  }

  predicate IsRun(s: State, steps: seq<Step>)
    decreases |steps|
  {
    steps == [] || (Enabled(s, steps[0]) && IsRun(Apply(s, steps[0]), steps[1..]))
  }

  function After(s: State, steps: seq<Step>): State
    requires IsRun(s, steps)
    decreases |steps|
  {
    if steps == [] then s else After(Apply(s, steps[0]), steps[1..])
  }

  /** Between its `Register` and its `Unregister`. */
  predicate Registered(peer: Peer) {
    peer.phase.Serving? || peer.phase.LoopEnded?
  }

  predicate Current(s: State, c: nat) {
    c < |s.peers| && s.peers[c].deviceID in s.conns && s.conns[s.peers[c].deviceID] == c
  }

  ghost predicate Inv(s: State) {
    && (forall d :: d in s.conns ==>
          s.conns[d] < |s.peers| && s.peers[s.conns[d]].deviceID == d && Registered(s.peers[s.conns[d]]))
    && (forall c :: 0 <= c < |s.peers| && Registered(s.peers[c]) ==>
          Current(s, c) || c in s.closing || c in s.closed)
    && (forall c :: c in s.closing || c in s.closed ==> c < |s.peers|)
  }

  lemma StepKeeps(s: State, step: Step)
    requires Inv(s) && Enabled(s, step)
    ensures Inv(Apply(s, step))
  {
    match step
    case Accept =>
    case Greet(_, _) =>
    case Register(c) => RegisterKeeps(s, c);
    case EndLoop(_) =>
    case Unregister(c) => UnregisterKeeps(s, c);
    case CloseAll => CloseAllKeeps(s);
    case Close(_) =>
  }

  lemma RegisterKeeps(s: State, c: nat)
    requires Inv(s) && Enabled(s, Register(c))
    ensures Inv(Apply(s, Register(c)))
  {
  }

  lemma UnregisterKeeps(s: State, c: nat)
    requires Inv(s) && Enabled(s, Unregister(c))
    ensures Inv(Apply(s, Unregister(c)))
  {
  }

  lemma CloseAllKeeps(s: State)
    requires Inv(s)
    ensures Inv(Apply(s, CloseAll))
  {
    assert forall c :: c in s.conns.Values ==> exists d :: d in s.conns && s.conns[d] == c;
  }

  lemma {:induction false} RunKeeps(s: State, steps: seq<Step>)
    requires Inv(s) && IsRun(s, steps)
    ensures Inv(After(s, steps))
    decreases |steps|
  {
    if steps != [] {
      StepKeeps(s, steps[0]);
      RunKeeps(Apply(s, steps[0]), steps[1..]);
    }
  }

  /** In every reachable state an entry is the connection of that device, past verification, and between its
      `Register` and its `Unregister`. */
  lemma EntriesAreLive(steps: seq<Step>, d: string)
    requires IsRun(Initial, steps) && d in After(Initial, steps).conns
    ensures var s := After(Initial, steps);
            s.conns[d] < |s.peers| && s.peers[s.conns[d]].deviceID == d && Registered(s.peers[s.conns[d]])
  {
    RunKeeps(Initial, steps);
  }

  /** A connection that was taken out of the table while its handler runs has its close done or still
      coming. */
  lemma DisplacedIsClosed(steps: seq<Step>, c: nat)
    requires IsRun(Initial, steps)
    requires var s := After(Initial, steps); c < |s.peers| && Registered(s.peers[c]) && !Current(s, c)
    ensures c in After(Initial, steps).closing + After(Initial, steps).closed
  {
    RunKeeps(Initial, steps);
  }

  /** Once every handler has returned or was never registered, the table is empty. */
  lemma EmptyWhenAllReturned(steps: seq<Step>)
    requires IsRun(Initial, steps)
    requires var peers := After(Initial, steps).peers; forall c :: 0 <= c < |peers| ==> !Registered(peers[c])
    ensures After(Initial, steps).conns == map[]
  {
    RunKeeps(Initial, steps);
  }

  /** The step that can end a current connection's tenure: a newer connection of its device, a shutdown, or
      its own handler's teardown. */
  predicate Ends(s: State, c: nat, step: Step)
    requires c < |s.peers| && Enabled(s, step)
  {
    || step.CloseAll?
    || (step.Unregister? && step.c == c)
    || (step.Register? && s.peers[step.c].deviceID == s.peers[c].deviceID)
  }

  /** No step of `steps` ends the tenure of `c`. */
  predicate Undisturbed(s: State, c: nat, steps: seq<Step>)
    requires c < |s.peers| && IsRun(s, steps)
    decreases |steps|
  {
    steps == []
    || (!Ends(s, c, steps[0]) && c < |Apply(s, steps[0]).peers| && Undisturbed(Apply(s, steps[0]), c, steps[1..]))
  }

  lemma TenureStep(s: State, c: nat, step: Step)
    requires Inv(s) && Current(s, c) && Enabled(s, step) && !Ends(s, c, step)
    ensures Current(Apply(s, step), c)
  {
  }

  /** A registered connection keeps its entry whatever the handlers of displaced connections do: no
      teardown but its own, at any time in any run, evicts it. */
  lemma {:induction false} SuccessorIsNeverEvicted(s: State, c: nat, steps: seq<Step>)
    requires Inv(s) && Current(s, c) && IsRun(s, steps) && Undisturbed(s, c, steps)
    ensures Current(After(s, steps), c)
    decreases |steps|
  {
    if steps != [] {
      TenureStep(s, c, steps[0]);
      StepKeeps(s, steps[0]);
      SuccessorIsNeverEvicted(Apply(s, steps[0]), c, steps[1..]);
    }
  }
}
