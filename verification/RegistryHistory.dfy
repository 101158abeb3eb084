/** What the Gateway's handlers and table come to, told from the steps of a run: who was greeted with which hello, who
    holds a device's entry, and who was closed. */
module RegistryHistory {
  import opened Wrappers
  import opened Registry
  import opened RegistryProtocol

  /** A hello that lets a connection in. */
  predicate IsGood(hello: Hello) {
    hello.wellFormed && hello.secretOk
  }

  /** What happened to connection `c` so far puts its handler where it stands; `past` are the steps taken. */
  ghost predicate PeerIs(past: seq<Step>, c: nat, peer: Peer) {
    && (peer.phase.Accepted? <==> forall hello :: Greet(c, hello) !in past)
    && (peer.phase.Rejected? <==> exists hello :: Greet(c, hello) in past && !IsGood(hello))
    && (peer.phase.Verified? || Registered(peer) || peer.phase.Returned? <==>
          exists hello :: Greet(c, hello) in past && IsGood(hello) && hello.deviceID == peer.deviceID)
    && (Register(c) in past <==> Registered(peer) || peer.phase.Returned?)
    && (EndLoop(c) in past <==> peer.phase.LoopEnded? || peer.phase.Returned?)
    && (Unregister(c) in past <==> peer.phase.Returned?)
  }

  /** No step so far was about connection `c`, except closing everything. */
  predicate IsUnheardOf(past: seq<Step>, c: nat) {
    forall step :: step in past ==> !IsAbout(step, c)
  }

  predicate IsAbout(step: Step, c: nat) {
    match step
    case Greet(d, _) => c == d
    case Register(d) => c == d
    case EndLoop(d) => c == d
    case Unregister(d) => c == d
    case _ => false
  }

  ghost predicate PeersAre(past: seq<Step>, s: State) {
    && (forall c :: 0 <= c < |s.peers| ==> PeerIs(past, c, s.peers[c]))
    && (forall c :: c >= |s.peers| ==> IsUnheardOf(past, c))
  }

  /** A step about somebody else leaves what is known of `c`. */
  lemma OthersStep(past: seq<Step>, step: Step, c: nat, peer: Peer)
    requires PeerIs(past, c, peer) && !IsAbout(step, c)
    ensures PeerIs(past + [step], c, peer)
  {
    assert forall hello :: Greet(c, hello) in past + [step] <==> Greet(c, hello) in past;
    assert Register(c) in past + [step] <==> Register(c) in past;
    assert EndLoop(c) in past + [step] <==> EndLoop(c) in past;
    assert Unregister(c) in past + [step] <==> Unregister(c) in past;
  }

  lemma OwnStep(past: seq<Step>, s: State, step: Step, c: nat)
    requires Enabled(s, step) && c < |s.peers| && PeerIs(past, c, s.peers[c]) && IsAbout(step, c)
    ensures c < |Apply(s, step).peers| && PeerIs(past + [step], c, Apply(s, step).peers[c])
  {
    assert step in past + [step];
    assert forall other :: other in past + [step] <==> other in past || other == step;
  }

  lemma NewcomerIs(past: seq<Step>, c: nat, step: Step)
    requires IsUnheardOf(past, c) && !IsAbout(step, c)
    ensures PeerIs(past + [step], c, Peer("", Accepted)) && IsUnheardOf(past + [step], c)
  {
    assert forall other :: other in past + [step] <==> other in past || other == step;
    assert forall hello :: IsAbout(Greet(c, hello), c);
    assert IsAbout(Register(c), c) && IsAbout(EndLoop(c), c) && IsAbout(Unregister(c), c);
  }

  lemma StepPeers(past: seq<Step>, s: State, step: Step)
    requires PeersAre(past, s) && Enabled(s, step)
    ensures PeersAre(past + [step], Apply(s, step))
  {
    var t := Apply(s, step);
    forall c | 0 <= c < |t.peers|
      ensures PeerIs(past + [step], c, t.peers[c])
    {
      if c == |s.peers| {
        NewcomerIs(past, c, step);
      } else if IsAbout(step, c) {
        OwnStep(past, s, step, c);
      } else {
        assert t.peers[c] == s.peers[c];
        OthersStep(past, step, c, s.peers[c]);
      }
    }
    forall c: nat | c >= |t.peers|
      ensures IsUnheardOf(past + [step], c)
    {
      NewcomerIs(past, c, step);
    }
  }

  // ----- entries -----

  /** The `i`-th step gave the entry of device `d` to `c`, and nothing after it took it away: no newer connection of
      the device, no teardown of `c`, no closing of everything. */
  ghost predicate GaveEntry(past: seq<Step>, peers: seq<Peer>, d: string, c: nat, i: nat) {
    && i < |past| && past[i] == Register(c) && c < |peers| && peers[c].deviceID == d
    && forall j :: i < j < |past| ==>
         && !past[j].CloseAll? && past[j] != Unregister(c)
         && (past[j].Register? ==> past[j].c < |peers| && peers[past[j].c].deviceID != d)
  }

  ghost predicate HasEntry(past: seq<Step>, peers: seq<Peer>, d: string, c: nat) {
    exists i :: GaveEntry(past, peers, d, c, i)
  }

  ghost predicate EntriesAre(past: seq<Step>, s: State) {
    forall d, c :: (d in s.conns && s.conns[d] == c) <==> HasEntry(past, s.peers, d, c)
  }

  /** Devices of registered connections do not change. */
  ghost predicate KeepsDevices(past: seq<Step>, peers: seq<Peer>, after: seq<Peer>) {
    forall c: nat :: Register(c) in past ==> c < |peers| && c < |after| && after[c].deviceID == peers[c].deviceID
  }

  lemma DevicesStay(past: seq<Step>, s: State, step: Step)
    requires PeersAre(past, s) && Enabled(s, step)
    ensures KeepsDevices(past, s.peers, Apply(s, step).peers)
  {
    forall c: nat | Register(c) in past
      ensures c < |s.peers| && c < |Apply(s, step).peers| && Apply(s, step).peers[c].deviceID == s.peers[c].deviceID
    {
      assert IsAbout(Register(c), c) && !IsUnheardOf(past, c);
      assert c < |s.peers| && PeerIs(past, c, s.peers[c]);
    }
  }

  /** Whether a step ends what an entry rests on. */
  predicate TakesAway(peers: seq<Peer>, d: string, c: nat, step: Step) {
    step.CloseAll? || step == Unregister(c) || (step.Register? && (step.c >= |peers| || peers[step.c].deviceID == d))
  }

  /** An entry after one more step: given by it, or kept through it. */
  lemma EntryStep(past: seq<Step>, peers: seq<Peer>, after: seq<Peer>, step: Step, d: string, c: nat)
    requires KeepsDevices(past, peers, after)
    ensures HasEntry(past + [step], after, d, c) <==>
            || (step == Register(c) && c < |after| && after[c].deviceID == d)
            || (HasEntry(past, peers, d, c) && !TakesAway(after, d, c, step))
  {
    var all, n := past + [step], |past|;
    if i: nat :| GaveEntry(all, after, d, c, i) {
      if i < n {
        assert past[i] == Register(c) && past[i] in past;
        assert all[n] == step;
        forall j | i < j < n
          ensures !past[j].CloseAll? && past[j] != Unregister(c)
          ensures past[j].Register? ==> past[j].c < |peers| && peers[past[j].c].deviceID != d
        {
          assert all[j] == past[j] && past[j] in past;
        }
        assert GaveEntry(past, peers, d, c, i);
      }
    }
    if step == Register(c) && c < |after| && after[c].deviceID == d {
      assert GaveEntry(all, after, d, c, n);
    } else if HasEntry(past, peers, d, c) && !TakesAway(after, d, c, step) {
      var i: nat :| GaveEntry(past, peers, d, c, i);
      assert past[i] in past;
      forall j | i < j < |all|
        ensures !all[j].CloseAll? && all[j] != Unregister(c)
        ensures all[j].Register? ==> all[j].c < |after| && after[all[j].c].deviceID != d
      {
        if j < n {
          assert all[j] == past[j] && past[j] in past;
        }
      }
      assert GaveEntry(all, after, d, c, i);
    }
  }

  lemma TableStep(s: State, step: Step, d: string, c: nat)
    requires Enabled(s, step) && Inv(s)
    ensures var t := Apply(s, step);
            (d in t.conns && t.conns[d] == c) <==>
            || (step == Register(c) && c < |t.peers| && t.peers[c].deviceID == d)
            || (d in s.conns && s.conns[d] == c && !TakesAway(t.peers, d, c, step))
  {
  }

  lemma StepEntries(past: seq<Step>, s: State, step: Step)
    requires Inv(s) && PeersAre(past, s) && EntriesAre(past, s) && Enabled(s, step)
    ensures EntriesAre(past + [step], Apply(s, step))
  {
    DevicesStay(past, s, step);
    forall d, c
      ensures (d in Apply(s, step).conns && Apply(s, step).conns[d] == c)
         <==> HasEntry(past + [step], Apply(s, step).peers, d, c)
    {
      EntryStep(past, s.peers, Apply(s, step).peers, step, d, c);
      TableStep(s, step, d, c);
    }
  }

  // ----- whole runs -----

  ghost predicate History(past: seq<Step>, s: State) {
    && Inv(s) && PeersAre(past, s) && EntriesAre(past, s) && OnlyDisplacedClose(s)
    && forall c: nat :: c in s.closed <==> Close(c) in past
  }

  /** Nobody closes a connection that holds its entry, or is on its way to one. */
  ghost predicate OnlyDisplacedClose(s: State) {
    forall c :: 0 <= c < |s.peers| && (Current(s, c) || s.peers[c].phase.Accepted? || s.peers[c].phase.Verified?) ==>
      c !in s.closing && c !in s.closed
  }

  lemma StepClose(s: State, step: Step)
    requires Inv(s) && OnlyDisplacedClose(s) && Enabled(s, step)
    ensures OnlyDisplacedClose(Apply(s, step))
  {
    if step.CloseAll? {
      assert forall c :: c in s.conns.Values ==> exists d :: d in s.conns && s.conns[d] == c;
    }
  }

  lemma ClosedStep(past: seq<Step>, s: State, step: Step)
    requires Enabled(s, step) && forall c: nat :: c in s.closed <==> Close(c) in past
    ensures forall c: nat :: c in Apply(s, step).closed <==> Close(c) in past + [step]
  {
    assert forall other :: other in past + [step] <==> other in past || other == step;
  }

  lemma {:induction false} RunHistory(past: seq<Step>, s: State, steps: seq<Step>)
    requires History(past, s) && IsRun(s, steps)
    ensures History(past + steps, After(s, steps))
    decreases |steps|
  {
    hide PeersAre, EntriesAre, OnlyDisplacedClose, Inv, Enabled, Apply;
    if steps == [] {
      assert past + [] == past;
    } else {
      StepKeeps(s, steps[0]);
      StepPeers(past, s, steps[0]);
      StepEntries(past, s, steps[0]);
      StepClose(s, steps[0]);
      ClosedStep(past, s, steps[0]);
      RunHistory(past + [steps[0]], Apply(s, steps[0]), steps[1..]);
      assert past + [steps[0]] + steps[1..] == past + steps;
    }
  }

  lemma FromTheStart(steps: seq<Step>)
    requires IsRun(Initial, steps)
    ensures History(steps, After(Initial, steps))
  {
    assert EntriesAre([], Initial);
    assert PeersAre([], Initial);
    RunHistory([], Initial, steps);
    assert [] + steps == steps;
  }

  /** In every run a connection that is between Register and Unregister was let in by a well-formed hello with the
      right secret, for the very device it is filed under. */
  lemma RegisteredWereVerified(steps: seq<Step>, c: nat)
    requires IsRun(Initial, steps) && c < |After(Initial, steps).peers| && Registered(After(Initial, steps).peers[c])
    ensures exists hello :: Greet(c, hello) in steps && hello.wellFormed && hello.secretOk
                            && hello.deviceID == After(Initial, steps).peers[c].deviceID
  {
    FromTheStart(steps);
    assert PeerIs(steps, c, After(Initial, steps).peers[c]);
  }

  /** A connection whose hello was malformed or had a wrong secret is never registered and in no entry, whatever
      happens before and after. */
  lemma RefusedNeverEnters(steps: seq<Step>, c: nat, hello: Hello)
    requires IsRun(Initial, steps) && Greet(c, hello) in steps && !(hello.wellFormed && hello.secretOk)
    ensures Register(c) !in steps && c !in After(Initial, steps).conns.Values
    ensures c < |After(Initial, steps).peers| && After(Initial, steps).peers[c].phase.Rejected?
  {
    FromTheStart(steps);
    var s := After(Initial, steps);
    assert IsAbout(Greet(c, hello), c) && !IsUnheardOf(steps, c);
    assert c < |s.peers| && PeerIs(steps, c, s.peers[c]);
  }

  /** In every run the table says exactly who was last: `c` holds the entry of device `d` if and only if some step
      registered it for `d` and since then no connection of `d` registered, `c` was not torn down, and nobody closed
      everything. */
  lemma EntryIsNewest(steps: seq<Step>, d: string, c: nat)
    requires IsRun(Initial, steps)
    ensures var s := After(Initial, steps);
            (d in s.conns && s.conns[d] == c) <==> HasEntry(steps, s.peers, d, c)
  {
    FromTheStart(steps);
  }

  /** A registered connection is closed by others, or about to be, exactly if it no longer holds its entry. */
  lemma ClosedExactlyIfDisplaced(steps: seq<Step>, c: nat)
    requires IsRun(Initial, steps) && c < |After(Initial, steps).peers| && Registered(After(Initial, steps).peers[c])
    ensures var s := After(Initial, steps);
            && (c in s.closing || Close(c) in steps <==> !Current(s, c))
  {
    FromTheStart(steps);
  }

  /** Where a handler stands is what its own steps say: registering, the end of its loop and the teardown happen once
      each, and in that order. */
  lemma HandlerStandsByItsSteps(steps: seq<Step>, c: nat)
    requires IsRun(Initial, steps) && c < |After(Initial, steps).peers|
    ensures PeerIs(steps, c, After(Initial, steps).peers[c])
  {
    FromTheStart(steps);
  }
}
