/** The shutdown guarantee told from the steps of a run: for every process a backend ever started there is an exit or a
    call of `Terminate` among them. */
module ShutdownHistory {
  import opened Wrappers
  import opened Shutdown
  import P = ProcessLifecycle

  /** The managers of the processes started, in order. */
  function Starts(past: seq<Step>): seq<Which> {
    if past == [] then []
    else Starts(past[..|past| - 1]) + (if past[|past| - 1].BackendStart? then [past[|past| - 1].mgr] else [])
  }

  /** How many requests were accepted. */
  function Accepts(past: seq<Step>): nat {
    if past == [] then 0 else Accepts(past[..|past| - 1]) + (if past[|past| - 1].Accept? then 1 else 0)
  }

  /** `Terminate` was called on process `pid`, by a request or by the shutdown. */
  ghost predicate WasTerminated(past: seq<Step>, pid: nat) {
    TerminateListed(pid) in past || exists h :: Terminate(h, pid) in past
  }

  ghost predicate HasExited(past: seq<Step>, pid: nat) {
    exists res :: Proceed(pid, P.Exit(res)) in past
  }

  ghost predicate EntryIs(past: seq<Step>, pid: nat, e: Entry) {
    (e.terminated ==> WasTerminated(past, pid)) && (e.proc.exit.Some? ==> HasExited(past, pid))
  }

  ghost predicate EntriesAre(past: seq<Step>, s: State) {
    && |s.entries| == |Starts(past)|
    && forall pid :: 0 <= pid < |s.entries| ==> s.entries[pid].mgr == Starts(past)[pid] && EntryIs(past, pid, s.entries[pid])
  }

  ghost predicate HandlersAre(past: seq<Step>, s: State) {
    && |s.handlers| == Accepts(past)
    && (forall h :: 0 <= h < |s.handlers| ==> (s.handlers[h].phase.Gone? <==> Return(h) in past))
    && (forall h: nat :: h >= |s.handlers| ==> Return(h) !in past)
  }

  lemma LastStep(past: seq<Step>, step: Step)
    ensures Starts(past + [step]) == Starts(past) + if step.BackendStart? then [step.mgr] else []
    ensures Accepts(past + [step]) == Accepts(past) + if step.Accept? then 1 else 0
    ensures forall other :: other in past + [step] <==> other in past || other == step
  {
    assert (past + [step])[..|past|] == past;
  }

  lemma EntryStep(past: seq<Step>, s: State, step: Step, pid: nat)
    requires Enabled(s, step) && pid < |s.entries| && EntryIs(past, pid, s.entries[pid])
    ensures pid < |Apply(s, step).entries| && Apply(s, step).entries[pid].mgr == s.entries[pid].mgr
    ensures EntryIs(past + [step], pid, Apply(s, step).entries[pid])
  {
    hide P.Apply, P.Enabled, P.Done, Starts, Accepts;
    LastStep(past, step);
    ExitIsAStep(s, step, pid);
    var e, after := s.entries[pid], Apply(s, step).entries[pid];
    assert after.terminated && !e.terminated ==> step == TerminateListed(pid) || (step.Terminate? && step.pid == pid);
    assert after.proc.exit.Some? && e.proc.exit.None? ==> step.Proceed? && step.pid == pid && step.step.Exit?;
    if step.Terminate? && step.pid == pid {
      assert Terminate(step.h, pid) in past + [step];
    }
    if step.Proceed? && step.pid == pid && step.step.Exit? {
      assert Proceed(pid, P.Exit(step.step.res)) in past + [step];
    }
    hide Apply, Enabled;
  }

  lemma ExitIsAStep(s: State, step: Step, pid: nat)
    requires Enabled(s, step) && pid < |s.entries|
    ensures pid < |Apply(s, step).entries|
    ensures Apply(s, step).entries[pid].proc.exit.Some? && s.entries[pid].proc.exit.None? ==>
              step.Proceed? && step.pid == pid && step.step.Exit?
  {
    hide P.Apply, P.Enabled, P.Done;
    if step.Proceed? {
      OnlyExitExits(s.entries[step.pid].proc, step.step);
    }
  }

  lemma OnlyExitExits(p: P.Proc, step: P.Step)
    requires P.Enabled(p, step)
    ensures P.Apply(p, step).exit == if step.Exit? then Some(step.res) else p.exit
  {
  }

  lemma StepEntries(past: seq<Step>, s: State, step: Step)
    requires EntriesAre(past, s) && Enabled(s, step)
    ensures EntriesAre(past + [step], Apply(s, step))
  {
    LastStep(past, step);
    var t := Apply(s, step);
    forall pid | 0 <= pid < |t.entries|
      ensures t.entries[pid].mgr == Starts(past + [step])[pid] && EntryIs(past + [step], pid, t.entries[pid])
    {
      if pid < |s.entries| {
        EntryStep(past, s, step, pid);
      }
    }
  }

  lemma StepHandlers(past: seq<Step>, s: State, step: Step)
    requires HandlersAre(past, s) && Enabled(s, step)
    ensures HandlersAre(past + [step], Apply(s, step))
  {
    LastStep(past, step);
  }

  lemma {:induction false} RunHistory(past: seq<Step>, s: State, steps: seq<Step>)
    requires EntriesAre(past, s) && HandlersAre(past, s) && IsRun(s, steps)
    ensures EntriesAre(past + steps, After(s, steps)) && HandlersAre(past + steps, After(s, steps))
    decreases |steps|
  {
    hide EntriesAre, HandlersAre, Enabled, Apply;
    if steps == [] {
      assert past + [] == past;
    } else {
      StepEntries(past, s, steps[0]);
      StepHandlers(past, s, steps[0]);
      RunHistory(past + [steps[0]], Apply(s, steps[0]), steps[1..]);
      assert past + [steps[0]] + steps[1..] == past + steps;
    }
  }

  lemma FromTheStart(owner: Owner, steps: seq<Step>)
    requires IsRun(Initial(owner), steps)
    ensures EntriesAre(steps, After(Initial(owner), steps)) && HandlersAre(steps, After(Initial(owner), steps))
  {
    RunHistory([], Initial(owner), steps);
    assert [] + steps == steps;
  }

  /** Every process a backend ever started, for either manager and on any connection, has exited or had `Terminate`
      called on it by the end of a graceful shutdown. */
  lemma EveryStartIsSettled(steps: seq<Step>, pid: nat)
    requires IsRun(Initial(OfConnection), steps) && After(Initial(OfConnection), steps).main.Exited?
    requires pid < |Starts(steps)|
    ensures HasExited(steps, pid) || WasTerminated(steps, pid)
  {
    FromTheStart(OfConnection, steps);
    ShutdownMissesNone(steps);
    hide HasExited, WasTerminated, IsRun, After;
    assert Settled(After(Initial(OfConnection), steps).entries[pid]);
  }

  /** When `Run` returns every request ever accepted has been seen to its end. */
  lemma EveryRequestHasReturned(steps: seq<Step>, h: nat)
    requires IsRun(Initial(OfConnection), steps) && Enabled(After(Initial(OfConnection), steps), RunReturns)
    requires h < Accepts(steps)
    ensures Return(h) in steps
  {
    FromTheStart(OfConnection, steps);
    RunWaitsForAll(steps);
  }

  /** While the Agent runs, a process that neither exited nor was terminated is in its manager's table, except inside
      its own `Start`, and can be found there by a request. */
  lemma UnsettledIsTracked(steps: seq<Step>, pid: nat)
    requires IsRun(Initial(OfConnection), steps) && pid < |Starts(steps)|
    requires var s := After(Initial(OfConnection), steps); s.main.Serving? || s.main.Waiting?
    requires !HasExited(steps, pid) && !WasTerminated(steps, pid)
    ensures var s := After(Initial(OfConnection), steps);
            && pid < |s.entries| && s.entries[pid].mgr == Starts(steps)[pid]
            && (InStart(s, pid) || pid in Tracked(s, Starts(steps)[pid]))
  {
    FromTheStart(OfConnection, steps);
    var s := After(Initial(OfConnection), steps);
    assert EntryIs(steps, pid, s.entries[pid]);
    hide HasExited, WasTerminated, IsRun, After, InStart;
    if !InStart(s, pid) {
      RunningIsTracked(steps, pid);
    }
  }
}
