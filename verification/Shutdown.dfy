/** The Agent's two process managers, its request goroutines and the tail of its `main`, up to the end of a
    graceful shutdown (agent/processmgr.go, agent/connection.go, agent/cmd/main.go). */
module Shutdown {
  import opened Wrappers
  import P = ProcessLifecycle

  datatype Which = Plain | Sandboxed

  /** A started process: its manager, its lifecycle, whether it is in the manager's table, and whether
      `Terminate` has been called on it. */
  datatype Entry = Entry(mgr: Which, proc: P.Proc, tracked: bool, terminated: bool)

  /** A request goroutine: at work, inside `Manager.Start` between the backend's start and the insertion, or
      finished (and so no longer counted by the wait group). */
  datatype Phase = Busy | Starting(pid: nat) | Gone

  /** It belongs to the connection it was accepted on, the `run`-th, and may outlive it. */
  datatype Handler = Handler(run: nat, phase: Phase)

  /** Program points of `main`: inside `Run`'s loop, in its deferred wait, past it; `todo` are the listed processes
      `TerminateAll` has not yet dealt with. */
  datatype Main =
    | Serving
    | Waiting
    | Terminating(mgr: Which, todo: set<nat>)
    | Exited

  /** Who owns the wait group: the `Connection`, as in the code, or each `runOnce` its own. */
  datatype Owner = OfConnection | OfRun

  /** `runs` counts the connections dialled, `up` says whether the last one is still being read; `wg` is the counter
      of the wait group that `Run` waits for. */
  datatype State = State(
    owner: Owner,
    main: Main,
    cancelled: bool,
    runs: nat,
    up: bool,
    wg: nat,
    handlers: seq<Handler>,
    entries: seq<Entry>)

  function Initial(owner: Owner): State {
    State(owner, Serving, false, 0, false, 0, [], [])
  }

  datatype Step =
    | Dial
    | Accept
    | Drop
    | BackendStart(h: nat, mgr: Which)
    | Track(h: nat)
    | Terminate(h: nat, pid: nat)
    | Return(h: nat)
    | Proceed(pid: nat, step: P.Step)
    | Collect(pid: nat)
    | Cancel
    | LeaveLoop
    | RunReturns
    | TerminateListed(pid: nat)
    | NextManager
    | Finish

  predicate Idle(s: State, h: nat) {
    h < |s.handlers| && s.handlers[h].phase.Busy?
  }

  /** A request that was read is still accepted after the cancellation; `Run` leaves its loop once the connection
      is down, and returns when the wait group is at zero. Only finished processes are collected. */
  predicate Enabled(s: State, step: Step) {
    match step
    case Dial => s.main.Serving? && !s.up
    case Accept => s.up
    case Drop => s.up
    case BackendStart(h, _) => Idle(s, h)
    case Track(h) => h < |s.handlers| && s.handlers[h].phase.Starting? && s.handlers[h].phase.pid < |s.entries|
    case Terminate(h, pid) => Idle(s, h) && pid < |s.entries| && s.entries[pid].tracked
    case Return(h) => Idle(s, h)
    case Proceed(pid, step) => pid < |s.entries| && P.Enabled(s.entries[pid].proc, step)
    case Collect(pid) => pid < |s.entries| && s.entries[pid].tracked && s.entries[pid].proc.finished
    case Cancel => true
    case LeaveLoop => s.main.Serving? && s.cancelled && !s.up
    case RunReturns => s.main.Waiting? && s.wg == 0
    case TerminateListed(pid) => s.main.Terminating? && pid in s.main.todo && pid < |s.entries|
    case NextManager => s.main.Terminating? && s.main.mgr.Plain? && s.main.todo == {}
    case Finish => s.main.Terminating? && s.main.mgr.Sandboxed? && s.main.todo == {}
  }

  /** The manager's `List`. */
  function Tracked(s: State, mgr: Which): set<nat> {
    set pid | 0 <= pid < |s.entries| && s.entries[pid].tracked && s.entries[pid].mgr == mgr
  }

  function WithEntry(s: State, pid: nat, e: Entry): State
    requires pid < |s.entries|
  {
    s.(entries := s.entries[pid := e])
  }

  function WithPhase(s: State, h: nat, phase: Phase): State
    requires h < |s.handlers|
  {
    s.(handlers := s.handlers[h := s.handlers[h].(phase := phase)])
  }

  /** The counter takes part in a goroutine's end if it is the one the goroutine was counted by. */
  function DoneOn(s: State, h: nat): nat
    requires h < |s.handlers|
  {
    if s.wg > 0 && (s.owner.OfConnection? || s.handlers[h].run == s.runs) then s.wg - 1 else s.wg
  }

  function Apply(s: State, step: Step): State
    requires Enabled(s, step)
  {
    match step
    case Dial => s.(runs := s.runs + 1, up := true, wg := if s.owner.OfRun? then 0 else s.wg)
    case Accept => s.(wg := s.wg + 1, handlers := s.handlers + [Handler(s.runs, Busy)])
    case Drop => s.(up := false)
    case BackendStart(h, mgr) =>
      WithPhase(s.(entries := s.entries + [Entry(mgr, P.Started, false, false)]), h, Starting(|s.entries|))
    case Track(h) =>
      var pid := s.handlers[h].phase.pid;
      WithEntry(WithPhase(s, h, Busy), pid, s.entries[pid].(tracked := true))
    case Terminate(h, pid) => WithEntry(s, pid, s.entries[pid].(terminated := true))
    case Return(h) => WithPhase(s.(wg := DoneOn(s, h)), h, Gone)
    case Proceed(pid, step) => WithEntry(s, pid, s.entries[pid].(proc := P.Apply(s.entries[pid].proc, step)))
    case Collect(pid) => WithEntry(s, pid, s.entries[pid].(tracked := false))
    case Cancel => s.(cancelled := true)
    case LeaveLoop => s.(main := Waiting)
    case RunReturns => s.(main := Terminating(Plain, Tracked(s, Plain)))
    case TerminateListed(pid) =>
      var e := s.entries[pid];
      WithEntry(s.(main := Terminating(s.main.mgr, s.main.todo - {pid})), pid,
                if P.Done(e.proc) then e else e.(terminated := true))
    case NextManager => s.(main := Terminating(Sandboxed, Tracked(s, Sandboxed)))
    case Finish => s.(main := Exited)
  }

  predicate IsRun(s: State, steps: seq<Step>)
    decreases |steps|
  {
    steps == [] || (Enabled(s, steps[0]) && IsRun(Apply(s, steps[0]), steps[1..]))
  }

  function After(s: State, steps: seq<Step>): State
    requires IsRun(s, steps)
    decreases |steps|
  {
    if steps == [] then s else After(Apply(s, steps[0]), steps[1..])
  }

  /** Exited, or `Terminate` called on it. */
  predicate Settled(e: Entry) {
    e.proc.exit.Some? || e.terminated
  }

  ghost predicate InStart(s: State, pid: nat) {
    exists h :: 0 <= h < |s.handlers| && s.handlers[h].phase == Starting(pid)
  }

  /** Where an unsettled process can be: held by a goroutine still inside `Start`, in its manager's table, or
      on the list being worked off. */
  ghost predicate Covered(s: State, pid: nat)
    requires pid < |s.entries|
  {
    var e := s.entries[pid];
    Settled(e) ||
    match s.main
    case Serving => e.tracked || InStart(s, pid)
    case Waiting => e.tracked || InStart(s, pid)
    case Terminating(mgr, todo) => pid in todo || (mgr.Plain? && e.mgr.Sandboxed? && e.tracked)
    case Exited => false
  }

  predicate AllGone(handlers: seq<Handler>) {
    forall h :: 0 <= h < |handlers| ==> handlers[h].phase.Gone?
  }

  /** The goroutines that have not finished, whatever connection they came in on. */
  function Live(handlers: seq<Handler>): nat {
    if handlers == [] then 0
    else (if handlers[|handlers| - 1].phase.Gone? then 0 else 1) + Live(handlers[..|handlers| - 1])
  }

  /** What holds of the goroutines. */
  ghost predicate PoolInv(s: State) {
    && (forall h :: 0 <= h < |s.handlers| && s.handlers[h].phase.Starting? ==> s.handlers[h].phase.pid < |s.entries|)
    && (s.up ==> s.main.Serving?)
    && (s.main.Terminating? || s.main.Exited? ==> AllGone(s.handlers))
  }

  ghost predicate Inv(s: State) {
    && (forall pid :: 0 <= pid < |s.entries| ==> P.Inv(s.entries[pid].proc) && Covered(s, pid))
    && PoolInv(s) && s.owner.OfConnection? && s.wg == Live(s.handlers)
  }

  // ----- the wait group -----

  lemma {:induction false} LiveUpdate(handlers: seq<Handler>, h: nat, after: Handler)
    requires h < |handlers|
    ensures Live(handlers[h := after]) + (if handlers[h].phase.Gone? then 0 else 1)
         == Live(handlers) + (if after.phase.Gone? then 0 else 1)
  {
    var n := |handlers| - 1;
    if h == n {
      assert handlers[h := after][..n] == handlers[..n];
    } else {
      LiveUpdate(handlers[..n], h, after);
      assert handlers[h := after][..n] == handlers[..n][h := after];
    }
  }

  /** At zero nobody is left, on any connection. */
  lemma {:induction false} ZeroMeansAllGone(handlers: seq<Handler>)
    ensures Live(handlers) == 0 <==> AllGone(handlers)
  {
    if handlers != [] {
      var n := |handlers| - 1;
      ZeroMeansAllGone(handlers[..n]);
      assert forall h :: 0 <= h < n ==> handlers[h] == handlers[..n][h];
    }
  }

  /** The counter is the number of goroutines that have not finished, over all connections. */
  lemma CounterStays(s: State, step: Step)
    requires Enabled(s, step) && s.owner.OfConnection? && s.wg == Live(s.handlers)
    ensures Apply(s, step).wg == Live(Apply(s, step).handlers)
  {
    match step
    case Accept => assert Apply(s, step).handlers[..|s.handlers|] == s.handlers;
    case BackendStart(h, _) => LiveUpdate(s.handlers, h, Apply(s, step).handlers[h]);
    case Track(h) => LiveUpdate(s.handlers, h, Apply(s, step).handlers[h]);
    case Return(h) => LiveUpdate(s.handlers, h, Apply(s, step).handlers[h]);
    case _ =>
  }

  // ----- every step -----

  lemma StepKeeps(s: State, step: Step)
    requires Inv(s) && Enabled(s, step)
    ensures Inv(Apply(s, step))
  {
    var t := Apply(s, step);
    CounterStays(s, step);
    forall pid | 0 <= pid < |t.entries|
      ensures P.Inv(t.entries[pid].proc) && Covered(t, pid)
    {
      EntryStaysCovered(s, step, pid);
    }
    PoolStays(s, step);
    assert t.owner == s.owner;
    hide Covered, Live, P.Inv, Apply, Enabled;
  }

  lemma PoolStays(s: State, step: Step)
    requires Enabled(s, step) && s.wg == Live(s.handlers) && PoolInv(s)
    ensures PoolInv(Apply(s, step))
  {
    ZeroMeansAllGone(s.handlers);
    hide Live;
  }

  lemma EntryStaysCovered(s: State, step: Step, pid: nat)
    requires Inv(s) && Enabled(s, step) && pid < |Apply(s, step).entries|
    ensures P.Inv(Apply(s, step).entries[pid].proc) && Covered(Apply(s, step), pid)
  {
    if step.LeaveLoop? || step.RunReturns? || step.TerminateListed? || step.NextManager? || step.Finish? {
      ShutdownCovers(s, step, pid);
    } else {
      WorkCovers(s, step, pid);
    }
    hide *;
  }

  /** The steps of `main` on its way out. */
  lemma ShutdownCovers(s: State, step: Step, pid: nat)
    requires Inv(s) && Enabled(s, step) && pid < |s.entries|
    requires step.LeaveLoop? || step.RunReturns? || step.TerminateListed? || step.NextManager? || step.Finish?
    ensures pid < |Apply(s, step).entries|
    ensures P.Inv(Apply(s, step).entries[pid].proc) && Covered(Apply(s, step), pid)
  {
    hide Live, P.Inv, P.Apply, P.Enabled, P.Done;
    var e := s.entries[pid];
    assert P.Inv(e.proc) && Covered(s, pid);
    match step
    case LeaveLoop =>
      assert InStart(s, pid) ==> InStart(Apply(s, step), pid) by { StartIsHeld(s, step, pid); }
    case RunReturns =>
      ZeroMeansAllGone(s.handlers);
      assert !InStart(s, pid);
      assert e.tracked && e.mgr.Plain? ==> pid in Tracked(s, Plain);
    case TerminateListed(listed) =>
      DoneHasExited(s.entries[listed].proc);
    case NextManager =>
      assert e.tracked && e.mgr.Sandboxed? ==> pid in Tracked(s, Sandboxed);
    case Finish =>
  }

  lemma DoneHasExited(p: P.Proc)
    requires P.Inv(p)
    ensures P.Done(p) ==> p.exit.Some?
  {
  }

  /** Everybody else's steps. */
  lemma WorkCovers(s: State, step: Step, pid: nat)
    requires Inv(s) && Enabled(s, step) && pid < |Apply(s, step).entries|
    requires !step.LeaveLoop? && !step.RunReturns? && !step.TerminateListed? && !step.NextManager? && !step.Finish?
    ensures P.Inv(Apply(s, step).entries[pid].proc) && Covered(Apply(s, step), pid)
  {
    hide Live;
    if step.Proceed? && step.pid == pid {
      P.StepKeeps(s.entries[pid].proc, step.step);
    }
    StartIsHeld(s, step, pid);
    assert P.Inv(P.Started);
    hide P.Inv, P.Apply, P.Enabled;
  }

  /** A goroutine inside `Start` stays there until it has tracked its process. */
  lemma StartIsHeld(s: State, step: Step, pid: nat)
    requires Enabled(s, step)
    ensures InStart(s, pid) ==>
              InStart(Apply(s, step), pid) || (step.Track? && s.handlers[step.h].phase == Starting(pid))
    ensures step.BackendStart? ==> InStart(Apply(s, step), |s.entries|)
  {
    var t := Apply(s, step);
    if InStart(s, pid) {
      var h :| 0 <= h < |s.handlers| && s.handlers[h].phase == Starting(pid);
      assert (step.Track? && step.h == h) || t.handlers[h].phase == Starting(pid);
    }
    if step.BackendStart? {
      assert t.handlers[step.h].phase == Starting(|s.entries|);
    }
  }

  lemma {:induction false} RunKeeps(s: State, steps: seq<Step>)
    requires Inv(s) && IsRun(s, steps)
    ensures Inv(After(s, steps))
    decreases |steps|
  {
    if steps != [] {
      StepKeeps(s, steps[0]);
      RunKeeps(Apply(s, steps[0]), steps[1..]);
    }
  }

  /** When a graceful shutdown is over, every process either manager ever started has exited or has had
      `Terminate` called on it, in every interleaving of connections, requests, exits and collections. */
  lemma ShutdownMissesNone(steps: seq<Step>)
    requires IsRun(Initial(OfConnection), steps) && After(Initial(OfConnection), steps).main.Exited?
    ensures var s := After(Initial(OfConnection), steps);
            forall pid :: 0 <= pid < |s.entries| ==> Settled(s.entries[pid])
  {
    RunKeeps(Initial(OfConnection), steps);
    var s := After(Initial(OfConnection), steps);
    forall pid | 0 <= pid < |s.entries|
      ensures Settled(s.entries[pid])
    {
      assert Covered(s, pid);
    }
  }

  /** `Run` returns only when no request goroutine is left on any connection there ever was. */
  lemma RunWaitsForAll(steps: seq<Step>)
    requires IsRun(Initial(OfConnection), steps) && Enabled(After(Initial(OfConnection), steps), RunReturns)
    ensures AllGone(After(Initial(OfConnection), steps).handlers)
  {
    RunKeeps(Initial(OfConnection), steps);
    ZeroMeansAllGone(After(Initial(OfConnection), steps).handlers);
  }

  /** While the Agent runs, a process that has not exited is reachable through its manager, except during the
      short window of its own `Start`. */
  lemma RunningIsTracked(steps: seq<Step>, pid: nat)
    requires IsRun(Initial(OfConnection), steps)
    requires var s := After(Initial(OfConnection), steps);
             (s.main.Serving? || s.main.Waiting?) && pid < |s.entries| && !Settled(s.entries[pid]) && !InStart(s, pid)
    ensures After(Initial(OfConnection), steps).entries[pid].tracked
  {
    RunKeeps(Initial(OfConnection), steps);
    assert Covered(After(Initial(OfConnection), steps), pid);
  }

  // ----- why the wait group belongs to the connection -----

  lemma RunCons(s: State, step: Step, rest: seq<Step>)
    requires Enabled(s, step) && IsRun(Apply(s, step), rest)
    ensures IsRun(s, [step] + rest) && After(s, [step] + rest) == After(Apply(s, step), rest)
  {
    assert ([step] + rest)[1..] == rest;
  }

  lemma FourSteps(s: State, a: Step, b: Step, c: Step, d: Step, rest: seq<Step>)
    requires Enabled(s, a)
    requires Enabled(Apply(s, a), b)
    requires Enabled(Apply(Apply(s, a), b), c)
    requires Enabled(Apply(Apply(Apply(s, a), b), c), d)
    requires IsRun(Apply(Apply(Apply(Apply(s, a), b), c), d), rest)
    ensures IsRun(s, [a, b, c, d] + rest)
    ensures After(s, [a, b, c, d] + rest) == After(Apply(Apply(Apply(Apply(s, a), b), c), d), rest)
  {
    hide Enabled, Apply;
    var s1 := Apply(s, a);
    var s2 := Apply(s1, b);
    var s3 := Apply(s2, c);
    RunCons(s3, d, rest);
    RunCons(s2, c, [d] + rest);
    RunCons(s1, b, [c] + ([d] + rest));
    RunCons(s, a, [b] + ([c] + ([d] + rest)));
    assert [a] + ([b] + ([c] + ([d] + rest))) == [a, b, c, d] + rest;
  }

  /** A goroutine of the first connection is inside `Start` when that connection goes down. */
  const Stranded := State(OfRun, Serving, false, 1, false, 1, [Handler(1, Starting(0))],
                          [Entry(Plain, P.Started, false, false)])

  /** With a wait group for each `runOnce`, such a goroutine would not be waited for, and its process would be
      missed. */
  lemma OwnGroupPerRunMisses()
    ensures var steps := [Dial, Accept, BackendStart(0, Plain), Drop, Dial, Drop, Cancel, LeaveLoop, RunReturns, NextManager,
                          Finish];
            && IsRun(Initial(OfRun), steps)
            && After(Initial(OfRun), steps).main.Exited? && |After(Initial(OfRun), steps).entries| == 1
            && !Settled(After(Initial(OfRun), steps).entries[0])
  {
    hide *;
    var third := [RunReturns, NextManager, Finish];
    var second := [Dial, Drop, Cancel, LeaveLoop] + third;
    StrandedGoesOn();
    StrandedIsMissed(Stranded.(runs := 2, wg := 0, cancelled := true, main := Waiting));
    FourSteps(Stranded, Dial, Drop, Cancel, LeaveLoop, third);
    StrandedIsReached();
    FourSteps(Initial(OfRun), Dial, Accept, BackendStart(0, Plain), Drop, second);
    assert [Dial, Accept, BackendStart(0, Plain), Drop] + second ==
           [Dial, Accept, BackendStart(0, Plain), Drop, Dial, Drop, Cancel, LeaveLoop, RunReturns, NextManager, Finish];
  }

  lemma StrandedIsReached()
    ensures var s := Initial(OfRun);
            && Enabled(s, Dial) && Enabled(Apply(s, Dial), Accept)
            && Enabled(Apply(Apply(s, Dial), Accept), BackendStart(0, Plain))
            && Enabled(Apply(Apply(Apply(s, Dial), Accept), BackendStart(0, Plain)), Drop)
            && Apply(Apply(Apply(Apply(s, Dial), Accept), BackendStart(0, Plain)), Drop) == Stranded
  {
  }

  lemma StrandedGoesOn()
    ensures var s := Stranded;
            && Enabled(s, Dial) && Enabled(Apply(s, Dial), Drop)
            && Enabled(Apply(Apply(s, Dial), Drop), Cancel)
            && Enabled(Apply(Apply(Apply(s, Dial), Drop), Cancel), LeaveLoop)
            && Apply(Apply(Apply(Apply(s, Dial), Drop), Cancel), LeaveLoop) ==
               s.(runs := 2, wg := 0, cancelled := true, main := Waiting)
  {
  }

  lemma StrandedIsMissed(s: State)
    requires s == Stranded.(runs := 2, wg := 0, cancelled := true, main := Waiting)
    ensures var steps := [RunReturns, NextManager, Finish];
            && IsRun(s, steps)
            && After(s, steps).main.Exited? && |After(s, steps).entries| == 1 && !Settled(After(s, steps).entries[0])
  {
    var a := Apply(s, RunReturns);
    assert a.main.todo == {};
    var b := Apply(a, NextManager);
    assert b.main.todo == {};
    var c := Apply(b, Finish);
    assert IsRun(c, []) && After(c, []) == c;
    hide Enabled, Apply;
    RunCons(b, Finish, []);
    RunCons(a, NextManager, [Finish]);
    RunCons(s, RunReturns, [NextManager, Finish]);
    assert [Finish] + [] == [Finish];
  }
}
