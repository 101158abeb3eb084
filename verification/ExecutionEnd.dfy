/** Which executions get their end recorded, when, and how often: the handler paths of command.exec,
    command.read (agent/handlers_command.go) and process.start (agent/handlers_process.go) over the
    lifecycle of the process and the history table, with purges and an Agent crash interleaved. */
module ExecutionEnd {
  import opened Wrappers
  import P = ProcessLifecycle

  /** A one-shot call waits for the process itself and leaves the rest to a goroutine when it times out;
      process.start leaves it to a goroutine from the outset. */
  datatype Path = OneShot | Background

  /** `Watching` is the goroutine waiting without a deadline; `Ending` has the exit code in hand and is about
      to record it. */
  datatype Phase =
    | Launched
    | Waiting
    | Watching
    | Ending(code: Option<int>)
    | Finished

  /** An execution: its process and how often its start was recorded and with which exit codes its end. */
  datatype Exec = Exec(path: Path, proc: P.Proc, phase: Phase, starts: nat, ends: seq<Option<int>>)

  datatype Row = Open | Closed(code: Option<int>)

  datatype State = State(execs: seq<Exec>, rows: map<nat, Row>, alive: bool)

  const Initial := State([], map[], true)

  /** `applied` says whether the database statement took effect. */
  datatype Step =
    | Launch(path: Path)
    | RecordStart(x: nat, applied: bool)
    | InTime(x: nat)
    | TimeOut(x: nat)
    | Observe(x: nat)
    | RecordEnd(x: nat, applied: bool)
    | Proceed(x: nat, step: P.Step)
    | Purge(ids: set<nat>)
    | Crash

  predicate Is(s: State, x: nat) {
    x < |s.execs|
  }

  predicate Enabled(s: State, step: Step) {
    s.alive &&
    match step
    case Launch(_) => true
    case RecordStart(x, _) => Is(s, x) && s.execs[x].phase.Launched?
    case InTime(x) => Is(s, x) && s.execs[x].phase.Waiting? && P.Done(s.execs[x].proc)
    case TimeOut(x) => Is(s, x) && s.execs[x].phase.Waiting?
    case Observe(x) => Is(s, x) && s.execs[x].phase.Watching? && P.Done(s.execs[x].proc)
    case RecordEnd(x, _) => Is(s, x) && s.execs[x].phase.Ending?
    case Proceed(x, step) => Is(s, x) && P.Enabled(s.execs[x].proc, step)
    case Purge(_) => true
    case Crash => true
  }

  function WithExec(s: State, x: nat, e: Exec): State
    requires x < |s.execs|
  {
    s.(execs := s.execs[x := e])
  }

  function Apply(s: State, step: Step): State
    requires Enabled(s, step)
  {
    match step
    case Launch(path) => s.(execs := s.execs + [Exec(path, P.Started, Launched, 0, [])])
    case RecordStart(x, applied) =>
      var e := s.execs[x];
      var next := if e.path.OneShot? then Waiting else Watching;
      WithExec(s.(rows := if applied && x !in s.rows then s.rows[x := Open] else s.rows), x,
               e.(starts := e.starts + 1, phase := next))
    case InTime(x) => WithExec(s, x, s.execs[x].(phase := Ending(s.execs[x].proc.exitCode)))
    case TimeOut(x) => WithExec(s, x, s.execs[x].(phase := Watching))
    case Observe(x) => WithExec(s, x, s.execs[x].(phase := Ending(s.execs[x].proc.exitCode)))
    case RecordEnd(x, applied) =>
      var e := s.execs[x];
      WithExec(s.(rows := if applied && x in s.rows then s.rows[x := Closed(e.phase.code)] else s.rows), x,
               e.(ends := e.ends + [e.phase.code], phase := Finished))
    case Proceed(x, step) => WithExec(s, x, s.execs[x].(proc := P.Apply(s.execs[x].proc, step)))
    case Purge(ids) => s.(rows := s.rows - ids)
    case Crash => s.(alive := false)
  }

  predicate IsRun(s: State, steps: seq<Step>)
    decreases |steps|
  {
    steps == [] || (Enabled(s, steps[0]) && IsRun(Apply(s, steps[0]), steps[1..]))
  }

  function After(s: State, steps: seq<Step>): State
    requires IsRun(s, steps)
    decreases |steps|
  {
    if steps == [] then s else After(Apply(s, steps[0]), steps[1..])
  }

  predicate ExecInv(e: Exec) {
    && P.Inv(e.proc)
    && e.starts == (if e.phase.Launched? then 0 else 1)
    && |e.ends| == (if e.phase.Finished? then 1 else 0)
    && (e.phase.Ending? ==> P.Done(e.proc) && e.phase.code == e.proc.exitCode)
    && (e.phase.Finished? ==> P.Done(e.proc) && e.ends[0] == e.proc.exitCode)
  }

  ghost predicate Inv(s: State) {
    && (forall x :: 0 <= x < |s.execs| ==> ExecInv(s.execs[x]))
    && (forall x :: x in s.rows ==> x < |s.execs| && s.execs[x].starts == 1)
    && (forall x :: x in s.rows && s.rows[x].Closed? ==> s.execs[x].ends == [s.rows[x].code])
  }

  lemma ProceedKeeps(e: Exec, step: P.Step)
    requires ExecInv(e) && P.Enabled(e.proc, step)
    ensures ExecInv(e.(proc := P.Apply(e.proc, step)))
  {
    P.StepKeeps(e.proc, step);
  }

  lemma ExecsKept(s: State, step: Step, x: nat)
    requires Inv(s) && Enabled(s, step) && x < |Apply(s, step).execs|
    ensures ExecInv(Apply(s, step).execs[x])
  {
    assert P.Inv(P.Started);
    if x < |s.execs| {
      assert ExecInv(s.execs[x]);
    }
    if step.Proceed? {
      ProceedKeeps(s.execs[step.x], step.step);
    }
    hide P.Inv, P.Apply, P.Enabled;
  }

  lemma RowsKept(s: State, step: Step)
    requires Inv(s) && Enabled(s, step)
    ensures var t := Apply(s, step);
            && (forall x :: x in t.rows ==> x < |t.execs| && t.execs[x].starts == 1)
            && (forall x :: x in t.rows && t.rows[x].Closed? ==> t.execs[x].ends == [t.rows[x].code])
  {
    hide P.Inv, P.Apply, P.Enabled;
    if step.RecordStart? || step.RecordEnd? {
      assert ExecInv(s.execs[step.x]);
    }
  }

  lemma StepKeeps(s: State, step: Step)
    requires Inv(s) && Enabled(s, step)
    ensures Inv(Apply(s, step))
  {
    hide ExecInv, Apply, Enabled;
    forall x | 0 <= x < |Apply(s, step).execs|
      ensures ExecInv(Apply(s, step).execs[x])
    {
      ExecsKept(s, step, x);
    }
    RowsKept(s, step);
  }

  lemma {:induction false} RunKeeps(s: State, steps: seq<Step>)
    requires Inv(s) && IsRun(s, steps)
    ensures Inv(After(s, steps))
    decreases |steps|
  {
    if steps != [] {
      StepKeeps(s, steps[0]);
      RunKeeps(Apply(s, steps[0]), steps[1..]);
    }
  }

  /** In every run each execution's end is recorded at most once, only after its start, only after its process
      has exited, and with the exit code the process published. */
  lemma EndIsRecordedOnce(steps: seq<Step>, x: nat)
    requires IsRun(Initial, steps) && x < |After(Initial, steps).execs|
    ensures var e := After(Initial, steps).execs[x];
            && e.starts <= 1 && |e.ends| <= 1
            && (e.ends != [] ==> e.starts == 1 && P.Done(e.proc) && e.proc.exit.Some?
                                 && e.ends[0] == e.proc.exitCode == e.proc.exit.value.code)
  {
    RunKeeps(Initial, steps);
    assert ExecInv(After(Initial, steps).execs[x]);
  }

  /** A row that shows an end belongs to a process that has exited, with that exit code. */
  lemma EndedRowHasExited(steps: seq<Step>, x: nat)
    requires IsRun(Initial, steps)
    requires x in After(Initial, steps).rows && After(Initial, steps).rows[x].Closed?
    ensures var s := After(Initial, steps);
            x < |s.execs| && s.execs[x].proc.exit.Some? && s.rows[x].code == s.execs[x].proc.exit.value.code
  {
    RunKeeps(Initial, steps);
    assert ExecInv(After(Initial, steps).execs[x]);
  }

  /** The start of `x` has been recorded, or tried, and there is no row. */
  predicate IsGone(s: State, x: nat) {
    x < |s.execs| && !s.execs[x].phase.Launched? && x !in s.rows
  }

  lemma {:induction false} GoneStaysGone(s: State, steps: seq<Step>, x: nat)
    requires IsGone(s, x) && IsRun(s, steps)
    ensures IsGone(After(s, steps), x)
    decreases |steps|
  {
    if steps != [] {
      assert IsGone(Apply(s, steps[0]), x);
      hide Apply, Enabled, IsGone;
      GoneStaysGone(Apply(s, steps[0]), steps[1..], x);
    }
  }

  /** A purged row is gone for good: no later start, end or retry brings it back. */
  lemma PurgedStaysGone(s: State, ids: set<nat>, steps: seq<Step>, x: nat)
    requires Inv(s) && x in s.rows && x in ids && Enabled(s, Purge(ids)) && IsRun(Apply(s, Purge(ids)), steps)
    ensures x !in After(Apply(s, Purge(ids)), steps).rows
  {
    assert ExecInv(s.execs[x]);
    GoneStaysGone(Apply(s, Purge(ids)), steps, x);
  }

  /** Nothing happens after a crash. */
  lemma CrashIsTheEnd(s: State, steps: seq<Step>)
    requires Enabled(s, Crash) && IsRun(Apply(s, Crash), steps)
    ensures steps == []
  {
  }

  // ----- and it is recorded -----

  function PhaseWork(phase: Phase): nat {
    match phase
    case Launched => 3
    case Waiting => 2
    case Watching => 2
    case Ending(_) => 1
    case Finished => 0
  }

  /** What the Agent's own goroutines still have to do for an execution whose process has exited. */
  function Work(e: Exec): nat {
    P.Work(e.proc) + PhaseWork(e.phase)
  }

  /** What the Agent's own next step does to the row of `x`, if its statements take effect. */
  ghost predicate RowMoves(s: State, t: State, x: nat)
    requires x < |s.execs| && x < |t.execs|
  {
    && (x in t.rows <==> x in s.rows || s.execs[x].phase.Launched?)
    && (x in t.rows && t.execs[x].phase.Finished? ==> t.rows[x] == Closed(t.execs[x].proc.exitCode))
  }

  /** A step of the Agent that brings execution `x` closer to its recorded end. */
  function NextStep(s: State, x: nat): (step: Step)
    requires Inv(s) && s.alive && x < |s.execs| && s.execs[x].proc.exit.Some? && !s.execs[x].phase.Finished?
    ensures Enabled(s, step) && Inv(Apply(s, step)) && Apply(s, step).alive
    ensures x < |Apply(s, step).execs| && Apply(s, step).execs[x].proc.exit.Some?
    ensures Work(Apply(s, step).execs[x]) < Work(s.execs[x])
    ensures RowMoves(s, Apply(s, step), x) && !Apply(s, step).execs[x].phase.Launched?
  {
    var e := s.execs[x];
    assert ExecInv(e);
    var step :=
      if e.phase.Launched? then RecordStart(x, true)
      else if e.phase.Ending? then RecordEnd(x, true)
      else if !P.Done(e.proc) then Proceed(x, P.NextStep(e.proc))
      else if e.phase.Waiting? then InTime(x)
      else Observe(x);
    assert step.Proceed? ==> Work(Apply(s, step).execs[x]) < Work(e) by {
      if step.Proceed? { P.ClosedPipesOnlyFinish(e.proc, step.step); }
    }
    StepKeeps(s, step);
    step
  }

  /** If the process finishes while the Agent lives, the Agent's own steps reach the recorded end, on every path, and
      then it has been recorded exactly once: unless the row was purged or its start was never stored, it shows the
      end, with the code the process exited with. */
  lemma {:induction false} ExitIsRecorded(s: State, x: nat) returns (steps: seq<Step>)
    requires Inv(s) && s.alive && x < |s.execs| && s.execs[x].proc.exit.Some?
    ensures IsRun(s, steps) && x < |After(s, steps).execs|
    ensures var e := After(s, steps).execs[x]; e.phase.Finished? && |e.ends| == 1 && e.ends[0] == e.proc.exitCode
    ensures x in After(s, steps).rows <==> x in s.rows || s.execs[x].phase.Launched?
    ensures !s.execs[x].phase.Finished? && x in After(s, steps).rows ==>
              After(s, steps).rows[x] == Closed(After(s, steps).execs[x].proc.exitCode)
    ensures |steps| <= Work(s.execs[x]) && (s.execs[x].phase.Finished? ==> steps == [])
    decreases Work(s.execs[x])
  {
    hide Enabled, Apply, Work;
    if s.execs[x].phase.Finished? {
      steps := [];
      assert ExecInv(s.execs[x]);
    } else {
      var step := NextStep(s, x);
      hide Inv;
      var rest := ExitIsRecorded(Apply(s, step), x);
      steps := [step] + rest;
      assert steps[1..] == rest;
    }
  }
}
