/** One managed process from start to publication of its end (agent/processmgr.go): the process itself, the
    two goroutines copying its output, and the goroutine that waits for its exit, drains the pipes,
    publishes the result and closes `done`. One step for each blocking operation or lock region. */
module ProcessLifecycle {
  import opened Bytes
  import opened Wrappers

  /** What the backend's `Wait` returns; `code` is absent when the exit could not be observed. */
  datatype ExitResult = ExitResult(code: Option<int>, setupFailed: bool)

  /** A copier is blocked in a read, holds a chunk it has read, or has returned. */
  datatype Copier = Copying | Holding(chunk: seq<Byte>) | Returned

  /** A stream: its copier, everything read from the pipe, and everything written to the ring buffer. */
  datatype Stream = Stream(copier: Copier, taken: seq<Byte>, captured: seq<Byte>)

  /** Program points of the exit-wait goroutine. */
  datatype Waiter =
    | AwaitExit
    | Grace(res: ExitResult)
    | Closing(res: ExitResult)
    | AwaitDrain(res: ExitResult)
    | Recording(res: ExitResult)
    | Publishing(res: ExitResult)
    | Ended(res: ExitResult)

  datatype Proc = Proc(
    exit: Option<ExitResult>,
    out: Stream,
    err: Stream,
    ioClosed: bool,
    waiter: Waiter,
    exitCode: Option<int>,
    setupFailed: bool,
    finished: bool,
    doneCloses: nat)

  const Fresh := Stream(Copying, [], [])

  const Started := Proc(None, Fresh, Fresh, false, AwaitExit, None, false, false, 0)

  /** The `done` channel is closed. */
  predicate Done(p: Proc) {
    p.doneCloses > 0
  }

  predicate Drained(p: Proc) {
    p.out.copier.Returned? && p.err.copier.Returned?
  }

  datatype Which = Stdout | Stderr

  datatype Step =
    | Exit(res: ExitResult)
    | Read(which: Which, chunk: seq<Byte>)
    | Copy(which: Which)
    | Return(which: Which)
    | WaitReturns
    | SeeDrained
    | GraceElapses
    | CloseIO
    | DrainDone
    | Record
    | CloseDone

  function StreamOf(p: Proc, which: Which): Stream {
    if which.Stdout? then p.out else p.err
  }

  function WithStream(p: Proc, which: Which, s: Stream): Proc {
    if which.Stdout? then p.(out := s) else p.(err := s)
  }

  /** A copier reads only from an open pipe, and may return at end of file, on an error, or because the pipe
      was closed under it. */
  predicate Enabled(p: Proc, step: Step) {
    match step
    case Exit(_) => p.exit.None?
    case Read(which, chunk) => StreamOf(p, which).copier.Copying? && !p.ioClosed && chunk != []
    case Copy(which) => StreamOf(p, which).copier.Holding?
    case Return(which) => StreamOf(p, which).copier.Copying?
    case WaitReturns => p.waiter.AwaitExit? && p.exit.Some?
    case SeeDrained => p.waiter.Grace? && Drained(p)
    case GraceElapses => p.waiter.Grace?
    case CloseIO => p.waiter.Closing?
    case DrainDone => p.waiter.AwaitDrain? && Drained(p)
    case Record => p.waiter.Recording?
    case CloseDone => p.waiter.Publishing?
  }

  function Apply(p: Proc, step: Step): Proc
    requires Enabled(p, step)
  {
    match step
    case Exit(res) => p.(exit := Some(res))
    case Read(which, chunk) =>
      var s := StreamOf(p, which);
      WithStream(p, which, s.(copier := Holding(chunk), taken := s.taken + chunk))
    case Copy(which) =>
      var s := StreamOf(p, which);
      WithStream(p, which, s.(copier := Copying, captured := s.captured + s.copier.chunk))
    case Return(which) => WithStream(p, which, StreamOf(p, which).(copier := Returned))
    case WaitReturns => p.(waiter := Grace(p.exit.value))
    case SeeDrained => p.(waiter := Closing(p.waiter.res))
    case GraceElapses => p.(waiter := Closing(p.waiter.res))
    case CloseIO => p.(ioClosed := true, waiter := AwaitDrain(p.waiter.res))
    case DrainDone => p.(waiter := Recording(p.waiter.res))
    case Record =>
      p.(exitCode := p.waiter.res.code, setupFailed := p.waiter.res.setupFailed, finished := true,
         waiter := Publishing(p.waiter.res))
    case CloseDone => p.(doneCloses := p.doneCloses + 1, waiter := Ended(p.waiter.res))
  }

  predicate IsRun(p: Proc, steps: seq<Step>)
    decreases |steps|
  {
    steps == [] || (Enabled(p, steps[0]) && IsRun(Apply(p, steps[0]), steps[1..]))
  }

  function After(p: Proc, steps: seq<Step>): Proc
    requires IsRun(p, steps)
    decreases |steps|
  {
    if steps == [] then p else After(Apply(p, steps[0]), steps[1..])
  }

  // ----- what every run keeps -----

  function Held(s: Stream): seq<Byte> {
    if s.copier.Holding? then s.copier.chunk else []
  }

  predicate Inv(p: Proc) {
    && (!p.waiter.AwaitExit? ==> p.exit == Some(p.waiter.res))
    && (p.waiter.AwaitDrain? || p.waiter.Recording? || p.waiter.Publishing? || p.waiter.Ended? <==> p.ioClosed)
    && (p.waiter.Recording? || p.waiter.Publishing? || p.waiter.Ended? ==> Drained(p))
    && (p.waiter.Publishing? || p.waiter.Ended? <==> p.finished)
    && (p.finished ==> p.exitCode == p.waiter.res.code && p.setupFailed == p.waiter.res.setupFailed)
    && (!p.finished ==> p.exitCode.None? && !p.setupFailed)
    && p.doneCloses == (if p.waiter.Ended? then 1 else 0)
    && p.out.taken == p.out.captured + Held(p.out)
    && p.err.taken == p.err.captured + Held(p.err)
  }

  lemma StepKeeps(p: Proc, step: Step)
    requires Inv(p) && Enabled(p, step)
    ensures Inv(Apply(p, step))
  {
  }

  lemma {:induction false} RunKeeps(p: Proc, steps: seq<Step>)
    requires Inv(p) && IsRun(p, steps)
    ensures Inv(After(p, steps))
    decreases |steps|
  {
    if steps != [] {
      StepKeeps(p, steps[0]);
      RunKeeps(Apply(p, steps[0]), steps[1..]);
    }
  }

  /** In every run `done` is closed at most once, and when it is closed the process has exited, both copiers
      have returned, all that was read is captured, and the published result is the backend's. */
  lemma DoneIsLast(steps: seq<Step>)
    requires IsRun(Started, steps)
    ensures var p := After(Started, steps);
            && p.doneCloses <= 1
            && (Done(p) ==>
                  && Drained(p) && p.finished
                  && p.exit.Some? && p.exitCode == p.exit.value.code && p.setupFailed == p.exit.value.setupFailed
                  && p.out.captured == p.out.taken && p.err.captured == p.err.taken)
  {
    RunKeeps(Started, steps);
  }

  /** A process only counts as finished, and so as collectable, once it has exited and its output is
      complete. */
  lemma FinishedHasExited(p: Proc)
    requires Inv(p)
    ensures p.finished ==> p.exit.Some? && Drained(p)
    ensures Done(p) ==> p.finished
  {
  }

  /** Once both copiers have returned the output never changes again, and once the result is recorded neither
      does it, in any continuation; so what a caller reads after `done` is final. */
  lemma {:induction false} FinalForever(p: Proc, steps: seq<Step>)
    requires Inv(p) && Drained(p) && IsRun(p, steps)
    ensures var q := After(p, steps);
            && Drained(q) && q.out.captured == p.out.captured && q.err.captured == p.err.captured
            && (p.finished ==> q.finished && q.exitCode == p.exitCode && q.setupFailed == p.setupFailed)
            && (Done(p) ==> q == p)
    decreases |steps|
  {
    if steps != [] {
      StepKeeps(p, steps[0]);
      FinalForever(Apply(p, steps[0]), steps[1..]);
    }
  }

  // ----- getting there -----

  function CopierWork(s: Stream): nat {
    match s.copier
    case Holding(_) => 2
    case Copying => 1
    case Returned => 0
  }

  function WaiterWork(w: Waiter): nat {
    match w
    case AwaitExit => 6
    case Grace(_) => 5
    case Closing(_) => 4
    case AwaitDrain(_) => 3
    case Recording(_) => 2
    case Publishing(_) => 1
    case Ended(_) => 0
  }

  function Work(p: Proc): nat {
    WaiterWork(p.waiter) + CopierWork(p.out) + CopierWork(p.err)
  }

  /** Reading is the only step of the Agent that does not bring the end closer, and closing the pipes rules it
      out: from then on every step does. */
  lemma ClosedPipesOnlyFinish(p: Proc, step: Step)
    requires Inv(p) && Enabled(p, step)
    ensures !step.Exit? && !step.Read? ==> Work(Apply(p, step)) < Work(p)
    ensures p.ioClosed ==> !step.Read? && !step.Exit?
  {
  }

  /** A step of the Agent's own goroutines towards the end, whatever descendants do with the pipes. */
  function NextStep(p: Proc): (step: Step)
    requires Inv(p) && p.exit.Some? && !Done(p)
    ensures Enabled(p, step) && !step.Exit? && !step.Read?
  {
    match p.waiter
    case AwaitExit => WaitReturns
    case Grace(_) => GraceElapses
    case Closing(_) => CloseIO
    case AwaitDrain(_) =>
      if p.out.copier.Holding? then Copy(Stdout)
      else if p.out.copier.Copying? then Return(Stdout)
      else if p.err.copier.Holding? then Copy(Stderr)
      else if p.err.copier.Copying? then Return(Stderr)
      else DrainDone
    case Recording(_) => Record
    case Publishing(_) => CloseDone
    case Ended(_) => assert false; CloseDone
  }

  /** Once the process has exited, the Agent alone reaches `done`, in at most ten steps of its own. */
  lemma {:induction false} ExitReachesDone(p: Proc) returns (steps: seq<Step>)
    requires Inv(p) && p.exit.Some?
    ensures IsRun(p, steps) && Done(After(p, steps)) && |steps| <= Work(p) <= 10
    ensures forall i :: 0 <= i < |steps| ==> !steps[i].Exit? && !steps[i].Read?
    decreases Work(p)
  {
    if Done(p) {
      steps := [];
    } else {
      var step := NextStep(p);
      StepKeeps(p, step);
      ClosedPipesOnlyFinish(p, step);
      var rest := ExitReachesDone(Apply(p, step));
      steps := [step] + rest;
      assert steps[1..] == rest;
    }
  }
}
