/** What becomes of one process, told from the steps of a run: which output is captured, which result is published, and
    in which order the goroutine that waits for its exit does things. */
module ProcessHistory {
  import opened Bytes
  import opened Wrappers
  import opened ProcessLifecycle

  // ----- output and exit -----

  /** Everything read from a stream, in order. */
  function Chunks(steps: seq<Step>, which: Which): seq<Byte> {
    if steps == [] then []
    else (if steps[0].Read? && steps[0].which == which then steps[0].chunk else []) + Chunks(steps[1..], which)
  }

  lemma StepTakes(p: Proc, step: Step, which: Which)
    requires Enabled(p, step)
    ensures StreamOf(Apply(p, step), which).taken ==
            StreamOf(p, which).taken + if step.Read? && step.which == which then step.chunk else []
  {
    assert StreamOf(p, which).taken + [] == StreamOf(p, which).taken;
  }

  lemma {:induction false} RunTakes(p: Proc, steps: seq<Step>, which: Which)
    requires IsRun(p, steps)
    ensures StreamOf(After(p, steps), which).taken == StreamOf(p, which).taken + Chunks(steps, which)
    decreases |steps|
  {
    if steps != [] {
      StepTakes(p, steps[0], which);
      hide Apply, Enabled, StreamOf;
      RunTakes(Apply(p, steps[0]), steps[1..], which);
      var first := if steps[0].Read? && steps[0].which == which then steps[0].chunk else [];
      assert StreamOf(p, which).taken + first + Chunks(steps[1..], which)
          == StreamOf(p, which).taken + (first + Chunks(steps[1..], which));
    }
  }

  lemma {:induction false} RunExits(p: Proc, steps: seq<Step>)
    requires IsRun(p, steps)
    ensures p.exit.Some? ==> After(p, steps).exit == p.exit && forall res :: Exit(res) !in steps
    ensures p.exit.None? ==>
              (After(p, steps).exit.Some? ==> Exit(After(p, steps).exit.value) in steps)
              && (forall res :: Exit(res) in steps ==> After(p, steps).exit == Some(res))
    decreases |steps|
  {
    if steps != [] {
      var t := Apply(p, steps[0]);
      RunExits(t, steps[1..]);
      assert forall step :: step in steps <==> step == steps[0] || step in steps[1..];
      assert t.exit == if steps[0].Exit? then Some(steps[0].res) else p.exit;
      hide Apply;
    }
  }

  /** When `done` is closed, what is published is what happened: the exit code and setup flag are those of the one exit
      of the run, and the output of each stream is everything that was read from it, in order. */
  lemma PublishedIsHistory(steps: seq<Step>)
    requires IsRun(Started, steps) && Done(After(Started, steps))
    ensures var p := After(Started, steps);
            && p.out.captured == Chunks(steps, Stdout) && p.err.captured == Chunks(steps, Stderr)
            && exists res :: Exit(res) in steps && p.exitCode == res.code && p.setupFailed == res.setupFailed
                             && forall other :: Exit(other) in steps ==> other == res
  {
    DoneIsLast(steps);
    RunTakes(Started, steps, Stdout);
    RunTakes(Started, steps, Stderr);
    RunExits(Started, steps);
    assert [] + Chunks(steps, Stdout) == Chunks(steps, Stdout) && [] + Chunks(steps, Stderr) == Chunks(steps, Stderr);
    var res := After(Started, steps).exit.value;
    assert Exit(res) in steps;
    hide Done;
  }

  // ----- the waiting goroutine -----

  predicate IsWaiterStep(step: Step) {
    !step.Exit? && !step.Read? && !step.Copy? && !step.Return?
  }

  /** Its steps, in order. */
  function WaiterSteps(steps: seq<Step>): seq<Step> {
    if steps == [] then [] else (if IsWaiterStep(steps[0]) then [steps[0]] else []) + WaiterSteps(steps[1..])
  }

  /** The order: the exit, the drain or its grace period, closing the pipes, the drain for good, the result, `done`. */
  predicate InOrder(own: seq<Step>) {
    && |own| <= 6
    && (|own| > 0 ==> own[0].WaitReturns?)
    && (|own| > 1 ==> own[1].SeeDrained? || own[1].GraceElapses?)
    && (|own| > 2 ==> own[2].CloseIO?)
    && (|own| > 3 ==> own[3].DrainDone?)
    && (|own| > 4 ==> own[4].Record?)
    && (|own| > 5 ==> own[5].CloseDone?)
  }

  function Place(w: Waiter): nat {
    match w
    case AwaitExit => 0
    case Grace(_) => 1
    case Closing(_) => 2
    case AwaitDrain(_) => 3
    case Recording(_) => 4
    case Publishing(_) => 5
    case Ended(_) => 6
  }

  lemma StepKeepsOrder(p: Proc, step: Step, own: seq<Step>)
    requires Enabled(p, step) && InOrder(own) && Place(p.waiter) == |own|
    ensures var now := own + (if IsWaiterStep(step) then [step] else []);
            InOrder(now) && Place(Apply(p, step).waiter) == |now|
  {
  }

  lemma {:induction false} RunKeepsOrder(p: Proc, steps: seq<Step>, own: seq<Step>)
    requires IsRun(p, steps) && InOrder(own) && Place(p.waiter) == |own|
    ensures InOrder(own + WaiterSteps(steps)) && Place(After(p, steps).waiter) == |own + WaiterSteps(steps)|
    decreases |steps|
  {
    if steps == [] {
      assert own + [] == own;
    } else {
      var now := if IsWaiterStep(steps[0]) then [steps[0]] else [];
      StepKeepsOrder(p, steps[0], own);
      hide InOrder, Apply, Enabled, Place;
      RunKeepsOrder(Apply(p, steps[0]), steps[1..], own + now);
      assert own + now + WaiterSteps(steps[1..]) == own + WaiterSteps(steps);
    }
  }

  /** In every run the goroutine takes its six steps in order, each at most once, and stands after the last it took. */
  lemma WaiterGoesInOrder(steps: seq<Step>)
    requires IsRun(Started, steps)
    ensures InOrder(WaiterSteps(steps)) && Place(After(Started, steps).waiter) == |WaiterSteps(steps)|
  {
    RunKeepsOrder(Started, steps, []);
    assert [] + WaiterSteps(steps) == WaiterSteps(steps);
  }

  /** A copier that has returned reads and writes no more, and none reads once the pipes are closed. */
  lemma {:induction false} ReturnedIsSilent(p: Proc, steps: seq<Step>, which: Which)
    requires IsRun(p, steps) && (StreamOf(p, which).copier.Returned? || (p.ioClosed && StreamOf(p, which).copier.Copying?))
    ensures Chunks(steps, which) == []
    decreases |steps|
  {
    if steps != [] {
      var t := Apply(p, steps[0]);
      assert StreamOf(t, which).copier.Returned? || (t.ioClosed && StreamOf(t, which).copier.Copying?);
      ReturnedIsSilent(t, steps[1..], which);
    }
  }
}
