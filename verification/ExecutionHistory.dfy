/** What becomes of an execution and its row, told from the steps of a run: which were launched, how far each handler
    got, and what the history table shows. */
module ExecutionHistory {
  import opened Wrappers
  import opened ExecutionEnd
  import P = ProcessLifecycle

  // ----- the executions -----

  /** The paths of the executions launched, in order. */
  function Launches(past: seq<Step>): seq<Path> {
    if past == [] then []
    else Launches(past[..|past| - 1]) + (if past[|past| - 1].Launch? then [past[|past| - 1].path] else [])
  }

  /** What the process of `x` went through, in order. */
  function ProcSteps(past: seq<Step>, x: nat): seq<P.Step> {
    if past == [] then []
    else
      var last := past[|past| - 1];
      ProcSteps(past[..|past| - 1], x) + (if last.Proceed? && last.x == x then [last.step] else [])
  }

  predicate Tried(past: seq<Step>, x: nat) {
    RecordStart(x, true) in past || RecordStart(x, false) in past
  }

  predicate Ended(past: seq<Step>, x: nat) {
    RecordEnd(x, true) in past || RecordEnd(x, false) in past
  }

  /** The handler of `x` stands where its steps brought it: a one-shot call waits with a deadline first and without
      one if it timed out, a background start waits without one at once. */
  predicate ExecIs(past: seq<Step>, x: nat, e: Exec) {
    && (e.phase.Launched? <==> !Tried(past, x))
    && (e.phase.Waiting? <==> e.path.OneShot? && Tried(past, x) && InTime(x) !in past && TimeOut(x) !in past)
    && (e.phase.Watching? <==> Tried(past, x) && (e.path.Background? || TimeOut(x) in past) && Observe(x) !in past)
    && (e.phase.Ending? <==> (InTime(x) in past || Observe(x) in past) && !Ended(past, x))
    && (e.phase.Finished? <==> Ended(past, x))
    && (InTime(x) in past || TimeOut(x) in past ==> e.path.OneShot? && Tried(past, x))
    && (InTime(x) in past ==> TimeOut(x) !in past && Observe(x) !in past)
    && (Observe(x) in past ==> e.path.Background? || TimeOut(x) in past)
    && P.IsRun(P.Started, ProcSteps(past, x)) && e.proc == P.After(P.Started, ProcSteps(past, x))
  }

  /** The execution a step is about. */
  function About(step: Step): Option<nat> {
    match step
    case RecordStart(x, _) => Some(x)
    case InTime(x) => Some(x)
    case TimeOut(x) => Some(x)
    case Observe(x) => Some(x)
    case RecordEnd(x, _) => Some(x)
    case Proceed(x, _) => Some(x)
    case _ => None
  }

  predicate IsUnheardOf(past: seq<Step>, x: nat) {
    forall step :: step in past ==> About(step) != Some(x)
  }

  ghost predicate ExecsAre(past: seq<Step>, s: State) {
    && |s.execs| == |Launches(past)|
    && (forall x :: 0 <= x < |s.execs| ==> s.execs[x].path == Launches(past)[x] && ExecIs(past, x, s.execs[x]))
    && (forall x: nat :: x >= |s.execs| ==> IsUnheardOf(past, x))
  }

  lemma {:induction false} NoProcSteps(past: seq<Step>, x: nat)
    requires IsUnheardOf(past, x)
    ensures ProcSteps(past, x) == []
  {
    if past != [] {
      assert past[|past| - 1] in past;
      NoProcSteps(past[..|past| - 1], x);
    }
  }

  lemma LastStep(past: seq<Step>, step: Step, x: nat)
    ensures ProcSteps(past + [step], x) ==
            ProcSteps(past, x) + if step.Proceed? && step.x == x then [step.step] else []
    ensures Launches(past + [step]) == Launches(past) + if step.Launch? then [step.path] else []
  {
    assert (past + [step])[..|past|] == past;
  }

  lemma Snoc(past: seq<Step>, step: Step, other: Step)
    ensures other in past + [step] <==> other in past || other == step
  {
  }

  /** The steps `ExecIs` asks for. */
  lemma SnocOwn(past: seq<Step>, step: Step, x: nat)
    ensures Tried(past + [step], x) <==> Tried(past, x) || (step.RecordStart? && step.x == x)
    ensures Ended(past + [step], x) <==> Ended(past, x) || (step.RecordEnd? && step.x == x)
    ensures InTime(x) in past + [step] <==> InTime(x) in past || step == InTime(x)
    ensures TimeOut(x) in past + [step] <==> TimeOut(x) in past || step == TimeOut(x)
    ensures Observe(x) in past + [step] <==> Observe(x) in past || step == Observe(x)
  {
    Snoc(past, step, RecordStart(x, true));
    Snoc(past, step, RecordStart(x, false));
    Snoc(past, step, RecordEnd(x, true));
    Snoc(past, step, RecordEnd(x, false));
    Snoc(past, step, InTime(x));
    Snoc(past, step, TimeOut(x));
    Snoc(past, step, Observe(x));
  }

  lemma {:induction false} ProcSnoc(p: P.Proc, steps: seq<P.Step>, last: P.Step)
    requires P.IsRun(p, steps) && P.Enabled(P.After(p, steps), last)
    ensures P.IsRun(p, steps + [last]) && P.After(p, steps + [last]) == P.Apply(P.After(p, steps), last)
    decreases |steps|
  {
    hide P.Enabled, P.Apply;
    if steps == [] {
      assert steps + [last] == [last] && [last][1..] == [];
      assert P.IsRun(P.Apply(p, last), []);
    } else {
      ProcSnoc(P.Apply(p, steps[0]), steps[1..], last);
      assert (steps + [last])[1..] == steps[1..] + [last];
    }
  }

  lemma OwnStep(past: seq<Step>, s: State, step: Step, x: nat)
    requires Enabled(s, step) && x < |s.execs| && About(step) == Some(x) && ExecIs(past, x, s.execs[x])
    ensures x < |Apply(s, step).execs| && Apply(s, step).execs[x].path == s.execs[x].path
    ensures ExecIs(past + [step], x, Apply(s, step).execs[x])
  {
    hide P.IsRun, P.After, P.Apply, P.Enabled, P.Done, ProcSteps, Tried, Ended;
    LastStep(past, step, x);
    SnocOwn(past, step, x);
    if step.Proceed? {
      ProcSnoc(P.Started, ProcSteps(past, x), step.step);
    } else {
      assert ProcSteps(past, x) + [] == ProcSteps(past, x);
      OwnPhase(past, s, step, x);
    }
    hide Apply, Enabled, About;
  }

  /** The step of the handler itself. */
  lemma OwnPhase(past: seq<Step>, s: State, step: Step, x: nat)
    requires Enabled(s, step) && x < |s.execs| && About(step) == Some(x) && !step.Proceed?
    requires ExecIs(past, x, s.execs[x]) && ProcSteps(past + [step], x) == ProcSteps(past, x)
    ensures ExecIs(past + [step], x, Apply(s, step).execs[x])
  {
    hide P.IsRun, P.After, P.Apply, P.Enabled, P.Done, ProcSteps, Tried, Ended;
    SnocOwn(past, step, x);
  }

  lemma OthersStep(past: seq<Step>, step: Step, x: nat, e: Exec)
    requires About(step) != Some(x) && ExecIs(past, x, e)
    ensures ExecIs(past + [step], x, e)
  {
    hide P.IsRun, P.After, ProcSteps, Tried, Ended;
    LastStep(past, step, x);
    SnocOwn(past, step, x);
    assert ProcSteps(past, x) + [] == ProcSteps(past, x);
  }

  lemma NewcomerIs(past: seq<Step>, x: nat, path: Path)
    requires IsUnheardOf(past, x)
    ensures ExecIs(past, x, Exec(path, P.Started, Launched, 0, []))
  {
    NoProcSteps(past, x);
    assert About(RecordStart(x, true)) == About(RecordStart(x, false)) == Some(x);
    assert About(RecordEnd(x, true)) == About(RecordEnd(x, false)) == Some(x);
    assert About(InTime(x)) == About(TimeOut(x)) == About(Observe(x)) == Some(x);
    hide ProcSteps, About;
  }

  lemma StepExecs(past: seq<Step>, s: State, step: Step)
    requires ExecsAre(past, s) && Enabled(s, step)
    ensures ExecsAre(past + [step], Apply(s, step))
  {
    hide ExecIs;
    var t := Apply(s, step);
    LastStep(past, step, 0);
    forall x | 0 <= x < |t.execs|
      ensures t.execs[x].path == Launches(past + [step])[x] && ExecIs(past + [step], x, t.execs[x])
    {
      if x == |s.execs| {
        NewcomerIs(past, x, step.path);
        OthersStep(past, step, x, t.execs[x]);
      } else if About(step) == Some(x) {
        OwnStep(past, s, step, x);
      } else {
        assert t.execs[x] == s.execs[x];
        OthersStep(past, step, x, s.execs[x]);
      }
    }
    forall x: nat | x >= |t.execs|
      ensures IsUnheardOf(past + [step], x)
    {
      assert IsUnheardOf(past, x) && About(step) != Some(x);
      forall other | other in past + [step]
        ensures About(other) != Some(x)
      {
        Snoc(past, step, other);
      }
    }
  }

  // ----- the rows -----

  /** The `i`-th step stored the start of `x`, and no purge after it named `x`. */
  predicate StoredAt(past: seq<Step>, x: nat, i: nat) {
    i < |past| && past[i] == RecordStart(x, true)
    && forall j :: i < j < |past| && past[j].Purge? ==> x !in past[j].ids
  }

  ghost predicate IsStored(past: seq<Step>, x: nat) {
    exists i: nat :: StoredAt(past, x, i)
  }

  /** The row of `x` shows what was recorded. */
  predicate RowIs(past: seq<Step>, s: State, x: nat) {
    x in s.rows ==>
      x < |s.execs| && s.rows[x] == if RecordEnd(x, true) in past then Closed(s.execs[x].proc.exitCode) else Open
  }

  ghost predicate RowsAre(past: seq<Step>, s: State) {
    && (forall x: nat :: x in s.rows <==> IsStored(past, x))
    && (forall x: nat :: RowIs(past, s, x))
  }

  lemma StoredStep(past: seq<Step>, step: Step, x: nat)
    ensures IsStored(past + [step], x) <==>
            step == RecordStart(x, true) || (IsStored(past, x) && !(step.Purge? && x in step.ids))
  {
    var all, n := past + [step], |past|;
    assert all[n] == step && forall j :: 0 <= j < n ==> all[j] == past[j];
    if i: nat :| StoredAt(all, x, i) {
      if i < n {
        assert StoredAt(past, x, i);
      }
    }
    if step == RecordStart(x, true) {
      assert StoredAt(all, x, n);
    } else if i: nat :| StoredAt(past, x, i) {
      if !(step.Purge? && x in step.ids) {
        assert StoredAt(all, x, i);
      }
    }
  }

  lemma StepRows(past: seq<Step>, s: State, step: Step)
    requires Inv(s) && ExecsAre(past, s) && RowsAre(past, s) && Enabled(s, step)
    ensures RowsAre(past + [step], Apply(s, step))
  {
    hide RowIs, IsStored, ExecsAre, Inv, Apply, Enabled;
    var t := Apply(s, step);
    forall x: nat
      ensures x in t.rows <==> IsStored(past + [step], x)
    {
      StoredRow(past, s, step, x);
    }
    forall x: nat
      ensures RowIs(past + [step], t, x)
    {
      RowStep(past, s, step, x);
    }
  }

  lemma StoredRow(past: seq<Step>, s: State, step: Step, x: nat)
    requires Inv(s) && ExecsAre(past, s) && RowsAre(past, s) && Enabled(s, step)
    ensures x in Apply(s, step).rows <==> IsStored(past + [step], x)
  {
    assert x in s.rows <==> IsStored(past, x);
    StoredStep(past, step, x);
    assert x in s.rows && step.RecordEnd? && step.x == x ==> ExecInv(s.execs[x]);
    hide RowsAre, IsStored, ExecsAre, Inv, P.Enabled, P.Apply;
  }

  lemma RowStep(past: seq<Step>, s: State, step: Step, x: nat)
    requires Inv(s) && ExecsAre(past, s) && RowsAre(past, s) && Enabled(s, step)
    ensures RowIs(past + [step], Apply(s, step), x)
  {
    assert RowIs(past, s, x);
    if x < |s.execs| {
      assert ExecIs(past, x, s.execs[x]) && ExecInv(s.execs[x]);
      hide ExecsAre, RowsAre, Inv, ExecIs, ExecInv, RowIs;
      if step.Proceed? && step.x == x {
        ProceedRow(past, s, step, x);
      } else if About(step) == Some(x) {
        OwnRow(past, s, step, x);
      } else {
        OtherRow(past, s, step, x);
      }
    } else {
      hide ExecsAre, RowsAre, Inv;
    }
  }

  lemma OtherRow(past: seq<Step>, s: State, step: Step, x: nat)
    requires RowIs(past, s, x) && Enabled(s, step) && About(step) != Some(x) && x < |s.execs|
    ensures RowIs(past + [step], Apply(s, step), x)
  {
    Snoc(past, step, RecordEnd(x, true));
    assert Apply(s, step).execs[x] == s.execs[x] && step != RecordEnd(x, true);
    assert x in Apply(s, step).rows ==> x in s.rows && Apply(s, step).rows[x] == s.rows[x];
    hide Apply, Enabled;
  }

  lemma ProceedRow(past: seq<Step>, s: State, step: Step, x: nat)
    requires RowIs(past, s, x) && Enabled(s, step) && step.Proceed? && step.x == x && x < |s.execs|
    requires ExecIs(past, x, s.execs[x]) && ExecInv(s.execs[x])
    ensures RowIs(past + [step], Apply(s, step), x)
  {
    Snoc(past, step, RecordEnd(x, true));
    PublishedStays(s.execs[x].proc, step.step);
    hide P.Inv, P.Apply, P.Enabled, P.Done, P.IsRun, P.After, ProcSteps;
  }

  lemma OwnRow(past: seq<Step>, s: State, step: Step, x: nat)
    requires RowIs(past, s, x) && Enabled(s, step) && About(step) == Some(x) && !step.Proceed? && x < |s.execs|
    requires ExecIs(past, x, s.execs[x]) && ExecInv(s.execs[x])
    ensures RowIs(past + [step], Apply(s, step), x)
  {
    Snoc(past, step, RecordEnd(x, true));
    hide P.Inv, P.Apply, P.Enabled, P.Done, P.IsRun, P.After, ProcSteps;
  }

  lemma PublishedStays(p: P.Proc, step: P.Step)
    requires P.Inv(p) && P.Enabled(p, step)
    ensures P.Done(p) ==> P.Apply(p, step).exitCode == p.exitCode
  {
  }

  // ----- whole runs -----

  ghost predicate History(past: seq<Step>, s: State) {
    Inv(s) && ExecsAre(past, s) && RowsAre(past, s)
  }

  lemma {:induction false} RunHistory(past: seq<Step>, s: State, steps: seq<Step>)
    requires History(past, s) && IsRun(s, steps)
    ensures History(past + steps, After(s, steps))
    decreases |steps|
  {
    hide ExecsAre, RowsAre, Inv, Enabled, Apply;
    if steps == [] {
      assert past + [] == past;
    } else {
      StepKeeps(s, steps[0]);
      StepExecs(past, s, steps[0]);
      StepRows(past, s, steps[0]);
      RunHistory(past + [steps[0]], Apply(s, steps[0]), steps[1..]);
      assert past + [steps[0]] + steps[1..] == past + steps;
    }
  }

  lemma FromTheStart(steps: seq<Step>)
    requires IsRun(Initial, steps)
    ensures History(steps, After(Initial, steps))
  {
    RunHistory([], Initial, steps);
    assert [] + steps == steps;
  }

  /** In every run the table shows exactly what was recorded: `x` has a row if and only if storing its start took
      effect and no later purge named it; the row is open until recording its end took effect, and from then on shows
      the code the process exited with. */
  lemma RowsAreHistory(steps: seq<Step>, x: nat)
    requires IsRun(Initial, steps)
    ensures var s := After(Initial, steps);
            && (x in s.rows <==> IsStored(steps, x))
            && (x in s.rows ==> x < |s.execs|)
            && (x in s.rows && RecordEnd(x, true) !in steps ==> s.rows[x] == Open)
            && (x in s.rows && RecordEnd(x, true) in steps ==>
                  s.execs[x].proc.exit.Some? && s.rows[x] == Closed(s.execs[x].proc.exit.value.code))
  {
    FromTheStart(steps);
    assert RowIs(steps, After(Initial, steps), x);
    if x in After(Initial, steps).rows && RecordEnd(x, true) in steps {
      EndedRowHasExited(steps, x);
    }
  }

  /** In every run the executions are those launched, each on its own path and with its own process, and each handler
      stands where its steps brought it. */
  lemma ExecsAreHistory(steps: seq<Step>)
    requires IsRun(Initial, steps)
    ensures ExecsAre(steps, After(Initial, steps))
  {
    FromTheStart(steps);
  }
}
