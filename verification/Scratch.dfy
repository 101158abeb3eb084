/** The scratch directories of the sandboxed backend (internal/backend/sandbox_linux.go), with any number of starts
    and waits interleaved: one step for making a directory, for the child taking off, and for each removal. */
module Scratch {
  import opened Wrappers
  import P = ProcessLifecycle
  import opened Sandbox

  /** `scratch` are the directories on disk. The rest is bookkeeping: those of starts in progress, of handles not
      yet waited on, and those whose removal failed. */
  datatype State = State(scratch: set<string>, starting: map<nat, string>, running: map<nat, string>, leaked: set<string>)

  const Initial := State({}, map[], map[], {})

  /** A start is known by the handle it is to return. `removable` says whether the removal succeeds, which nobody
      checks. */
  datatype Step =
    | MakeDir(h: nat, dir: string)
    | GiveUp(h: nat, removable: bool)
    | Spawn(h: nat)
    | Wait(h: nat, removable: bool)

  /** The system picks a name that is not in use. */
  predicate Enabled(s: State, step: Step) {
    match step
    case MakeDir(h, dir) => h !in s.starting && h !in s.running && dir !in s.scratch
    case GiveUp(h, _) => h in s.starting
    case Spawn(h) => h in s.starting
    case Wait(h, _) => h in s.running
  }

  function Removed(s: State, dir: string, removable: bool): State {
    if removable then s.(scratch := s.scratch - {dir}) else s.(leaked := s.leaked + {dir})
  }

  function Apply(s: State, step: Step): State
    requires Enabled(s, step)
  {
    match step
    case MakeDir(h, dir) => s.(scratch := s.scratch + {dir}, starting := s.starting[h := dir])
    case GiveUp(h, removable) => Removed(s.(starting := s.starting - {h}), s.starting[h], removable)
    case Spawn(h) => s.(starting := s.starting - {h}, running := s.running[h := s.starting[h]])
    case Wait(h, removable) => Removed(s.(running := s.running - {h}), s.running[h], removable)
  }

  predicate IsRun(s: State, steps: seq<Step>)
    decreases |steps|
  {
    steps == [] || (Enabled(s, steps[0]) && IsRun(Apply(s, steps[0]), steps[1..]))
  }

  function After(s: State, steps: seq<Step>): State
    requires IsRun(s, steps)
    decreases |steps|
  {
    if steps == [] then s else After(Apply(s, steps[0]), steps[1..])
  }

  // ----- what every run keeps -----

  /** The start or handle `h` owns `dir`. */
  predicate Owns(s: State, h: nat, dir: string) {
    (h in s.starting && s.starting[h] == dir) || (h in s.running && s.running[h] == dir)
  }

  /** Each directory on disk has exactly one owner or is leaked, never both; there is no owner without a directory,
      and no start that is also running. */
  ghost predicate Inv(s: State) {
    && (forall h :: h in s.starting ==> h !in s.running && s.starting[h] in s.scratch)
    && (forall h :: h in s.running ==> s.running[h] in s.scratch)
    && (forall d :: d in s.leaked ==> d in s.scratch)
    && (forall d :: d in s.scratch ==> d in s.leaked || exists h :: Owns(s, h, d))
    && (forall h, d :: Owns(s, h, d) ==> d !in s.leaked)
    && (forall h, g, d :: Owns(s, h, d) && Owns(s, g, d) ==> h == g)
  }

  lemma MakeDirKeeps(s: State, h: nat, dir: string)
    requires Inv(s) && Enabled(s, MakeDir(h, dir))
    ensures Inv(Apply(s, MakeDir(h, dir)))
  {
    var t := Apply(s, MakeDir(h, dir));
    forall d | d in t.scratch
      ensures d in t.leaked || exists g :: Owns(t, g, d)
    {
      if d == dir {
        assert Owns(t, h, d);
      } else if d !in s.leaked {
        var g :| Owns(s, g, d);
        assert Owns(t, g, d);
      }
    }
    assert forall g, d :: Owns(t, g, d) ==> Owns(s, g, d) || (g == h && d == dir);
    assert forall g, d :: Owns(s, g, d) ==> d in s.scratch;
  }

  lemma SpawnKeeps(s: State, h: nat)
    requires Inv(s) && Enabled(s, Spawn(h))
    ensures Inv(Apply(s, Spawn(h)))
  {
    var t := Apply(s, Spawn(h));
    assert forall g, d :: Owns(t, g, d) <==> Owns(s, g, d);
  }

  /** The end of an ownership, by a failed start or a wait. */
  lemma RemovalKeeps(s: State, step: Step)
    requires Inv(s) && Enabled(s, step) && (step.GiveUp? || step.Wait?)
    ensures Inv(Apply(s, step))
  {
    var t := Apply(s, step);
    var dir := if step.GiveUp? then s.starting[step.h] else s.running[step.h];
    assert Owns(s, step.h, dir);
    assert forall g, d :: Owns(t, g, d) <==> Owns(s, g, d) && g != step.h;
    forall d | d in t.scratch
      ensures d in t.leaked || exists g :: Owns(t, g, d)
    {
      if d != dir && d !in s.leaked {
        var g :| Owns(s, g, d);
        assert g != step.h;
        assert Owns(t, g, d);
      }
    }
    forall g | g in t.starting
      ensures t.starting[g] in t.scratch && g !in t.running
    {
      assert Owns(s, g, s.starting[g]) && g != step.h;
    }
    forall g | g in t.running
      ensures t.running[g] in t.scratch
    {
      assert Owns(s, g, s.running[g]) && g != step.h;
    }
  }

  lemma StepKeeps(s: State, step: Step)
    requires Inv(s) && Enabled(s, step)
    ensures Inv(Apply(s, step))
  {
    match step
    case MakeDir(h, dir) => MakeDirKeeps(s, h, dir);
    case GiveUp(_, _) => RemovalKeeps(s, step);
    case Spawn(h) => SpawnKeeps(s, h);
    case Wait(_, _) => RemovalKeeps(s, step);
  }

  lemma {:induction false} RunKeeps(s: State, steps: seq<Step>)
    requires Inv(s) && IsRun(s, steps)
    ensures Inv(After(s, steps))
    decreases |steps|
  {
    if steps != [] {
      StepKeeps(s, steps[0]);
      RunKeeps(Apply(s, steps[0]), steps[1..]);
    }
  }

  // ----- over whole runs -----

  /** In every run the directories on disk are those of starts in progress, of handles not yet waited on, and those
      that could not be removed, with no overlap. */
  lemma DirectoriesAreOwned(steps: seq<Step>)
    requires IsRun(Initial, steps)
    ensures var s := After(Initial, steps);
            && s.scratch == s.starting.Values + s.running.Values + s.leaked
            && s.starting.Values !! s.running.Values && (s.starting.Values + s.running.Values) !! s.leaked
            && forall h, g, d :: Owns(s, h, d) && Owns(s, g, d) ==> h == g
  {
    RunKeeps(Initial, steps);
    OwnersAreAll(After(Initial, steps));
  }

  lemma OwnersAreValues(s: State, d: string)
    requires Inv(s)
    ensures d in s.starting.Values <==> exists h :: h in s.starting && Owns(s, h, d)
    ensures d in s.running.Values <==> exists h :: h in s.running && Owns(s, h, d)
  {
    if d in s.starting.Values {
      var h :| h in s.starting && s.starting[h] == d;
      assert Owns(s, h, d);
    }
    if d in s.running.Values {
      var h :| h in s.running && s.running[h] == d;
      assert Owns(s, h, d);
    }
  }

  lemma OwnersAreAll(s: State)
    requires Inv(s)
    ensures s.scratch == s.starting.Values + s.running.Values + s.leaked
    ensures s.starting.Values !! s.running.Values && (s.starting.Values + s.running.Values) !! s.leaked
  {
    forall d
      ensures d in s.starting.Values <==> exists h :: h in s.starting && Owns(s, h, d)
      ensures d in s.running.Values <==> exists h :: h in s.running && Owns(s, h, d)
    {
      OwnersAreValues(s, d);
    }
    hide Owns;
  }

  /** How many removals failed. */
  function Failures(steps: seq<Step>): nat {
    if steps == [] then 0
    else (if (steps[0].GiveUp? || steps[0].Wait?) && !steps[0].removable then 1 else 0) + Failures(steps[1..])
  }

  lemma {:induction false} LeaksAreFailures(s: State, steps: seq<Step>)
    requires Inv(s) && IsRun(s, steps)
    ensures |After(s, steps).leaked| == |s.leaked| + Failures(steps)
    decreases |steps|
  {
    if steps != [] {
      var t := Apply(s, steps[0]);
      StepKeeps(s, steps[0]);
      LeaksAreFailures(t, steps[1..]);
      LeakStep(s, steps[0]);
    }
  }

  lemma LeakStep(s: State, step: Step)
    requires Inv(s) && Enabled(s, step)
    ensures |Apply(s, step).leaked| == |s.leaked| + if (step.GiveUp? || step.Wait?) && !step.removable then 1 else 0
  {
    if step.GiveUp? {
      assert Owns(s, step.h, s.starting[step.h]);
    } else if step.Wait? {
      assert Owns(s, step.h, s.running[step.h]);
    }
  }

  /** The directories on disk are exactly those of handles not yet waited on if and only if no start is in progress
      and every removal so far succeeded. */
  lemma OnlyRunningWhen(steps: seq<Step>)
    requires IsRun(Initial, steps)
    ensures var s := After(Initial, steps);
            s.scratch == s.running.Values <==> s.starting == map[] && Failures(steps) == 0
  {
    var s := After(Initial, steps);
    DirectoriesAreOwned(steps);
    LeaksAreFailures(Initial, steps);
    hide IsRun, After, Failures, Owns;
    MiddleIsAllWhen(s.starting.Values, s.running.Values, s.leaked);
    assert s.starting != map[] ==> exists h :: h in s.starting && s.starting[h] in s.starting.Values;
  }

  lemma MiddleIsAllWhen(a: set<string>, b: set<string>, c: set<string>)
    requires a !! b && (a + b) !! c
    ensures a + b + c == b <==> a == {} && c == {}
  {
    assert forall d :: d in a || d in c ==> d in a + b + c;
  }

  /** Nothing is lost: with all starts over and all handles waited on, what is left on disk are the failed removals,
      one directory each. */
  lemma RestAreFailures(steps: seq<Step>)
    requires IsRun(Initial, steps)
    requires After(Initial, steps).starting == map[] && After(Initial, steps).running == map[]
    ensures |After(Initial, steps).scratch| == Failures(steps)
  {
    DirectoriesAreOwned(steps);
    LeaksAreFailures(Initial, steps);
    assert After(Initial, steps).scratch == After(Initial, steps).leaked;
  }

  // ----- the handles -----

  predicate IsAbout(step: Step, h: nat) {
    step.h == h
  }

  /** The last step so far that was about handle `h`. */
  function Latest(past: seq<Step>, h: nat): Option<Step> {
    if past == [] then None
    else if IsAbout(past[|past| - 1], h) then Some(past[|past| - 1])
    else Latest(past[..|past| - 1], h)
  }

  /** The directory last made for it. */
  function DirOf(past: seq<Step>, h: nat): string {
    if past == [] then ""
    else
      var last := past[|past| - 1];
      if IsAbout(last, h) && last.MakeDir? then last.dir else DirOf(past[..|past| - 1], h)
  }

  ghost predicate HandlesAre(past: seq<Step>, s: State) {
    forall h: nat ::
      && (h in s.starting <==> Latest(past, h).Some? && Latest(past, h).value.MakeDir?)
      && (h in s.running <==> Latest(past, h).Some? && Latest(past, h).value.Spawn?)
      && (h in s.starting ==> s.starting[h] == DirOf(past, h))
      && (h in s.running ==> s.running[h] == DirOf(past, h))
  }

  lemma StepHandles(past: seq<Step>, s: State, step: Step)
    requires HandlesAre(past, s) && Enabled(s, step)
    ensures HandlesAre(past + [step], Apply(s, step))
  {
    assert (past + [step])[..|past|] == past;
  }

  lemma {:induction false} RunHandles(past: seq<Step>, s: State, steps: seq<Step>)
    requires HandlesAre(past, s) && IsRun(s, steps)
    ensures HandlesAre(past + steps, After(s, steps))
    decreases |steps|
  {
    hide HandlesAre, Enabled, Apply;
    if steps == [] {
      assert past + [] == past;
    } else {
      StepHandles(past, s, steps[0]);
      RunHandles(past + [steps[0]], Apply(s, steps[0]), steps[1..]);
      assert past + [steps[0]] + steps[1..] == past + steps;
    }
  }

  /** In every run a start is in progress exactly if the last step about it made its directory, and a handle waits to
      be waited on exactly if the last step about it was its child taking off; the directory is the one made for it. */
  lemma HandlesAreHistory(steps: seq<Step>)
    requires IsRun(Initial, steps)
    ensures HandlesAre(steps, After(Initial, steps))
  {
    RunHandles([], Initial, steps);
    assert [] + steps == steps;
  }

  // ----- the backend's own calls -----

  /** How far `Start` gets. */
  datatype StartOutcome = MkdirFails | PipeFails | SpawnFails | Spawned

  /** The steps of a `Start` that nobody interrupts. */
  function StartSteps(h: nat, dir: string, outcome: StartOutcome, removable: bool): seq<Step> {
    match outcome
    case MkdirFails => []
    case PipeFails => [MakeDir(h, dir), GiveUp(h, removable)]
    case SpawnFails => [MakeDir(h, dir), GiveUp(h, removable)]
    case Spawned => [MakeDir(h, dir), Spawn(h)]
  }

  class SandboxedBackend {
    var scratch: set<string>
    ghost var starting: map<nat, string>
    ghost var running: map<nat, string>
    ghost var leaked: set<string>

    ghost function View(): State
      reads this
    {
      State(scratch, starting, running, leaked)
    }

    constructor ()
      ensures View() == Initial
    {
      scratch, starting, running, leaked := {}, map[], map[], {};
    }

    method MkdirTemp(ghost h: nat, dir: string)
      requires Enabled(View(), MakeDir(h, dir))
      modifies this
      ensures View() == Apply(old(View()), MakeDir(h, dir))
    {
      scratch := scratch + {dir};
      starting := starting[h := dir];
    }

    /** The error path of a start: whatever failed, the directory goes. */
    method CleanUp(ghost h: nat, dir: string, removable: bool)
      requires h in starting && starting[h] == dir
      modifies this
      ensures View() == Apply(old(View()), GiveUp(h, removable))
    {
      starting := starting - {h};
      RemoveAll(dir, removable);
    }

    method RemoveAll(dir: string, removable: bool)
      modifies this`scratch, this`leaked
      ensures scratch == if removable then old(scratch) - {dir} else old(scratch)
      ensures leaked == if removable then old(leaked) else old(leaked) + {dir}
    {
      if removable {
        scratch := scratch - {dir};
      }
      leaked := if removable then leaked else leaked + {dir};
    }

    /** Every error path removes the directory it made, and none that made none. */
    method Start(ghost h: nat, dir: string, outcome: StartOutcome, removable: bool) returns (ok: bool)
      requires Enabled(View(), MakeDir(h, dir))
      modifies this
      ensures ok <==> outcome.Spawned?
      ensures IsRun(old(View()), StartSteps(h, dir, outcome, removable))
      ensures View() == After(old(View()), StartSteps(h, dir, outcome, removable))
    {
      ghost var before := View();
      if outcome.MkdirFails? {
        return false;
      }
      MkdirTemp(h, dir);
      ghost var made := View();
      if outcome.PipeFails? {
        CleanUp(h, dir, removable);
        TwoSteps(before, MakeDir(h, dir), GiveUp(h, removable));
        return false;
      }
      if outcome.SpawnFails? {
        CleanUp(h, dir, removable);
        TwoSteps(before, MakeDir(h, dir), GiveUp(h, removable));
        return false;
      }
      starting, running := starting - {h}, running[h := dir];
      TwoSteps(before, MakeDir(h, dir), Spawn(h));
      return true;
    }

    /** Once the child is gone: the verdict is read off the pipe, and the directory goes too. */
    method Wait(ghost h: nat, dir: string, child: Child, removable: bool) returns (res: P.ExitResult)
      requires h in running && running[h] == dir
      modifies this
      ensures View() == Apply(old(View()), Step.Wait(h, removable))
      ensures res == WaitResult(child)
    {
      var statusData := Piped(Performed(child), Open(false));
      var setupFailed := |statusData| > 0;
      RemoveAll(dir, removable);
      running := running - {h};
      res := P.ExitResult(Exited(child), setupFailed);
    }
  }

  lemma TwoSteps(s: State, first: Step, second: Step)
    requires Enabled(s, first) && Enabled(Apply(s, first), second)
    ensures IsRun(s, [first, second]) && After(s, [first, second]) == Apply(Apply(s, first), second)
  {
    assert [first, second][1..] == [second];
    var t := Apply(s, first);
    assert [second][1..] == [];
    assert IsRun(t, [second]) && After(t, [second]) == Apply(t, second) by {
      assert IsRun(Apply(t, second), []);
    }
  }
}
