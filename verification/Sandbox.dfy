/** The sandboxed child (agent/cmd/main.go) with its status pipe, the parent's reading of it
    (internal/backend/sandbox_linux.go), and the verdict of command.read (agent/handlers_command.go). */
module Sandbox {
  import opened Bytes
  import opened Wrappers
  import P = ProcessLifecycle

  const SetupFailedExitCode := 111

  /** What the setup's attempts come to, and what the command would do if it ran: the chunks it writes to
      descriptor 3, which it may well use for something of its own, and its exit code. */
  datatype ChildEnv = ChildEnv(argv: seq<string>, scratchDir: string, restrictOk: bool, lookPathOk: bool, execOk: bool,
                               writes: seq<seq<Byte>>, commandExit: int)

  /** What the child does. `Report` is the setup's byte for the status pipe, `WriteThree` a write of the command to
      descriptor 3. */
  datatype Act =
    | CloseOnExec
    | LinkHome
    | Restrict(ok: bool)
    | LookPath(ok: bool)
    | Exec(ok: bool)
    | Report
    | WriteThree(chunk: seq<Byte>)
    | Exit(code: int)

  const Fail: seq<Act> := [Report, Exit(SetupFailedExitCode)]

  /** The setup program if nobody kills it. */
  function Setup(env: ChildEnv): seq<Act> {
    [CloseOnExec] +
    if env.argv == [] || env.scratchDir == "" then Fail
    else if !env.restrictOk then [LinkHome, Restrict(false)] + Fail
    else if !env.lookPathOk then [LinkHome, Restrict(true), LookPath(false)] + Fail
    else if !env.execOk then [LinkHome, Restrict(true), LookPath(true), Exec(false)] + Fail
    else [LinkHome, Restrict(true), LookPath(true), Exec(true)]
  }

  /** The setup program, step by step; every failure reports before it exits, and none falls through to the
      command. */
  method LandlockExec(env: ChildEnv) returns (acts: seq<Act>)
    ensures acts == Setup(env)
  {
    acts := [CloseOnExec];
    if |env.argv| == 0 {
      return acts + [Report, Exit(SetupFailedExitCode)];
    }
    if env.scratchDir == "" {
      return acts + [Report, Exit(SetupFailedExitCode)];
    }
    acts := acts + [LinkHome, Restrict(env.restrictOk)];
    if !env.restrictOk {
      return acts + [Report, Exit(SetupFailedExitCode)];
    }
    acts := acts + [LookPath(env.lookPathOk)];
    if !env.lookPathOk {
      return acts + [Report, Exit(SetupFailedExitCode)];
    }
    acts := acts + [Exec(env.execOk)];
    if !env.execOk {
      return acts + [Report, Exit(SetupFailedExitCode)];
    }
  }

  predicate SetupSucceeds(env: ChildEnv) {
    env.argv != [] && env.scratchDir != "" && env.restrictOk && env.lookPathOk && env.execOk
  }

  function Writes(chunks: seq<seq<Byte>>): (acts: seq<Act>)
    ensures |acts| == |chunks| && forall i :: 0 <= i < |acts| ==> acts[i] == WriteThree(chunks[i])
  {
    seq(|chunks|, i requires 0 <= i < |chunks| => WriteThree(chunks[i]))
  }

  /** The whole child: the setup, and the command in its place if the exec succeeds. */
  function Acts(env: ChildEnv): seq<Act> {
    if SetupSucceeds(env) then Setup(env) + (Writes(env.writes) + [Exit(env.commandExit)]) else Setup(env)
  }

  /** The position of the act that decides: the exec if setup succeeds, the report if not. */
  function Deciding(env: ChildEnv): (i: nat)
    ensures i < |Acts(env)|
    ensures Acts(env)[i] == if SetupSucceeds(env) then Exec(true) else Report
  {
    if SetupSucceeds(env) then |Setup(env)| - 1 else |Setup(env)| - 2
  }

  // ----- descriptor 3 -----

  /** The child's end of the status pipe. */
  datatype Descriptor = Open(closeOnExec: bool) | Closed

  /** What the acts put into the pipe. A successful exec closes a descriptor marked for it; a write to a closed
      descriptor fails. */
  function Piped(acts: seq<Act>, fd: Descriptor): seq<Byte> {
    if acts == [] then []
    else match acts[0]
      case CloseOnExec => Piped(acts[1..], if fd.Open? then Open(true) else Closed)
      case Exec(ok) => Piped(acts[1..], if ok && fd == Open(true) then Closed else fd)
      case Report => (if fd.Open? then [1 as Byte] else []) + Piped(acts[1..], fd)
      case WriteThree(chunk) => (if fd.Open? then chunk else []) + Piped(acts[1..], fd)
      case _ => Piped(acts[1..], fd)
  }

  lemma {:induction false} ClosedStaysEmpty(acts: seq<Act>)
    ensures Piped(acts, Closed) == []
  {
    if acts != [] {
      ClosedStaysEmpty(acts[1..]);
    }
  }

  /** Acts that neither open nor close nor write. */
  predicate IsQuiet(act: Act) {
    act.LinkHome? || act.Restrict? || act.LookPath? || act == Exec(false) || act.Exit?
  }

  lemma {:induction false} QuietActs(quiet: seq<Act>, rest: seq<Act>, fd: Descriptor)
    requires forall i :: 0 <= i < |quiet| ==> IsQuiet(quiet[i])
    ensures Piped(quiet + rest, fd) == Piped(rest, fd)
  {
    if quiet == [] {
      assert quiet + rest == rest;
    } else {
      assert (quiet + rest)[1..] == quiet[1..] + rest;
      QuietActs(quiet[1..], rest, fd);
    }
  }

  // ----- a run of the child -----

  /** A run: the acts up to the point where it was killed, if it was, and whether the parent's `wait` succeeds. */
  datatype Child = Child(env: ChildEnv, killedAfter: Option<nat>, waitOk: bool)

  /** The exit code the runtime gives a process ended by a signal. */
  const SignalledExitCode := -1

  function UpTo(acts: seq<Act>, killedAfter: Option<nat>): seq<Act> {
    if killedAfter.Some? && killedAfter.value < |acts| then acts[..killedAfter.value] else acts
  }

  function Performed(child: Child): seq<Act> {
    UpTo(Acts(child.env), child.killedAfter)
  }

  predicate Executed(child: Child) {
    Exec(true) in Performed(child)
  }

  /** The child got as far as the act that decides. */
  predicate Decided(child: Child) {
    child.killedAfter.None? || child.killedAfter.value > Deciding(child.env)
  }

  /** The exit code the parent observes: that of the last act if it is an exit, -1 if a signal came first, none
      only if waiting failed. */
  function Exited(child: Child): Option<int> {
    var acts := Performed(child);
    if !child.waitOk then None
    else if acts != [] && acts[|acts| - 1].Exit? then Some(acts[|acts| - 1].code)
    else Some(SignalledExitCode)
  }

  /** The parent's `Wait`: the exit code is not consulted. */
  function WaitResult(child: Child): P.ExitResult {
    P.ExitResult(Exited(child), |Piped(Performed(child), Open(false))| > 0)
  }

  /** Which acts a run has, by the kind of its setup and the point it was killed at. */
  lemma PerformedActs(child: Child)
    ensures Executed(child) <==> SetupSucceeds(child.env) && Decided(child)
    ensures Report in Performed(child) <==> !SetupSucceeds(child.env) && Decided(child)
  {
    var acts, i := Acts(child.env), Deciding(child.env);
    assert forall j :: 0 <= j < |acts| && (acts[j] == Exec(true) || acts[j] == Report) ==> j == i;
    assert Decided(child) ==> Performed(child)[i] == acts[i];
  }

  /** What a run leaves in the pipe: nothing, unless the setup reported. */
  lemma PipeTells(child: Child)
    ensures Piped(Performed(child), Open(false)) == if Report in Performed(child) then [1] else []
  {
    var env, acts, n := child.env, Performed(child), |Performed(child)|;
    PerformedActs(child);
    if n > 0 {
      assert acts == [CloseOnExec] + acts[1..];
      AfterMark(env, acts[1..]);
    }
  }

  /** The same with the descriptor marked, for any beginning of what follows the mark. */
  lemma AfterMark(env: ChildEnv, acts: seq<Act>)
    requires acts <= Acts(env)[1..]
    ensures Piped(acts, Open(true)) == if Report in acts then [1] else []
  {
    hide Acts, Setup, SetupSucceeds, Piped;
    AfterMarkActs(env);
    var i := Deciding(env) - 1;
    var all := Acts(env)[1..];
    hide Deciding;
    if |acts| <= i {
      QuietActs(acts, [], Open(true));
      assert acts + [] == acts;
      NothingPiped(Open(true));
    } else {
      var rest := acts[i + 1..];
      assert acts == acts[..i] + ([all[i]] + rest);
      QuietActs(acts[..i], [all[i]] + rest, Open(true));
      DecidingActPiped(all[i], rest);
      assert forall j :: 0 <= j < |rest| ==> rest[j] == all[i + 1 + j];
      if SetupSucceeds(env) {
        ClosedStaysEmpty(rest);
      } else {
        QuietActs(rest, [], Open(true));
        assert rest + [] == rest;
        NothingPiped(Open(true));
      }
    }
  }

  /** What follows the mark: quiet acts, the one that decides, and then the command's or a quiet exit. */
  lemma AfterMarkActs(env: ChildEnv)
    ensures Deciding(env) >= 1
    ensures var all, i := Acts(env)[1..], Deciding(env) - 1;
            && i < |all| && all[i] == (if SetupSucceeds(env) then Exec(true) else Report)
            && (forall j :: 0 <= j < i ==> IsQuiet(all[j]))
            && (forall j :: 0 <= j < |all| && all[j] == Report ==> j == i)
            && (!SetupSucceeds(env) ==> forall j :: i < j < |all| ==> IsQuiet(all[j]))
  {
  }

  lemma NothingPiped(fd: Descriptor)
    ensures Piped([], fd) == []
  {
  }

  lemma DecidingActPiped(act: Act, rest: seq<Act>)
    requires act == Exec(true) || act == Report
    ensures Piped([act] + rest, Open(true)) == if act.Report? then [1] + Piped(rest, Open(true)) else Piped(rest, Closed)
  {
    assert ([act] + rest)[1..] == rest;
  }

  // ----- the verdict -----

  /** A command that was executed is never taken for a setup failure, whatever it exits with, the reserved code
      included, and whatever it writes to descriptor 3. */
  lemma ExecutedIsNeverSetupFailure(child: Child)
    requires Executed(child)
    ensures !WaitResult(child).setupFailed
    ensures child.waitOk && child.killedAfter.None? ==> WaitResult(child).code == Some(child.env.commandExit)
  {
    PerformedActs(child);
    PipeTells(child);
  }

  /** The verdict is right: setup is reported to have failed exactly if the command never ran. */
  predicate VerdictIsRight(child: Child) {
    WaitResult(child).setupFailed <==> !Executed(child)
  }

  /** It is right exactly for children that got as far as the exec or the report. A setup that failed and was left
      alone ends with its reserved code, which nothing here depends on. */
  lemma VerdictIsRightWhen(child: Child)
    ensures VerdictIsRight(child) <==> Decided(child)
    ensures WaitResult(child).setupFailed <==> Decided(child) && !SetupSucceeds(child.env)
    ensures WaitResult(child).setupFailed && child.killedAfter.None? && child.waitOk ==> WaitResult(child).code == Some(111)
  {
    PerformedActs(child);
    PipeTells(child);
  }

  /** A child killed before that shows as an exit with code -1. */
  lemma KilledEarlyIsNeither(child: Child)
    requires !Decided(child)
    ensures !Executed(child) && !WaitResult(child).setupFailed
    ensures child.waitOk ==> WaitResult(child).code == Some(SignalledExitCode)
  {
    PerformedActs(child);
    VerdictIsRightWhen(child);
    var acts := Acts(child.env);
    assert forall j :: 0 <= j < Deciding(child.env) ==> !acts[j].Exit?;
  }

  /** The command only ever runs restricted: the ruleset was applied before the exec, in every run, killed or
      not. */
  lemma ExecutedIsRestricted(child: Child, i: nat)
    requires i < |Performed(child)| && Performed(child)[i] == Exec(true)
    ensures exists j :: 0 <= j < i && Performed(child)[j] == Restrict(true) && LinkHome in Performed(child)[..j]
    ensures Restrict(false) !in Performed(child) && LookPath(true) in Performed(child)[..i]
  {
    var acts := Acts(child.env);
    assert SetupSucceeds(child.env) by {
      PerformedActs(child);
    }
    assert i == 4;
    assert Performed(child)[2] == Restrict(true) && Performed(child)[..2][1] == LinkHome;
    assert Performed(child)[..4][3] == LookPath(true);
  }

  // ----- why the mark -----

  /** The same child without the mark: what its command writes goes into the pipe. */
  lemma {:induction false} UnmarkedWrites(chunks: seq<seq<Byte>>, code: int)
    ensures Piped(Writes(chunks) + [Exit(code)], Open(false)) == [] <==> forall i :: 0 <= i < |chunks| ==> chunks[i] == []
  {
    var acts := Writes(chunks) + [Exit(code)];
    if chunks == [] {
      assert acts == [Exit(code)];
      assert Piped([], Open(false)) == [];
    } else {
      assert acts[1..] == Writes(chunks[1..]) + [Exit(code)];
      UnmarkedWrites(chunks[1..], code);
      assert forall i :: 0 < i < |chunks| ==> chunks[i] == chunks[1..][i - 1];
    }
  }

  /** Without it an executed child would be taken for a setup failure exactly if its command wrote anything to
      descriptor 3: the mark is what makes the verdict right. */
  lemma UnmarkedIsMisjudgedWhen(env: ChildEnv)
    requires SetupSucceeds(env)
    ensures Acts(env)[0] == CloseOnExec
    ensures Piped(Acts(env)[1..], Open(false)) == [] <==> forall i :: 0 <= i < |env.writes| ==> env.writes[i] == []
  {
    var quiet := [LinkHome, Restrict(true), LookPath(true)];
    var rest := Writes(env.writes) + [Exit(env.commandExit)];
    assert Acts(env)[1..] == quiet + ([Exec(true)] + rest);
    QuietActs(quiet, [Exec(true)] + rest, Open(false));
    assert ([Exec(true)] + rest)[1..] == rest;
    UnmarkedWrites(env.writes, env.commandExit);
  }

  // ----- command.read's answer -----

  datatype ReadReply = SetupError | Output(exitCode: Option<int>, timedOut: bool, violation: bool)

  function ReadAnswer(res: P.ExitResult, timedOut: bool): ReadReply {
    if timedOut then Output(None, true, false)
    else if res.setupFailed then SetupError
    else Output(res.code, false, res.code.Some? && res.code.value != 0)
  }

  /** The caller is told the truth: of a setup failure exactly if the command never ran. */
  predicate CallerIsToldRight(child: Child) {
    ReadAnswer(WaitResult(child), false) == SetupError <==> !Executed(child)
  }

  /** For every child, killed or not: the caller is told right exactly if the child got as far as the exec or the
      report. Of a command that ran it gets the code it ended with and the violation flag exactly for a non-zero
      one. Of a child killed earlier it is told that the command ran and violated the sandbox. */
  lemma CallerIsToldRightWhen(child: Child)
    ensures CallerIsToldRight(child) <==> Decided(child)
    ensures Executed(child) ==>
              ReadAnswer(WaitResult(child), false) ==
              Output(Exited(child), false, Exited(child).Some? && Exited(child).value != 0)
    ensures !Decided(child) && child.waitOk ==>
              ReadAnswer(WaitResult(child), false) == Output(Some(SignalledExitCode), false, true)
    ensures !Decided(child) && !child.waitOk ==> ReadAnswer(WaitResult(child), false) == Output(None, false, false)
    ensures ReadAnswer(WaitResult(child), true) == Output(None, true, false)
  {
    VerdictIsRightWhen(child);
    if Executed(child) {
      ExecutedIsNeverSetupFailure(child);
    }
    if !Decided(child) {
      KilledEarlyIsNeither(child);
    }
  }

  /** A child killed while it restricts itself: nothing ran, and the caller hears of a violation. */
  lemma KilledChildIsMisreported()
    ensures var child := Child(ChildEnv(["sh"], "/tmp/rc-sandbox-1", true, true, true, [], 0), Some(2), true);
            && !Executed(child)
            && ReadAnswer(WaitResult(child), false) == Output(Some(SignalledExitCode), false, true)
  {
    var child := Child(ChildEnv(["sh"], "/tmp/rc-sandbox-1", true, true, true, [], 0), Some(2), true);
    PerformedActs(child);
    CallerIsToldRightWhen(child);
  }
}
