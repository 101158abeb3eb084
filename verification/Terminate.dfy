/** Ending a process group (internal/backend/process_linux.go, and line for line the same in
    internal/backend/sandbox_linux.go): SIGTERM, poll every 20 ms, SIGKILL at the deadline. Time is in
    nanoseconds since the call; system calls take none. */
module Terminate {
  import opened Wrappers

  /** The signal number 0 only asks whether the group still exists. */
  datatype Signal = Term | Kill | Probe

  datatype KillResult = Delivered | NoSuchGroup | Refused

  /** A `kill` the call made: at what time, which signal, and what the kernel answered. */
  datatype Sent = Sent(at: nat, signal: Signal, answer: KillResult)

  /** The kernel's answer to the n-th `kill`, and which branch the select takes when a tick and the
      deadline are both ready. */
  datatype Kernel = Kernel(answer: nat -> KillResult, tickFirst: nat -> bool)

  const MilliNanos: nat := 1_000_000

  const TickNanos: nat := 20 * MilliNanos

  // ----- the deadline -----

  const Int64Range: nat := 0x1_0000_0000_0000_0000

  const Int64Half: nat := 0x8000_0000_0000_0000

  /** Signed 64-bit arithmetic: the representative modulo 2^64. */
  function ToInt64(n: int): (r: int)
    ensures -0x8000_0000_0000_0000 <= r < Int64Half
  {
    (n + Int64Half) % Int64Range - Int64Half
  }

  /** When the timer fires. The product of the grace and a millisecond is 64 bits wide, and a duration that is
      not positive has already passed. */
  function Deadline(graceMs: int): nat {
    var d := ToInt64(graceMs * MilliNanos);
    if d < 0 then 0 else d
  }

  /** The longest grace that fits a duration, some 292 years. */
  const MaxGraceMs: nat := 9_223_372_036_854

  /** The caller gets the grace it asked for exactly up to that; a longer one wraps round. */
  lemma GraceIsHonouredWhen(graceMs: nat)
    requires graceMs < Int64Half
    ensures Deadline(graceMs) == graceMs * MilliNanos <==> graceMs <= MaxGraceMs
  {
    var n := graceMs * MilliNanos;
    if graceMs <= MaxGraceMs {
      assert n <= MaxGraceMs * MilliNanos < Int64Half;
      assert ToInt64(n) == n;
    } else {
      assert n >= (MaxGraceMs + 1) * MilliNanos > Int64Half;
    }
  }

  /** One millisecond more than the longest grace is no grace at all: the group is killed at once. */
  lemma OneMoreIsNone()
    ensures Deadline(MaxGraceMs + 1) == 0
  {
    assert (MaxGraceMs + 1) * MilliNanos + Int64Half == 18_446_744_073_709_775_808;
    assert ToInt64((MaxGraceMs + 1) * MilliNanos) < 0;
  }

  // ----- the loop -----

  /** The n-th poll of the group, at the n-th tick, which found it alive or could not tell. */
  predicate IsPoll(s: Sent, n: nat) {
    s.signal.Probe? && s.at == TickNanos * n && !s.answer.NoSuchGroup?
  }

  /** What the interface promises about the signals sent and the value returned: SIGTERM at once; then, unless
      that was refused, a poll at every tick until one finds the group gone, or the deadline, at which SIGKILL
      ends it. */
  predicate Contract(kernel: Kernel, sent: seq<Sent>, ok: bool, graceMs: int) {
    && sent != [] && sent[0].signal.Term? && sent[0].at == 0
    && (forall i :: 0 <= i < |sent| ==> sent[i].answer == kernel.answer(i))
    && (forall i :: 0 < i < |sent| - 1 ==> IsPoll(sent[i], i))
    && (forall i :: 0 <= i < |sent| ==> sent[i].at <= Deadline(graceMs))
    && (sent[0].answer.Refused? ==> |sent| == 1 && !ok)
    && (!sent[0].answer.Refused? ==>
          |sent| > 1 &&
          var last := sent[|sent| - 1];
          if last.signal.Kill? then
            last.at == Deadline(graceMs) <= TickNanos * (|sent| - 1) && (ok <==> !last.answer.Refused?)
          else
            ok && last.signal.Probe? && last.answer.NoSuchGroup? && last.at == TickNanos * (|sent| - 1))
  }

  method Terminate(kernel: Kernel, graceMs: int) returns (sent: seq<Sent>, ok: bool)
    ensures Contract(kernel, sent, ok, graceMs)
  {
    sent := [Sent(0, Term, kernel.answer(0))];
    if sent[0].answer.Refused? {
      return sent, false;
    }
    var deadline := Deadline(graceMs);
    var ticks := 0;
    while true
      invariant ticks == |sent| - 1 && TickNanos * ticks <= deadline
      invariant sent[0].signal.Term? && sent[0].at == 0 && !sent[0].answer.Refused?
      invariant forall i :: 0 <= i < |sent| ==> sent[i].answer == kernel.answer(i)
      invariant forall i :: 0 < i < |sent| ==> IsPoll(sent[i], i)
      decreases deadline - TickNanos * ticks
    {
      var nextTick := TickNanos * (ticks + 1);
      if nextTick < deadline || (nextTick == deadline && kernel.tickFirst(ticks)) {
        ticks := ticks + 1;
        var answer := kernel.answer(ticks);
        sent := sent + [Sent(nextTick, Probe, answer)];
        if answer.NoSuchGroup? {
          return sent, true;
        }
      } else {
        var answer := kernel.answer(ticks + 1);
        sent := sent + [Sent(deadline, Kill, answer)];
        return sent, !answer.Refused?;
      }
    }
  }

  /** Read off the contract: SIGTERM exactly once and first, SIGKILL at most once, last and at the deadline,
      nothing after the deadline, and success means the group was seen gone or was sent SIGKILL. */
  lemma ContractMeans(kernel: Kernel, sent: seq<Sent>, ok: bool, graceMs: int)
    requires Contract(kernel, sent, ok, graceMs)
    ensures forall i :: 0 <= i < |sent| ==> (sent[i].signal.Term? <==> i == 0)
    ensures forall i :: 0 <= i < |sent| && sent[i].signal.Kill? ==> i == |sent| - 1 && sent[i].at == Deadline(graceMs)
    ensures forall i, j :: 0 <= i < j < |sent| ==> sent[i].at <= sent[j].at <= Deadline(graceMs)
    ensures ok ==> var last := sent[|sent| - 1]; last.answer.NoSuchGroup? || last.signal.Kill?
    ensures !ok ==> sent[|sent| - 1].answer.Refused?
  {
    hide Deadline;
  }

  /** A group that is seen gone before the deadline is never sent SIGKILL: the first tick that finds it gone
      ends the call. */
  lemma GoneGroupIsNotKilled(kernel: Kernel, sent: seq<Sent>, ok: bool, graceMs: int, n: nat)
    requires Contract(kernel, sent, ok, graceMs) && !kernel.answer(0).Refused?
    requires 0 < n && TickNanos * n < Deadline(graceMs) && kernel.answer(n).NoSuchGroup?
    requires forall i :: 0 < i < n ==> !kernel.answer(i).NoSuchGroup?
    ensures ok && |sent| == n + 1 && sent[n].signal.Probe? && sent[n].at == TickNanos * n
  {
    hide Deadline;
    assert |sent| > n + 1 ==> IsPoll(sent[n], n);
    assert sent[|sent| - 1].signal.Kill? ==> |sent| > n + 1;
  }

  /** The number of polls is fixed by the grace period: at most one every 20 ms. */
  lemma PollsAreBounded(kernel: Kernel, sent: seq<Sent>, ok: bool, graceMs: int)
    requires Contract(kernel, sent, ok, graceMs)
    ensures |sent| <= 2 + Deadline(graceMs) / TickNanos
  {
    hide Deadline;
    if |sent| > 2 {
      assert IsPoll(sent[|sent| - 2], |sent| - 2);
      assert sent[|sent| - 2].at <= Deadline(graceMs);
    }
  }
}
