/** The process table as an object (agent/processmgr.go), with the lookup over two of them
    (agent/handlers_process.go). */
module ManagerObject {
  import opened Wrappers
  import P = ProcessLifecycle

  /** The fields of a record that other goroutines see. `finished` is the time of the end, absent until
      then. */
  class ProcessRecord {
    const id: string
    var exitCode: Option<int>
    var setupFailed: bool
    var finished: Option<int>
    var done: bool

    ghost predicate Valid()
      reads this
    {
      (done ==> finished.Some?) && (finished.None? ==> exitCode.None? && !setupFailed)
    }

    /** The published part of `proc`. */
    ghost predicate Shows(proc: P.Proc)
      reads this
    {
      exitCode == proc.exitCode && setupFailed == proc.setupFailed
      && finished.Some? == proc.finished && done == P.Done(proc)
    }

    constructor (id: string)
      ensures Valid() && Shows(P.Started) && this.id == id
    {
      this.id := id;
      exitCode, setupFailed, finished, done := None, false, None, false;
    }

    /** The end of the exit-wait goroutine: record under the lock, then close `done`. */
    method Publish(res: P.ExitResult, now: int, ghost proc: P.Proc)
      requires Valid() && Shows(proc) && P.Inv(proc) && proc.waiter == P.Recording(res)
      modifies this
      ensures Valid() && finished == Some(now)
      ensures P.IsRun(proc, [P.Record, P.CloseDone]) && Shows(P.After(proc, [P.Record, P.CloseDone]))
    {
      exitCode := res.code;
      setupFailed := res.setupFailed;
      finished := Some(now);
      done := true;
      assert P.IsRun(P.Apply(proc, P.Record), [P.CloseDone]);
      assert [P.Record, P.CloseDone][1..] == [P.CloseDone];
    }

    /** One look at both branches of `Wait`; `None` means neither is ready yet. When both are, either may
        win. */
    method Wait(ctxDone: bool, preferDone: bool) returns (result: Option<(Option<int>, bool)>)
      requires Valid()
      ensures result.None? <==> !done && !ctxDone
      ensures result.Some? && !result.value.1 ==> done && result.value.0 == exitCode
      ensures result.Some? && result.value.1 ==> ctxDone && result.value.0.None?
    {
      if done && (preferDone || !ctxDone) {
        result := Some((exitCode, false));
      } else if ctxDone {
        result := Some((None, true));
      } else {
        result := None;
      }
    }
  }

  class Manager {
    const finishedTTL: int
    var procs: map<string, ProcessRecord>

    constructor (finishedTTL: int)
      ensures procs == map[] && this.finishedTTL == finishedTTL
    {
      this.finishedTTL := finishedTTL;
      procs := map[];
    }

    ghost predicate Valid()
      reads this, procs.Values
    {
      forall id :: id in procs ==> procs[id].id == id && procs[id].Valid()
    }

    method Track(rec: ProcessRecord)
      requires Valid() && rec.Valid()
      modifies this
      ensures Valid() && procs == old(procs)[rec.id := rec]
    {
      procs := procs[rec.id := rec];
    }

    predicate Expired(rec: ProcessRecord, now: int)
      reads rec
    {
      rec.finished.Some? && now - rec.finished.value > finishedTTL
    }

    /** One tick of the collector: it takes out the records finished longer ago than the limit and no
        others, so never one whose process may still be running. */
    method Sweep(now: int)
      requires Valid()
      modifies this
      ensures Valid()
      ensures forall id :: id in procs <==>
                id in old(procs) &&
                (old(procs)[id].finished.None? || now - old(procs)[id].finished.value <= finishedTTL)
      ensures forall id :: id in procs ==> procs[id] == old(procs)[id]
      ensures forall id :: id in old(procs) && old(procs)[id].finished.None? ==> id in procs
    {
      var left := procs.Keys;
      while left != {}
        invariant left <= old(procs).Keys
        invariant procs == map id | id in old(procs) && (id in left || !Expired(old(procs)[id], now)) :: old(procs)[id]
      {
        var id :| id in left;
        if procs[id].finished.Some? && now - procs[id].finished.value > finishedTTL {
          procs := procs - {id};
        }
        left := left - {id};
      }
    }

    /** The ids on which shutdown calls `Terminate`: each tracked process that has not ended, once. */
    method TerminateAll() returns (called: seq<string>)
      requires Valid()
      ensures multiset(called) == multiset(set id | id in procs && !procs[id].done)
    {
      called := [];
      var left := procs.Keys;
      while left != {}
        invariant left <= procs.Keys
        invariant multiset(called) == multiset(set id | id in procs && id !in left && !procs[id].done)
      {
        var id :| id in left;
        ghost var before := set x | x in procs && x !in left && !procs[x].done;
        left := left - {id};
        if !procs[id].done {
          called := called + [id];
          assert (set x | x in procs && x !in left && !procs[x].done) == before + {id};
        } else {
          assert (set x | x in procs && x !in left && !procs[x].done) == before;
        }
      }
    }
  }

  /** The lookup behind every process method: the plain manager first, then the sandboxed one if there is
      one. An id in neither is not found. */
  method Find(mgr: Manager, sandboxMgr: Manager?, id: string) returns (rec: ProcessRecord?, owner: Manager?)
    ensures rec == null <==> owner == null
    ensures owner != null ==> (owner == mgr || owner == sandboxMgr) && id in owner.procs && owner.procs[id] == rec
    ensures owner == null ==> id !in mgr.procs && (sandboxMgr == null || id !in sandboxMgr.procs)
    ensures id in mgr.procs ==> owner == mgr
  {
    if id in mgr.procs {
      return mgr.procs[id], mgr;
    }
    if sandboxMgr != null && id in sandboxMgr.procs {
      return sandboxMgr.procs[id], sandboxMgr;
    }
    return null, null;
  }
}
