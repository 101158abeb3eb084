/** The capped collector of a read query's output (agent/read_query.go). */
module LimitedOutput {
  import opened Bytes

  function Flatten(writes: seq<seq<Byte>>): seq<Byte> {
    if writes == [] then [] else Flatten(writes[..|writes| - 1]) + writes[|writes| - 1]
  }

  function FirstBytes(stream: seq<Byte>, limit: nat): seq<Byte> {
    if |stream| <= limit then stream else stream[..limit]
  }

  /** An empty write that arrives when the collector is full. */
  ghost predicate EmptyWhenFull(writes: seq<seq<Byte>>, limit: nat) {
    exists i :: 0 <= i < |writes| && writes[i] == [] && |Flatten(writes[..i])| >= limit
  }

  class LimitedOutput {
    const limit: nat
    var buffer: seq<Byte>
    var truncated: bool
    ghost var writes: seq<seq<Byte>>

    /** The buffer is the first `limit` bytes of everything written, and the flag is up exactly when there was
        more than that or an empty write came in when the buffer was full. */
    ghost predicate Valid()
      reads this
    {
      && buffer == FirstBytes(Flatten(writes), limit)
      && (truncated <==> |Flatten(writes)| > limit || EmptyWhenFull(writes, limit))
    }

    constructor (limit: nat)
      ensures Valid() && writes == [] && this.limit == limit
    {
      this.limit := limit;
      buffer, truncated, writes := [], false, [];
    }

    /** Every write reports that it took everything. */
    method Write(p: seq<Byte>) returns (n: nat)
      requires Valid()
      modifies this
      ensures Valid() && writes == old(writes) + [p] && n == |p|
    {
      FlattenAppend(writes, p);
      EmptyWhenFullAppend(writes, p, limit);
      writes := writes + [p];
      n := |p|;
      var remaining := limit - |buffer|;
      if remaining <= 0 {
        truncated := true;
      } else if |p| > remaining {
        buffer := buffer + p[..remaining];
        truncated := true;
      } else {
        buffer := buffer + p;
      }
    }
  }

  lemma FlattenAppend(writes: seq<seq<Byte>>, p: seq<Byte>)
    ensures Flatten(writes + [p]) == Flatten(writes) + p
  {
    assert (writes + [p])[..|writes|] == writes;
  }

  lemma EmptyWhenFullAppend(writes: seq<seq<Byte>>, p: seq<Byte>, limit: nat)
    ensures EmptyWhenFull(writes + [p], limit) <==>
            EmptyWhenFull(writes, limit) || (p == [] && |Flatten(writes)| >= limit)
  {
    var all := writes + [p];
    assert all[..|writes|] == writes;
    assert forall i :: 0 <= i < |writes| ==> all[..i] == writes[..i] && all[i] == writes[i];
    if EmptyWhenFull(writes, limit) {
      var i :| 0 <= i < |writes| && writes[i] == [] && |Flatten(writes[..i])| >= limit;
      assert all[i] == [];
    } else if p == [] && |Flatten(writes)| >= limit {
      assert all[|writes|] == [];
    }
  }

  /** For non-empty writes, which is all a pipe delivers, the flag is exact. */
  lemma FlagIsExact(out: LimitedOutput)
    requires out.Valid() && forall i :: 0 <= i < |out.writes| ==> out.writes[i] != []
    ensures out.truncated <==> |Flatten(out.writes)| > out.limit
    ensures out.truncated <==> out.buffer != Flatten(out.writes)
  {
  }

  /** It is exact for no other reason: an empty write into a collector filled to the brim raises it although
      nothing was cut off. */
  lemma FlagIsExactWhen(out: LimitedOutput)
    requires out.Valid()
    ensures (out.truncated <==> out.buffer != Flatten(out.writes))
       <==> |Flatten(out.writes)| > out.limit || !EmptyWhenFull(out.writes, out.limit)
  {
  }

  /** A collector of any size filled to the brim, then written nothing: it has lost nothing and says it has. A pipe
      never delivers such a write. */
  method EmptyWriteAtTheBrim(full: seq<Byte>) returns (flag: bool, kept: seq<Byte>)
    ensures flag && kept == full
  {
    var out := new LimitedOutput(|full|);
    var first := out.Write(full);
    var second := out.Write([]);
    assert out.writes[1] == [] && out.writes[..1] == [full] && Flatten([full]) == full by {
      FlattenAppend([], full);
    }
    FlattenAppend([full], []);
    flag, kept := out.truncated, out.buffer;
  }
}
