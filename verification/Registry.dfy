/** The Gateway's table of online Agents (gateway/registry.go) as an object, one method for each
    operation. The table's content is specified by three functions on maps, which the protocol of
    `RegistryProtocol` uses too. */
module Registry {
  import opened Wrappers

  function Put<C>(conns: map<string, C>, deviceID: string, c: C): map<string, C> {
    conns[deviceID := c]
  }

  /** The identity check: only the connection that is registered may take its entry away. */
  function Drop<C(==)>(conns: map<string, C>, deviceID: string, c: C): map<string, C> {
    if deviceID in conns && conns[deviceID] == c then conns - {deviceID} else conns
  }

  class AgentConn {
    const deviceID: string
    var closed: bool

    constructor (deviceID: string)
      ensures this.deviceID == deviceID && !closed
    {
      this.deviceID := deviceID;
      closed := false;
    }

    method Close()
      modifies this
      ensures closed
    {
      closed := true;
    }
  }

  class Registry {
    var conns: map<string, AgentConn>

    constructor ()
      ensures conns == map[]
    {
      conns := map[];
    }

    /** Every entry is filed under its connection's own device id. */
    ghost predicate Filed()
      reads this
    {
      forall d :: d in conns ==> conns[d].deviceID == d
    }

    /** The newest connection of a device wins; the one it displaces, and no other, is closed. */
    method Register(c: AgentConn)
      requires Filed()
      modifies this, conns.Values
      ensures Filed() && conns == Put(old(conns), c.deviceID, c)
      ensures forall p: AgentConn {:trigger p.closed} :: p in old(conns).Values ==>
                p.closed == (old(p.closed) || (c.deviceID in old(conns) && p == old(conns)[c.deviceID]))
    {
      var displaced: AgentConn? := null;
      if c.deviceID in conns {
        displaced := conns[c.deviceID];
      }
      conns := conns[c.deviceID := c];
      if displaced != null {
        displaced.Close();
      }
    }

    method Unregister(c: AgentConn)
      requires Filed()
      modifies this
      ensures Filed() && conns == Drop(old(conns), c.deviceID, c)
      ensures c !in conns.Values
    {
      if c.deviceID in conns && conns[c.deviceID] == c {
        conns := conns - {c.deviceID};
      }
    }

    method Get(deviceID: string) returns (found: Option<AgentConn>)
      ensures found == if deviceID in conns then Some(conns[deviceID]) else None
    {
      if deviceID in conns {
        found := Some(conns[deviceID]);
      } else {
        found := None;
      }
    }

    /** Empties the table and closes exactly what it held. */
    method CloseAll()
      modifies this, conns.Values
      ensures conns == map[]
      ensures forall p: AgentConn :: p in old(conns).Values ==> p.closed
    {
      var held := Snapshot();
      ghost var all := conns.Values;
      conns := map[];
      for i := 0 to |held|
        invariant conns == map[]
        invariant forall j :: 0 <= j < i ==> held[j].closed
        modifies all
      {
        held[i].Close();
      }
    }

    /** The connections held, each once, in no particular order. */
    method Snapshot() returns (out: seq<AgentConn>)
      ensures forall p :: p in out <==> p in conns.Values
      ensures |out| == |conns|
    {
      out := [];
      var left := conns.Keys;
      while left != {}
        invariant left <= conns.Keys
        invariant forall p :: p in out <==> exists d :: d in conns && d !in left && conns[d] == p
        invariant |out| + |left| == |conns|
      {
        var d :| d in left;
        out := out + [conns[d]];
        left := left - {d};
      }
    }

    /** One line for each online device. */
    method List() returns (out: seq<string>)
      requires Filed()
      ensures multiset(out) == multiset(conns.Keys)
    {
      out := [];
      var left := conns.Keys;
      while left != {}
        invariant left <= conns.Keys
        invariant multiset(out) + multiset(left) == multiset(conns.Keys)
      {
        var d :| d in left;
        out := out + [conns[d].deviceID];
        left := left - {d};
      }
    }
  }
}
