/** The interest table as the code keeps it, one object updated in place under its lock. */
module InterestTable {
  import opened Prelude
  import opened Interest

  class InterestState {
    const selfId: NodeId
    var local: OriginInterest
    var remote: map<NodeId, OriginInterest>
    var routing: Routing
    var counters: Counters

    ghost function Value(): State
      reads this
    {
      State(selfId, local, remote, routing, counters)
    }

    constructor (selfId: NodeId, routing: Routing)
      ensures Value() == Fresh(selfId, routing)
    {
      this.selfId := selfId;
      this.local := NOTHING;
      this.remote := map[];
      this.routing := routing;
      this.counters := Counters(0, 0, 0, 0);
    }

    method SetRouting(routing: Routing)
      modifies this
      ensures Value() == old(Value()).(routing := routing)
    {
      this.routing := routing;
    }

    method LocalSet(t: Target, hosting: bool) returns (edge: Option<Edge>)
      modifies this
      ensures (Value(), edge) == Interest.LocalSet(old(Value()), t, hosting)
    {
      var changed;
      match t {
        case Room(r) =>
          changed := (r in local.rooms) != hosting;
          local := local.(rooms := if hosting then local.rooms + {r} else local.rooms - {r});
        case User(u) =>
          changed := (u in local.users) != hosting;
          local := local.(users := if hosting then local.users + {u} else local.users - {u});
      }
      if !changed {
        assert local.rooms == old(local.rooms) && local.users == old(local.users);
        return None;
      }
      local := local.(version := local.version + 1);
      counters := counters.(interestOut := counters.interestOut + 1);
      edge := Some(Edge(selfId, local.version, hosting, t));
    }

    method ApplyEdge(e: Edge) returns (applied: bool)
      modifies this
      ensures (Value(), applied) == Interest.ApplyEdge(old(Value()), e)
    {
      if e.origin == selfId {
        return false;
      }
      if e.origin !in remote {
        remote := remote[e.origin := NOTHING];
      }
      var o := remote[e.origin];
      if e.version <= o.version {
        counters := counters.(seqDrops := counters.seqDrops + 1);
        assert remote == old(remote)[e.origin := o];
        return false;
      }
      o := o.(version := e.version);
      match e.target {
        case Room(r) =>
          o := o.(rooms := if e.add then o.rooms + {r} else o.rooms - {r});
        case User(u) =>
          o := o.(users := if e.add then o.users + {u} else o.users - {u});
      }
      remote := remote[e.origin := o];
      counters := counters.(interestIn := counters.interestIn + 1);
      assert remote == old(remote)[e.origin := o];
      return true;
    }

    method ApplySnapshot(s: Snapshot) returns (changed: bool)
      modifies this
      ensures (Value(), changed) == Interest.ApplySnapshot(old(Value()), s)
    {
      if s.origin == selfId {
        return false;
      }
      if s.origin in remote && s.version < remote[s.origin].version {
        return false;
      }
      var replacement := OriginInterest(s.version, Elements(s.rooms), Elements(s.users));
      changed := s.origin !in remote || remote[s.origin] != replacement;
      remote := remote[s.origin := replacement];
      if changed {
        counters := counters.(digestRepairs := counters.digestRepairs + 1);
      }
      counters := counters.(interestIn := counters.interestIn + 1);
    }

    method SweepOrigin(origin: NodeId)
      modifies this
      ensures Value() == Interest.SweepOrigin(old(Value()), origin)
    {
      remote := remote - {origin};
    }
  }
}
