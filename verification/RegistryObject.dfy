/** The registry as the code keeps it: sixteen shards and a round-robin counter, updated in place. */
module RegistryObject {
  import opened Prelude
  import opened Wire
  import opened ConnectionIds
  import R = Registry

  class Registry<H(==)> {
    var shards: seq<R.Shard<H>>
    var next: nat

    ghost function Value(): R.Table<H>
      reads this
    {
      R.Table(shards, next)
    }

    ghost predicate Valid()
      reads this
    {
      |shards| == R.SHARDS
    }

    constructor ()
      ensures Valid() && Value() == R.Empty()
    {
      shards := seq(R.SHARDS, _ => R.Shard(map[], []));
      next := 0;
    }

    /** `key` is the vacant slot the slab hands out. */
    method Insert(handle: H, key: nat) returns (id: nat)
      requires Valid() && R.Vacant(Value(), key)
      modifies this
      ensures Valid() && (Value(), id) == R.Insert(old(Value()), handle, key)
    {
      var s := next % R.SHARDS;
      next := next + 1;
      var slab := shards[s].slab[key := R.Entry(0, handle, {})];
      var gens := shards[s].gens;
      var generation := 0;
      if key < |gens| {
        gens := gens[key := (gens[key] + 1) % GENERATIONS];
        generation := gens[key];
      } else {
        gens := gens + [0];
      }
      slab := slab[key := R.Entry(generation, handle, {})];
      assert slab == shards[s].slab[key := R.Entry(generation, handle, {})];
      shards := shards[s := R.Shard(slab, gens)];
      id := Pack(s, generation, key);
    }

    method Get(id: nat) returns (handle: Option<H>)
      requires Valid()
      ensures handle == R.Get(Value(), id)
    {
      if ShardOf(id) >= |shards| || KeyOf(id) !in shards[ShardOf(id)].slab {
        return None;
      }
      var entry := shards[ShardOf(id)].slab[KeyOf(id)];
      return if entry.generation == GenerationOf(id) then Some(entry.handle) else None;
    }

    /** Replace the room set, under the shard lock; false for a missing or stale id. */
    method WithRooms(id: nat, rooms: set<Name>) returns (found: bool)
      requires Valid()
      modifies this
      ensures Valid() && Value() == R.WithRooms(old(Value()), id, rooms)
      ensures found <==> R.Get(old(Value()), id).Some?
    {
      var s := ShardOf(id);
      if s >= |shards| || KeyOf(id) !in shards[s].slab || shards[s].slab[KeyOf(id)].generation != GenerationOf(id) {
        return false;
      }
      var entry := shards[s].slab[KeyOf(id)];
      shards := shards[s := shards[s].(slab := shards[s].slab[KeyOf(id) := entry.(rooms := rooms)])];
      return true;
    }

    /** Take the entry out; from here on the id resolves to nothing and its room set is final. */
    method RemoveFull(id: nat) returns (removed: Option<(H, set<Name>)>)
      requires Valid()
      modifies this
      ensures Valid() && (Value(), removed) == R.RemoveFull(old(Value()), id)
      ensures R.Get(Value(), id) == None
    {
      var s := ShardOf(id);
      if s >= |shards| || KeyOf(id) !in shards[s].slab || shards[s].slab[KeyOf(id)].generation != GenerationOf(id) {
        return None;
      }
      var entry := shards[s].slab[KeyOf(id)];
      shards := shards[s := shards[s].(slab := shards[s].slab - {KeyOf(id)})];
      return Some((entry.handle, entry.rooms));
    }
  }
}
