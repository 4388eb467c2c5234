/** The room registry beside the connections' room sets, run one verb at a time (crates/core/src/rooms.rs). */
module RoomsObject {
  import opened Prelude
  import opened Wire
  import E = Engine
  import S = RoomSteps

  class RoomRegistry {
    var entries: map<u64, set<Name>>
    var rooms: map<Name, set<u64>>

    /** Membership is bidirectional and no empty room survives. */
    ghost predicate Valid()
      reads this
    {
      E.NoneEmpty(rooms) && forall r, id :: Mirrored(r, id)
    }

    ghost predicate Mirrored(r: Name, id: u64)
      reads this
    {
      id in E.At(rooms, r) <==> id in entries && r in entries[id]
    }

    constructor ()
      ensures Valid() && entries == map[] && rooms == map[]
    {
      entries, rooms := map[], map[];
    }

    method Join(id: u64, room: Name, maxRooms: nat) returns (change: S.MembershipChange)
      requires Valid()
      modifies this
      ensures Valid()
      ensures change == (if id !in old(entries) then S.NotFound
                         else if room in old(entries)[id] then S.NoOp
                         else if maxRooms != 0 && |old(entries)[id]| >= maxRooms then S.LimitExceeded
                         else S.Changed)
      ensures change == S.Changed ==>
        entries == old(entries)[id := old(entries)[id] + {room}] && rooms == E.Put(old(rooms), room, id)
      ensures change != S.Changed ==> entries == old(entries) && rooms == old(rooms)
    {
      if id !in entries {
        return S.NotFound;
      }
      if room in entries[id] {
        return S.NoOp;
      }
      if maxRooms != 0 && |entries[id]| >= maxRooms {
        return S.LimitExceeded;
      }
      E.PutEffect(rooms, room, id);
      forall r, i
        ensures i in E.At(E.Put(rooms, room, id), r) <==>
          i in entries[id := entries[id] + {room}] && r in entries[id := entries[id] + {room}][i]
      {
        assert Mirrored(r, i);
      }
      entries := entries[id := entries[id] + {room}];
      rooms := rooms[room := (if room in rooms then rooms[room] else {}) + {id}];
      return S.Changed;
    }

    /** Remove one member and, if that empties the room, the room. */
    method RemoveMember(room: Name, id: u64)
      modifies this`rooms
      ensures rooms == E.Drop(old(rooms), room, id)
    {
      if room in rooms {
        rooms := rooms[room := rooms[room] - {id}];
        if rooms[room] == {} {
          rooms := rooms - {room};
          assert rooms == old(rooms) - {room};
        }
      }
    }

    method Leave(id: u64, room: Name) returns (change: S.MembershipChange)
      requires Valid()
      modifies this
      ensures Valid()
      ensures change ==
        if id !in old(entries) then S.NotFound else if room in old(entries)[id] then S.Changed else S.NoOp
      ensures change == S.Changed ==>
        entries == old(entries)[id := old(entries)[id] - {room}] && rooms == E.Drop(old(rooms), room, id)
      ensures change != S.Changed ==> entries == old(entries) && rooms == old(rooms)
    {
      if id !in entries {
        return S.NotFound;
      }
      if room !in entries[id] {
        return S.NoOp;
      }
      E.DropEffect(rooms, room, id);
      forall r, i
        ensures i in E.At(E.Drop(rooms, room, id), r) <==>
          i in entries[id := entries[id] - {room}] && r in entries[id := entries[id] - {room}][i]
      {
        assert Mirrored(r, i);
      }
      entries := entries[id := entries[id] - {room}];
      RemoveMember(room, id);
      return S.Changed;
    }

    /** The sweep: leave for every member. It removes them all, and the room with its last one; connections stay. */
    method CloseRoom(room: Name) returns (removed: Option<nat>)
      requires Valid()
      modifies this
      ensures Valid()
      ensures removed == if room in old(rooms) then Some(|old(rooms)[room]|) else None
      ensures rooms == old(rooms) - {room}
      ensures entries == map id | id in old(entries) :: old(entries)[id] - {room}
    {
      if room !in rooms {
        NobodyIn(room);
        assert forall id | id in entries :: entries[id] == entries[id] - {room};
        assert rooms == rooms - {room};
        return None;
      }
      var members := rooms[room];
      var count := Sweep(room, members);
      E.KeysAreOccupied(rooms, room);
      assert rooms == rooms - {room};
      forall id | id in entries ensures entries[id] == old(entries)[id] - {room} {
        assert old(Mirrored(room, id));
      }
      return Some(count);
    }

    /** Leave for each member of the copied-out list. */
    method Sweep(room: Name, members: set<u64>) returns (count: nat)
      requires Valid() && members == E.At(rooms, room)
      modifies this
      ensures Valid() && count == |members| && E.At(rooms, room) == {}
      ensures rooms - {room} == old(rooms) - {room} && entries.Keys == old(entries).Keys
      ensures forall id | id in entries ::
        entries[id] == if id in members then old(entries)[id] - {room} else old(entries)[id]
    {
      var todo := members;
      count := 0;
      while todo != {}
        invariant Valid() && todo == E.At(rooms, room) <= members && count == |members| - |todo|
        invariant rooms - {room} == old(rooms) - {room}
        invariant entries.Keys == old(entries).Keys
        invariant forall id | id in entries ::
          entries[id] == if id in members - todo then old(entries)[id] - {room} else old(entries)[id]
        decreases todo
      {
        var id :| id in todo;
        assert Mirrored(room, id);
        E.DropEffect(rooms, room, id);
        ghost var before := rooms;
        var change := Leave(id, room);
        assert rooms - {room} == before - {room};
        count := count + 1;
        todo := todo - {id};
      }
    }

    lemma NobodyIn(room: Name)
      requires Valid() && E.At(rooms, room) == {}
      ensures forall id | id in entries :: room !in entries[id]
    {
      forall id | id in entries ensures room !in entries[id] {
        assert Mirrored(room, id);
      }
    }

    /** Take the entry out and clear it from each of its rooms. */
    method Disconnect(id: u64)
      requires Valid()
      modifies this
      ensures Valid() && entries == old(entries) - {id}
      ensures forall r :: E.At(rooms, r) == E.At(old(rooms), r) - {id}
    {
      if id !in entries {
        forall r ensures E.At(rooms, r) == E.At(rooms, r) - {id} {
          assert Mirrored(r, id);
        }
        assert entries == entries - {id};
        return;
      }
      var todo := entries[id];
      entries := entries - {id};
      while todo != {}
        invariant entries == old(entries) - {id} && todo <= old(entries)[id] && E.NoneEmpty(rooms)
        invariant forall r ::
          E.At(rooms, r) == if r in old(entries)[id] - todo then E.At(old(rooms), r) - {id} else E.At(old(rooms), r)
        decreases todo
      {
        var room :| room in todo;
        E.DropEffect(rooms, room, id);
        RemoveMember(room, id);
        todo := todo - {room};
      }
      forall r ensures E.At(rooms, r) == E.At(old(rooms), r) - {id} {
        assert old(Mirrored(r, id));
      }
      forall r, i ensures Mirrored(r, i) {
        assert old(Mirrored(r, i));
        assert E.At(rooms, r) == E.At(old(rooms), r) - {id};
      }
    }
  }
}
