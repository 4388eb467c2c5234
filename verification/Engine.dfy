/** One node's registries and the interest they advertise; every verb is one step (crates/core/src/engine.rs). */
module Engine {
  import opened Prelude
  import opened Wire
  import opened Fanout
  import I = Interest

  datatype Node = Node(
    conns: map<u64, Handle>,
    entries: map<u64, set<Name>>,
    rooms: map<Name, set<u64>>,
    owner: map<u64, Name>,
    users: map<Name, set<u64>>,
    interest: I.State)

  datatype Verb =
    | Admit(id: u64, handle: Handle, user: Option<Name>)
    | Join(id: u64, room: Name, maxRooms: nat)
    | Leave(id: u64, room: Name)
    | Disconnect(id: u64, order: seq<Name>)
    | CloseRoom(room: Name)

  // ── the two indexes ──

  function At(index: map<Name, set<u64>>, key: Name): set<u64>
  {
    if key in index then index[key] else {}
  }

  function Put(index: map<Name, set<u64>>, key: Name, id: u64): map<Name, set<u64>>
  {
    index[key := At(index, key) + {id}]
  }

  /** Remove one member; an emptied key disappears. */
  function Drop(index: map<Name, set<u64>>, key: Name, id: u64): map<Name, set<u64>>
  {
    if key !in index then index
    else if index[key] - {id} == {} then index - {key}
    else index[key := index[key] - {id}]
  }

  function DropAll(index: map<Name, set<u64>>, keys: seq<Name>, id: u64): map<Name, set<u64>>
    decreases |keys|
  {
    if keys == [] then index else DropAll(Drop(index, keys[0], id), keys[1..], id)
  }

  /** An advertisement made or withdrawn; the edge, if any, goes to the mesh. */
  function Advertise(st: I.State, t: I.Target, hosting: bool): (I.State, seq<I.Edge>)
  {
    var (st', edge) := I.LocalSet(st, t, hosting);
    (st', if edge.Some? then [edge.value] else [])
  }

  /** Withdraw every listed room that the disconnect left without members. */
  function WithdrawEmpty(st: I.State, rooms: map<Name, set<u64>>, order: seq<Name>): (I.State, seq<I.Edge>)
    decreases |order|
  {
    if order == [] then (st, [])
    else
      var (st1, e1) := if At(rooms, order[0]) == {} then Advertise(st, I.Room(order[0]), false) else (st, []);
      var (st2, e2) := WithdrawEmpty(st1, rooms, order[1..]);
      (st2, e1 + e2)
  }

  predicate VerbOk(n: Node, verb: Verb)
  {
    match verb
    case Admit(id, _, _) => id !in n.conns
    case Disconnect(id, order) => id in n.conns && id in n.entries && Elements(order) == n.entries[id]
    case _ => true
  }

  predicate Joins(n: Node, id: u64, room: Name, maxRooms: nat)
  {
    id in n.entries && room !in n.entries[id] && (maxRooms == 0 || |n.entries[id]| < maxRooms)
  }

  function ApplyAdmit(n: Node, id: u64, handle: Handle, user: Option<Name>): (Node, seq<I.Edge>)
  {
    var n1 := n.(conns := n.conns[id := handle], entries := n.entries[id := {}], owner := n.owner - {id});
    if user.None? then (n1, [])
    else
      var users := Put(n.users, user.value, id);
      var (interest, edges) := if |At(users, user.value)| == 1 then Advertise(n.interest, I.User(user.value), true)
        else (n.interest, []);
      (n1.(owner := n.owner[id := user.value], users := users, interest := interest), edges)
  }

  function ApplyJoin(n: Node, id: u64, room: Name, maxRooms: nat): (Node, seq<I.Edge>)
  {
    if !Joins(n, id, room, maxRooms) then (n, [])
    else
      var rooms := Put(n.rooms, room, id);
      var (interest, edges) := if |At(rooms, room)| == 1 then Advertise(n.interest, I.Room(room), true)
        else (n.interest, []);
      (n.(entries := n.entries[id := n.entries[id] + {room}], rooms := rooms, interest := interest), edges)
  }

  function ApplyLeave(n: Node, id: u64, room: Name): (Node, seq<I.Edge>)
  {
    if id !in n.entries || room !in n.entries[id] then (n, [])
    else
      var rooms := Drop(n.rooms, room, id);
      var (interest, edges) := if At(rooms, room) == {} then Advertise(n.interest, I.Room(room), false)
        else (n.interest, []);
      (n.(entries := n.entries[id := n.entries[id] - {room}], rooms := rooms, interest := interest), edges)
  }

  function ApplyDisconnect(n: Node, id: u64, order: seq<Name>): (Node, seq<I.Edge>)
  {
    var rooms := DropAll(n.rooms, order, id);
    var (i1, e1) := WithdrawEmpty(n.interest, rooms, order);
    var n1 := n.(conns := n.conns - {id}, entries := n.entries - {id}, rooms := rooms,
                 owner := n.owner - {id}, interest := i1);
    if id !in n.owner then (n1, e1)
    else
      var users := Drop(n.users, n.owner[id], id);
      var (i2, e2) := if At(users, n.owner[id]) == {} then Advertise(i1, I.User(n.owner[id]), false) else (i1, []);
      (n1.(users := users, interest := i2), e1 + e2)
  }

  /** `closeRoom` runs the registry's leave for every member and leaves the advertisement alone. */
  function ApplyCloseRoom(n: Node, room: Name): Node
  {
    n.(entries := map id | id in n.entries :: n.entries[id] - {room}, rooms := n.rooms - {room})
  }

  function Apply(n: Node, verb: Verb): (Node, seq<I.Edge>)
    requires VerbOk(n, verb)
  {
    match verb
    case Admit(id, handle, user) => ApplyAdmit(n, id, handle, user)
    case Join(id, room, maxRooms) => ApplyJoin(n, id, room, maxRooms)
    case Leave(id, room) => ApplyLeave(n, id, room)
    case Disconnect(id, order) => ApplyDisconnect(n, id, order)
    case CloseRoom(room) => (ApplyCloseRoom(n, room), [])
  }

  // ── invariants ──

  predicate RoomSide(n: Node, r: Name, id: u64)
  {
    id in At(n.rooms, r) <==> id in n.entries && r in n.entries[id]
  }

  predicate UserSide(n: Node, u: Name, id: u64)
  {
    id in At(n.users, u) <==> id in n.owner && n.owner[id] == u
  }

  /** Both sides of membership and identity agree, and no empty room or user survives. */
  ghost predicate IndexesOk(n: Node)
  {
    && n.conns.Keys == n.entries.Keys && n.owner.Keys <= n.conns.Keys
    && (forall r, id :: RoomSide(n, r, id))
    && (forall u, id :: UserSide(n, u, id))
    && NoneEmpty(n.rooms) && NoneEmpty(n.users)
  }

  ghost predicate NoneEmpty(index: map<Name, set<u64>>)
  {
    forall k | k in index :: index[k] != {}
  }

  /** Every hosted room is advertised, and exactly the hosted users are. */
  ghost predicate Advertised(n: Node)
  {
    n.rooms.Keys <= n.interest.local.rooms && n.users.Keys == n.interest.local.users
  }

  /** Rooms still advertised though nobody is in them. */
  function Leftover(n: Node): set<Name>
  {
    n.interest.local.rooms - n.rooms.Keys
  }

  /** Closing a live room leaves it advertised; joining it makes the advertisement true again. */
  function LeftoverAfter(n: Node, verb: Verb, left: set<Name>): set<Name>
  {
    match verb
    case Join(id, room, maxRooms) => if Joins(n, id, room, maxRooms) then left - {room} else left
    case CloseRoom(room) => if room in n.rooms then left + {room} else left
    case _ => left
  }

  lemma PutEffect(index: map<Name, set<u64>>, key: Name, id: u64)
    requires NoneEmpty(index)
    ensures forall k :: At(Put(index, key, id), k) == if k == key then At(index, k) + {id} else At(index, k)
    ensures NoneEmpty(Put(index, key, id)) && Put(index, key, id).Keys == index.Keys + {key}
  {
  }

  lemma DropEffect(index: map<Name, set<u64>>, key: Name, id: u64)
    requires NoneEmpty(index)
    ensures forall k :: At(Drop(index, key, id), k) == if k == key then At(index, k) - {id} else At(index, k)
    ensures NoneEmpty(Drop(index, key, id))
    ensures Drop(index, key, id).Keys == if At(index, key) - {id} == {} then index.Keys - {key} else index.Keys
  {
  }

  lemma {:induction false} DropAllEffect(index: map<Name, set<u64>>, keys: seq<Name>, id: u64)
    requires NoneEmpty(index)
    ensures forall k :: At(DropAll(index, keys, id), k) == if k in keys then At(index, k) - {id} else At(index, k)
    ensures NoneEmpty(DropAll(index, keys, id))
    decreases |keys|
  {
    if keys != [] {
      DropEffect(index, keys[0], id);
      DropAllEffect(Drop(index, keys[0], id), keys[1..], id);
    }
  }

  lemma KeysAreOccupied(index: map<Name, set<u64>>, k: Name)
    requires NoneEmpty(index)
    ensures k in index <==> At(index, k) != {}
  {
  }

  lemma {:induction false} WithdrawEmptyEffect(st: I.State, rooms: map<Name, set<u64>>, order: seq<Name>)
    ensures var st' := WithdrawEmpty(st, rooms, order).0;
      && st'.local.users == st.local.users
      && st'.local.rooms == st.local.rooms - set r | r in order && At(rooms, r) == {}
    decreases |order|
  {
    if order != [] {
      var st1 := if At(rooms, order[0]) == {} then Advertise(st, I.Room(order[0]), false).0 else st;
      WithdrawEmptyEffect(st1, rooms, order[1..]);
    }
  }

  /** The count is one exactly when the new member is the first. */
  lemma FirstMember(members: set<u64>, id: u64)
    requires id !in members
    ensures |members + {id}| == 1 <==> members == {}
  {
  }

  lemma AdmitAdvertised(n: Node, id: u64, handle: Handle, user: Option<Name>)
    requires IndexesOk(n) && Advertised(n) && id !in n.conns
    ensures var n' := ApplyAdmit(n, id, handle, user).0; Advertised(n') && Leftover(n') == Leftover(n)
  {
    if user.Some? {
      PutEffect(n.users, user.value, id);
      assert UserSide(n, user.value, id);
      FirstMember(At(n.users, user.value), id);
      KeysAreOccupied(n.users, user.value);
    }
  }

  lemma AdmitSides(n: Node, id: u64, handle: Handle, user: Option<Name>, r: Name, i: u64)
    requires IndexesOk(n) && id !in n.conns
    ensures var n' := ApplyAdmit(n, id, handle, user).0; RoomSide(n', r, i) && UserSide(n', r, i)
  {
    if user.Some? {
      PutEffect(n.users, user.value, id);
    }
    assert RoomSide(n, r, i) && UserSide(n, r, i);
  }

  lemma AdmitKeeps(n: Node, id: u64, handle: Handle, user: Option<Name>)
    requires IndexesOk(n) && Advertised(n) && id !in n.conns
    ensures var n' := ApplyAdmit(n, id, handle, user).0; IndexesOk(n') && Advertised(n') && Leftover(n') == Leftover(n)
  {
    var n' := ApplyAdmit(n, id, handle, user).0;
    AdmitAdvertised(n, id, handle, user);
    assert NoneEmpty(n'.users) by {
      if user.Some? {
        PutEffect(n.users, user.value, id);
      }
    }
    forall r, i ensures RoomSide(n', r, i) && UserSide(n', r, i) {
      AdmitSides(n, id, handle, user, r, i);
    }
  }

  lemma AdvertiseEffect(st: I.State, t: I.Target, hosting: bool)
    ensures Advertise(st, t, hosting).0.local.rooms == st.local.With(t, hosting).rooms
    ensures Advertise(st, t, hosting).0.local.users == st.local.With(t, hosting).users
  {
  }

  lemma JoinAdvertised(n: Node, id: u64, room: Name, maxRooms: nat)
    requires IndexesOk(n) && Advertised(n) && Joins(n, id, room, maxRooms)
    ensures var n' := ApplyJoin(n, id, room, maxRooms).0; Advertised(n') && Leftover(n') == Leftover(n) - {room}
  {
    var n' := ApplyJoin(n, id, room, maxRooms).0;
    assert n'.rooms.Keys == n.rooms.Keys + {room} by { PutEffect(n.rooms, room, id); }
    JoinAdvertises(n, id, room, maxRooms);
    HostedAndAdvertised(n, n', room);
  }

  lemma HostedAndAdvertised(n: Node, n': Node, room: Name)
    requires Advertised(n) && n'.rooms.Keys == n.rooms.Keys + {room} && n'.users == n.users
    requires n'.interest.local.rooms == n.interest.local.rooms + {room} &&
      n'.interest.local.users == n.interest.local.users
    ensures Advertised(n') && Leftover(n') == Leftover(n) - {room}
  {
  }

  /** The first member brings the advertisement; a later one finds it there. */
  lemma JoinAdvertises(n: Node, id: u64, room: Name, maxRooms: nat)
    requires IndexesOk(n) && Advertised(n) && Joins(n, id, room, maxRooms)
    ensures var (local, local') := (n.interest.local, ApplyJoin(n, id, room, maxRooms).0.interest.local);
      local'.rooms == local.rooms + {room} && local'.users == local.users
  {
    assert At(Put(n.rooms, room, id), room) == At(n.rooms, room) + {id} by { PutEffect(n.rooms, room, id); }
    assert RoomSide(n, room, id);
    FirstMember(At(n.rooms, room), id);
    if At(n.rooms, room) == {} {
      AdvertiseEffect(n.interest, I.Room(room), true);
    } else {
      KeysAreOccupied(n.rooms, room);
      assert room in n.interest.local.rooms;
    }
  }

  lemma JoinSides(n: Node, id: u64, room: Name, maxRooms: nat, r: Name, i: u64)
    requires IndexesOk(n) && Joins(n, id, room, maxRooms)
    ensures var n' := ApplyJoin(n, id, room, maxRooms).0; RoomSide(n', r, i) && UserSide(n', r, i)
  {
    PutEffect(n.rooms, room, id);
    assert RoomSide(n, r, i) && UserSide(n, r, i);
  }

  lemma JoinIndexes(n: Node, id: u64, room: Name, maxRooms: nat)
    requires IndexesOk(n) && Joins(n, id, room, maxRooms)
    ensures IndexesOk(ApplyJoin(n, id, room, maxRooms).0)
  {
    var n' := ApplyJoin(n, id, room, maxRooms).0;
    assert NoneEmpty(n'.rooms) by { PutEffect(n.rooms, room, id); }
    forall r, i ensures RoomSide(n', r, i) && UserSide(n', r, i) {
      JoinSides(n, id, room, maxRooms, r, i);
    }
  }

  lemma JoinKeeps(n: Node, id: u64, room: Name, maxRooms: nat)
    requires IndexesOk(n) && Advertised(n)
    ensures var n' := ApplyJoin(n, id, room, maxRooms).0;
      IndexesOk(n') && Advertised(n') && Leftover(n') == LeftoverAfter(n, Join(id, room, maxRooms), Leftover(n))
  {
    if Joins(n, id, room, maxRooms) {
      JoinIndexes(n, id, room, maxRooms);
      JoinAdvertised(n, id, room, maxRooms);
    }
  }

  lemma LeaveKeeps(n: Node, id: u64, room: Name)
    requires IndexesOk(n) && Advertised(n)
    ensures var n' := ApplyLeave(n, id, room).0; IndexesOk(n') && Advertised(n') && Leftover(n') == Leftover(n)
  {
    if id in n.entries && room in n.entries[id] {
      var n' := ApplyLeave(n, id, room).0;
      DropEffect(n.rooms, room, id);
      assert RoomSide(n, room, id);
      forall r, i ensures RoomSide(n', r, i) {
        assert RoomSide(n, r, i);
      }
      forall u, i ensures UserSide(n', u, i) {
        assert UserSide(n, u, i);
      }
    }
  }

  lemma DisconnectRooms(n: Node, id: u64, order: seq<Name>)
    requires IndexesOk(n) && VerbOk(n, Disconnect(id, order))
    ensures var n' := ApplyDisconnect(n, id, order).0;
      NoneEmpty(n'.rooms) && forall r, i :: RoomSide(n', r, i)
  {
    var n' := ApplyDisconnect(n, id, order).0;
    DropAllEffect(n.rooms, order, id);
    forall r, i ensures RoomSide(n', r, i) {
      assert RoomSide(n, r, i);
      assert r in order <==> r in Elements(order);
    }
  }

  lemma DisconnectUsers(n: Node, id: u64, order: seq<Name>)
    requires IndexesOk(n) && VerbOk(n, Disconnect(id, order))
    ensures var n' := ApplyDisconnect(n, id, order).0;
      NoneEmpty(n'.users) && forall u, i :: UserSide(n', u, i)
  {
    var n' := ApplyDisconnect(n, id, order).0;
    if id in n.owner {
      DropEffect(n.users, n.owner[id], id);
    }
    forall u, i ensures UserSide(n', u, i) {
      assert UserSide(n, u, i);
    }
  }

  lemma DisconnectAdvertised(n: Node, id: u64, order: seq<Name>)
    requires IndexesOk(n) && Advertised(n) && VerbOk(n, Disconnect(id, order))
    ensures var n' := ApplyDisconnect(n, id, order).0; Advertised(n') && Leftover(n') == Leftover(n)
  {
    var rooms := DropAll(n.rooms, order, id);
    DropAllEffect(n.rooms, order, id);
    WithdrawEmptyEffect(n.interest, rooms, order);
    if id in n.owner {
      DropEffect(n.users, n.owner[id], id);
      assert UserSide(n, n.owner[id], id);
    }
    forall r
      ensures r in rooms <==> r in n.rooms && !(r in order && At(rooms, r) == {})
      ensures r in order ==> r in n.rooms
    {
      KeysAreOccupied(n.rooms, r);
      KeysAreOccupied(rooms, r);
      assert RoomSide(n, r, id) && (r in order <==> r in Elements(order));
    }
  }

  lemma CloseRoomKeeps(n: Node, room: Name)
    requires IndexesOk(n) && Advertised(n)
    ensures IndexesOk(ApplyCloseRoom(n, room)) && Advertised(ApplyCloseRoom(n, room))
    ensures Leftover(ApplyCloseRoom(n, room)) == LeftoverAfter(n, CloseRoom(room), Leftover(n))
  {
    var n' := ApplyCloseRoom(n, room);
    forall r, i ensures RoomSide(n', r, i) {
      assert RoomSide(n, r, i);
    }
    forall u, i ensures UserSide(n', u, i) {
      assert UserSide(n, u, i);
    }
  }

  /**
   * Every verb keeps both indexes consistent, every non-empty room advertised and exactly the present users
   * advertised. Only closing a live room leaves an empty room advertised, and only joining it again mends that.
   */
  lemma VerbKeeps(n: Node, verb: Verb)
    requires IndexesOk(n) && Advertised(n) && VerbOk(n, verb)
    ensures IndexesOk(Apply(n, verb).0) && Advertised(Apply(n, verb).0)
    ensures Leftover(Apply(n, verb).0) == LeftoverAfter(n, verb, Leftover(n))
  {
    match verb
    case Admit(id, handle, user) => AdmitKeeps(n, id, handle, user);
    case Join(id, room, maxRooms) => JoinKeeps(n, id, room, maxRooms);
    case Leave(id, room) => LeaveKeeps(n, id, room);
    case Disconnect(id, order) =>
      DisconnectRooms(n, id, order);
      DisconnectUsers(n, id, order);
      DisconnectAdvertised(n, id, order);
    case CloseRoom(room) => CloseRoomKeeps(n, room);
  }
}
