/** Interleavings of two verbs on one name after which the node advertises wrongly (crates/core/src/engine.rs). */
module EngineLimits {
  import opened Prelude
  import opened Wire
  import opened Fanout
  import opened Engine
  import opened EngineSteps
  import I = Interest

  /** A node that has just started. */
  function Fresh(self: I.NodeId, routing: I.Routing): Busy
  {
    Busy(Node(map[], map[], map[], map[], map[], I.Fresh(self, routing)), map[])
  }

  // ── single steps ──

  lemma BindStep(b: Busy, id: u64, user: Name)
    requires Own(id) in b.tasks && b.tasks[Own(id)] == Binding(user)
    ensures Enabled(b, Bind(id))
    ensures var (b', sent) := Next(b, Bind(id));
      && sent == [] && b'.tasks == b.tasks[Own(id) := Arrived(I.User(user))] && b'.node.interest == b.node.interest
      && Here(b'.node, I.User(user)) == Here(b.node, I.User(user)) + {id}
  {
    HereAfter(b, Bind(id), I.User(user));
  }

  lemma JoinStep(b: Busy, id: u64, room: Name)
    requires Call(0) !in b.tasks && Joins(b.node, id, room, 0)
    ensures Enabled(b, JoinRoom(0, id, room, 0))
    ensures var (b', sent) := Next(b, JoinRoom(0, id, room, 0));
      && sent == [] && b'.tasks == b.tasks[Call(0) := Arrived(I.Room(room))]
      && Here(b'.node, I.Room(room)) == Here(b.node, I.Room(room)) + {id}
      && b'.node.conns == b.node.conns && b'.node.owner == b.node.owner && b'.node.interest == b.node.interest
      && b'.node.entries == b.node.entries[id := b.node.entries[id] + {room}]
  {
    HereAfter(b, JoinRoom(0, id, room, 0), I.Room(room));
  }

  lemma CountStep(b: Busy, key: Key, t: I.Target)
    requires key in b.tasks && b.tasks[key] == Arrived(t)
    ensures Enabled(b, Count(key))
    ensures var (b', sent) := Next(b, Count(key));
      && sent == [] && b'.node == b.node
      && b'.tasks == if |Here(b.node, t)| == 1 then b.tasks[key := Announcing(t)] else b.tasks - {key}
  {
  }

  lemma AnnounceStep(b: Busy, key: Key, t: I.Target)
    requires key in b.tasks && b.tasks[key] == Announcing(t)
    ensures Enabled(b, Set(key))
    ensures var (b', sent) := Next(b, Set(key));
      && b'.tasks == b.tasks - {key} && b'.node == b.node.(interest := b'.node.interest) && Hosts(b'.node, t)
      && (Hosts(b.node, t) ==> sent == [])
  {
  }

  // ── two devices of one user ──

  /** Both connections are in the registry, neither is bound. */
  lemma TwoInserted(a: Busy, user: Name, h: Handle, i: u64, j: u64) returns (steps: seq<Step>, b: Busy)
    requires a.tasks == map[] && a.node.conns == map[] && a.node.users == map[] && i != j
    ensures Run(a, steps, b, []) && b.tasks == map[Own(i) := Binding(user), Own(j) := Binding(user)]
    ensures b.node.users == map[] && b.node.interest == a.node.interest
  {
    var s1, s2 := Insert(i, h, Some(user)), Insert(j, h, Some(user));
    assert Run(a, [], a, []);
    RunSnoc(a, [], a, [], s1);
    var b1 := Next(a, s1).0;
    RunSnoc(a, [] + [s1], b1, [], s2);
    steps, b := [] + [s1] + [s2], Next(b1, s2).0;
  }

  /** Both have bound, neither has counted. */
  lemma TwoBound(a: Busy, user: Name, h: Handle, i: u64, j: u64) returns (steps: seq<Step>, b: Busy)
    requires a.tasks == map[] && a.node.conns == map[] && a.node.users == map[] && i != j
    ensures Run(a, steps, b, [])
    ensures b.tasks == map[Own(i) := Arrived(I.User(user)), Own(j) := Arrived(I.User(user))]
    ensures Here(b.node, I.User(user)) == {i, j} && b.node.interest == a.node.interest
  {
    var s1, b1 := OneBound(a, user, h, i, j);
    BindStep(b1, j, user);
    RunSnoc(a, s1, b1, [], Bind(j));
    steps, b := s1 + [Bind(j)], Next(b1, Bind(j)).0;
  }

  lemma OneBound(a: Busy, user: Name, h: Handle, i: u64, j: u64) returns (steps: seq<Step>, b: Busy)
    requires a.tasks == map[] && a.node.conns == map[] && a.node.users == map[] && i != j
    ensures Run(a, steps, b, [])
    ensures b.tasks == map[Own(i) := Arrived(I.User(user)), Own(j) := Binding(user)]
    ensures Here(b.node, I.User(user)) == {i} && b.node.interest == a.node.interest
  {
    var s0, b0 := TwoInserted(a, user, h, i, j);
    BindStep(b0, i, user);
    RunSnoc(a, s0, b0, [], Bind(i));
    steps, b := s0 + [Bind(i)], Next(b0, Bind(i)).0;
  }

  /**
   * Two devices of one user are admitted at once: both bind, both read two devices, neither advertises. No verb is in
   * flight any more, the user is present and the cluster is never told.
   */
  lemma TwoDevicesUnadvertised(self: I.NodeId, routing: I.Routing, user: Name, h: Handle, i: u64, j: u64)
    returns (steps: seq<Step>, b: Busy)
    requires i != j
    ensures Run(Fresh(self, routing), steps, b, []) && b.tasks == map[]
    ensures Here(b.node, I.User(user)) == {i, j} && !Hosts(b.node, I.User(user))
  {
    var a, t := Fresh(self, routing), I.User(user);
    var s0, b0 := TwoBound(a, user, h, i, j);
    assert |{i, j}| == 2;
    CountStep(b0, Own(i), t);
    RunSnoc(a, s0, b0, [], Count(Own(i)));
    var b1 := Next(b0, Count(Own(i))).0;
    CountStep(b1, Own(j), t);
    RunSnoc(a, s0 + [Count(Own(i))], b1, [], Count(Own(j)));
    steps, b := s0 + [Count(Own(i))] + [Count(Own(j))], Next(b1, Count(Own(j))).0;
  }

  // ── a join behind a disconnect ──

  /** A whole join of a room nobody is in: join, count, announce. */
  lemma JoinEmptyRoom(a: Busy, s0: seq<Step>, b0: Busy, e0: seq<I.Edge>, id: u64, room: Name)
    returns (steps: seq<Step>, b: Busy, edges: seq<I.Edge>)
    requires Run(a, s0, b0, e0) && Call(0) !in b0.tasks && Joins(b0.node, id, room, 0)
    requires Here(b0.node, I.Room(room)) == {}
    ensures Run(a, steps, b, edges) && b.tasks == b0.tasks && (Hosts(b0.node, I.Room(room)) ==> edges == e0)
    ensures Here(b.node, I.Room(room)) == {id} && Hosts(b.node, I.Room(room))
    ensures b.node.conns == b0.node.conns && b.node.owner == b0.node.owner
    ensures b.node.entries == b0.node.entries[id := b0.node.entries[id] + {room}]
  {
    var t, key := I.Room(room), Call(0);
    var s2, b2 := JoinAndCount(a, s0, b0, e0, id, room);
    AnnounceStep(b2, key, t);
    RunSnoc(a, s2, b2, e0, Set(key));
    steps, b, edges := s2 + [Set(key)], Next(b2, Set(key)).0, e0 + Next(b2, Set(key)).1;
    assert b.tasks == b0.tasks;
  }

  lemma JoinAndCount(a: Busy, s0: seq<Step>, b0: Busy, e0: seq<I.Edge>, id: u64, room: Name)
    returns (steps: seq<Step>, b: Busy)
    requires Run(a, s0, b0, e0) && Call(0) !in b0.tasks && Joins(b0.node, id, room, 0)
    requires Here(b0.node, I.Room(room)) == {}
    ensures Run(a, steps, b, e0) && b.tasks == b0.tasks[Call(0) := Announcing(I.Room(room))]
    ensures Here(b.node, I.Room(room)) == {id} && b.node.interest == b0.node.interest
    ensures b.node.conns == b0.node.conns && b.node.owner == b0.node.owner
    ensures b.node.entries == b0.node.entries[id := b0.node.entries[id] + {room}]
  {
    var key, join := Call(0), JoinRoom(0, id, room, 0);
    JoinStep(b0, id, room);
    RunSnoc(a, s0, b0, e0, join);
    assert e0 + [] == e0;
    var b1 := Next(b0, join).0;
    CountStep(b1, key, I.Room(room));
    RunSnoc(a, s0 + [join], b1, e0, Count(key));
    steps, b := s0 + [join] + [Count(key)], Next(b1, Count(key)).0;
  }

  /** Connections `i` and `j` are in, `i` is in the room alone, and the room is advertised. */
  ghost predicate Settled(b: Busy, room: Name, i: u64, j: u64)
  {
    && b.tasks == map[] && i != j && i in b.node.conns && i in b.node.entries && b.node.entries[i] == {room}
    && i !in b.node.owner && j in b.node.entries && b.node.entries[j] == {}
    && Here(b.node, I.Room(room)) == {i} && Hosts(b.node, I.Room(room))
  }

  lemma TwoConnected(a: Busy, h: Handle, i: u64, j: u64) returns (steps: seq<Step>, b: Busy)
    requires a.tasks == map[] && a.node.conns == map[] && a.node.rooms == map[] && i != j
    ensures Run(a, steps, b, []) && b.tasks == map[] && b.node.rooms == map[]
    ensures b.node.conns.Keys == {i, j} && b.node.entries == a.node.entries[i := {}][j := {}]
    ensures i !in b.node.owner && j !in b.node.owner
  {
    var s1, s2 := Insert(i, h, None), Insert(j, h, None);
    assert Run(a, [], a, []);
    RunSnoc(a, [], a, [], s1);
    var b1 := Next(a, s1).0;
    RunSnoc(a, [] + [s1], b1, [], s2);
    steps, b := [] + [s1] + [s2], Next(b1, s2).0;
  }

  lemma OneInRoom(self: I.NodeId, routing: I.Routing, room: Name, h: Handle, i: u64, j: u64)
    returns (steps: seq<Step>, b: Busy, edges: seq<I.Edge>)
    requires i != j
    ensures Run(Fresh(self, routing), steps, b, edges) && Settled(b, room, i, j)
  {
    var s0, b0 := TwoConnected(Fresh(self, routing), h, i, j);
    steps, b, edges := JoinEmptyRoom(Fresh(self, routing), s0, b0, [], i, room);
  }

  /** `i` is out of the registry and on its way out of the room. */
  lemma RemoveStep(b: Busy, room: Name, i: u64, j: u64)
    requires Settled(b, room, i, j)
    ensures Enabled(b, Remove(i))
    ensures var (b', sent) := Next(b, Remove(i));
      && sent == [] && b'.tasks == map[Own(i) := Closing(None, {room}, {}, None)]
      && b'.node.rooms == b.node.rooms && b'.node.interest == b.node.interest
      && j in b'.node.entries && b'.node.entries[j] == {}
  {
  }

  /** Out of the room, and the count read: nobody is left. */
  lemma CleanAndCount(b: Busy, room: Name, i: u64)
    requires b.tasks == map[Own(i) := Closing(None, {room}, {}, None)] && Here(b.node, I.Room(room)) == {i}
    ensures Enabled(b, CleanRoom(i, room))
    ensures var (b1, sent) := Next(b, CleanRoom(i, room));
      && sent == [] && Enabled(b1, CountRoom(i, room))
      && var (b2, sent2) := Next(b1, CountRoom(i, room));
         && sent2 == [] && b2.tasks == map[Own(i) := Closing(None, {}, {}, Some(room))]
         && Here(b2.node, I.Room(room)) == {} && b2.node == b.node.(rooms := b2.node.rooms)
  {
    HereAfter(b, CleanRoom(i, room), I.Room(room));
    var b1 := Next(b, CleanRoom(i, room)).0;
    assert b1.tasks[Own(i)] == Closing(None, {}, {room}, None) && b1.tasks.Keys == {Own(i)};
    assert Next(b1, CountRoom(i, room)).0.tasks == map[Own(i) := Closing(None, {}, {}, Some(room))];
  }

  /** `i` has left the registry and the room and has read a count of zero; the room is still advertised. */
  lemma AboutToWithdraw(a: Busy, s0: seq<Step>, b0: Busy, edges: seq<I.Edge>, room: Name, i: u64, j: u64)
    returns (steps: seq<Step>, b: Busy)
    requires Run(a, s0, b0, edges) && Settled(b0, room, i, j)
    ensures Run(a, steps, b, edges) && b.tasks == map[Own(i) := Closing(None, {}, {}, Some(room))]
    ensures Here(b.node, I.Room(room)) == {} && Hosts(b.node, I.Room(room))
    ensures j in b.node.entries && b.node.entries[j] == {}
  {
    var s1, s2, s3 := Remove(i), CleanRoom(i, room), CountRoom(i, room);
    RemoveStep(b0, room, i, j);
    RunSnoc(a, s0, b0, edges, s1);
    var b1 := Next(b0, s1).0;
    CleanAndCount(b1, room, i);
    assert edges + [] == edges;
    RunSnoc(a, s0 + [s1], b1, edges, s2);
    var b2 := Next(b1, s2).0;
    RunSnoc(a, s0 + [s1] + [s2], b2, edges, s3);
    steps, b := s0 + [s1] + [s2] + [s3], Next(b2, s3).0;
  }

  /** The withdrawal goes out whoever is in the room. */
  lemma WithdrawAnyway(b: Busy, room: Name, i: u64)
    requires b.tasks == map[Own(i) := Closing(None, {}, {}, Some(room))]
    ensures Enabled(b, SetRoom(i))
    ensures var b1 := Next(b, SetRoom(i)).0;
      && Enabled(b1, Unbind(i)) && Next(b1, Unbind(i)).1 == []
      && var b2 := Next(b1, Unbind(i)).0;
         && b2.tasks == map[] && b2.node == b.node.(interest := b2.node.interest) && !Hosts(b2.node, I.Room(room))
  {
    var b1 := Next(b, SetRoom(i)).0;
    HostsAfter(b, SetRoom(i), I.Room(room));
    assert b1.tasks[Own(i)] == Closing(None, {}, {}, None) && b1.tasks.Keys == {Own(i)};
    assert Next(b1, Unbind(i)).0.tasks == map[];
  }

  /**
   * A disconnect empties a room and reads a count of zero; before it withdraws, another connection joins and finds the
   * room advertised; then the withdrawal goes out. No verb is in flight any more, the room has a member and the node
   * does not advertise it.
   */
  lemma JoinedRoomUnadvertised(self: I.NodeId, routing: I.Routing, room: Name, h: Handle, i: u64, j: u64)
    returns (steps: seq<Step>, b: Busy, edges: seq<I.Edge>)
    requires i != j
    ensures Run(Fresh(self, routing), steps, b, edges) && b.tasks == map[]
    ensures Here(b.node, I.Room(room)) == {j} && !Hosts(b.node, I.Room(room))
  {
    var a := Fresh(self, routing);
    var s0, b0, e0 := OneInRoom(self, routing, room, h, i, j);
    var s1, b1 := AboutToWithdraw(a, s0, b0, e0, room, i, j);
    var s2, b2, e2 := JoinEmptyRoom(a, s1, b1, e0, j, room);
    WithdrawAnyway(b2, room, i);
    RunSnoc(a, s2, b2, e2, SetRoom(i));
    var b3, e3 := Next(b2, SetRoom(i)).0, e2 + Next(b2, SetRoom(i)).1;
    RunSnoc(a, s2 + [SetRoom(i)], b3, e3, Unbind(i));
    steps, b, edges := s2 + [SetRoom(i)] + [Unbind(i)], Next(b3, Unbind(i)).0, e3 + [];
  }
}
