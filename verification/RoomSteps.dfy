/**
 * Room membership under concurrency (crates/core/src/rooms.rs, crates/core/src/connection/registry.rs).
 *
 * A step is one critical section: the connection's shard lock serialises the entry side, the room map is
 * touched one guarded access at a time, and any thread may run between two steps of another. The room guards
 * themselves are in RoomLocks.
 */
module RoomSteps {
  import opened Wire
  import opened ConnectionIds

  type ConnId = nat
  type Room = Name
  type Thread = nat

  /** Where a thread is inside a verb. `locked` says it still holds the shard lock of `id`. */
  datatype Pc =
    | Idle
    | Joining(id: ConnId, room: Room)
    | Cleaning(id: ConnId, rest: set<Room>)
    | Emptying(id: ConnId, room: Room, rest: set<Room>, locked: bool)
    | Destroying(id: ConnId, room: Room, rest: set<Room>, locked: bool)

  datatype State = State(
    entries: map<ConnId, set<Room>>,
    rooms: map<Room, set<ConnId>>,
    used: set<ConnId>,
    pcs: map<Thread, Pc>,
    maxRooms: nat)

  datatype Step =
    | Open(t: Thread, id: ConnId)
    | JoinBegin(t: Thread, id: ConnId, room: Room)
    | JoinCommit(t: Thread)
    | LeaveBegin(t: Thread, id: ConnId, room: Room)
    | RemoveFull(t: Thread, id: ConnId)
    | NextRoom(t: Thread, room: Room)
    | CleanupDone(t: Thread)
    | RemoveMember(t: Thread)
    | RemoveIfEmpty(t: Thread)

  predicate Holds(pc: Pc, shard: nat)
  {
    match pc
    case Joining(id, _) => ShardOf(id) == shard
    case Emptying(id, _, _, locked) => locked && ShardOf(id) == shard
    case Destroying(id, _, _, locked) => locked && ShardOf(id) == shard
    case _ => false
  }

  predicate LockFree(st: State, id: ConnId)
  {
    forall t | t in st.pcs :: !Holds(st.pcs[t], ShardOf(id))
  }

  predicate Enabled(st: State, step: Step)
  {
    && step.t in st.pcs
    && var pc := st.pcs[step.t];
       match step
       case Open(_, id) => pc.Idle? && LockFree(st, id) && id !in st.used
       case JoinBegin(_, id, _) => pc.Idle? && LockFree(st, id)
       case LeaveBegin(_, id, _) => pc.Idle? && LockFree(st, id)
       case RemoveFull(_, id) => pc.Idle? && LockFree(st, id)
       case JoinCommit(_) => pc.Joining?
       case NextRoom(_, room) => pc.Cleaning? && room in pc.rest
       case CleanupDone(_) => pc.Cleaning? && pc.rest == {}
       case RemoveMember(_) => pc.Emptying?
       case RemoveIfEmpty(_) => pc.Destroying?
  }

  datatype MembershipChange = Changed | NoOp | NotFound | LimitExceeded

  function JoinOutcome(st: State, id: ConnId, room: Room): MembershipChange
  {
    if id !in st.entries then NotFound
    else if room in st.entries[id] then NoOp
    else if st.maxRooms != 0 && |st.entries[id]| >= st.maxRooms then LimitExceeded
    else Changed
  }

  function Members(st: State, room: Room): set<ConnId>
  {
    if room in st.rooms then st.rooms[room] else {}
  }

  /** After one room is dealt with: a leave is over, a cleanup goes on to the next room. */
  function Resume(id: ConnId, rest: set<Room>, locked: bool): Pc
  {
    if locked then Idle else Cleaning(id, rest)
  }

  function Next(st: State, step: Step): State
    requires Enabled(st, step)
  {
    var pc := st.pcs[step.t];
    match step
    case Open(_, id) => st.(entries := st.entries[id := {}], used := st.used + {id})
    case JoinBegin(t, id, room) =>
      if JoinOutcome(st, id, room) != Changed then st
      else st.(entries := st.entries[id := st.entries[id] + {room}], pcs := st.pcs[t := Joining(id, room)])
    case JoinCommit(t) =>
      st.(rooms := st.rooms[pc.room := Members(st, pc.room) + {pc.id}], pcs := st.pcs[t := Idle])
    case LeaveBegin(t, id, room) =>
      if id !in st.entries || room !in st.entries[id] then st
      else st.(entries := st.entries[id := st.entries[id] - {room}], pcs := st.pcs[t := Emptying(id, room, {}, true)])
    case RemoveFull(t, id) =>
      if id !in st.entries then st
      else st.(entries := st.entries - {id}, pcs := st.pcs[t := Cleaning(id, st.entries[id])])
    case NextRoom(t, room) => st.(pcs := st.pcs[t := Emptying(pc.id, room, pc.rest - {room}, false)])
    case CleanupDone(t) => st.(pcs := st.pcs[t := Idle])
    case RemoveMember(t) =>
      if pc.room !in st.rooms then st.(pcs := st.pcs[t := Resume(pc.id, pc.rest, pc.locked)])
      else
        var members := st.rooms[pc.room] - {pc.id};
        st.(rooms := st.rooms[pc.room := members],
            pcs := st.pcs[t :=
              if members == {} then Destroying(pc.id, pc.room, pc.rest, pc.locked)
              else Resume(pc.id, pc.rest, pc.locked)])
    case RemoveIfEmpty(t) =>
      st.(rooms := if pc.room in st.rooms && st.rooms[pc.room] == {} then st.rooms - {pc.room} else st.rooms,
          pcs := st.pcs[t := Resume(pc.id, pc.rest, pc.locked)])
  }

  ghost predicate Run(a: State, steps: seq<Step>, b: State)
    decreases |steps|
  {
    if steps == [] then a == b else Enabled(a, steps[0]) && Run(Next(a, steps[0]), steps[1..], b)
  }

  ghost predicate Init(st: State)
  {
    st.entries == map[] && st.rooms == map[] && st.used == {} && forall t | t in st.pcs :: st.pcs[t].Idle?
  }

  // ── the invariant ──

  /** The connection a thread is working on is its own: no other thread works on it. */
  ghost predicate SoleOwner(st: State, t: Thread)
    requires t in st.pcs
  {
    var pc := st.pcs[t];
    !pc.Idle? ==> pc.id in st.used && forall u | u in st.pcs && u != t && !st.pcs[u].Idle? :: st.pcs[u].id != pc.id
  }

  /** The connection is where the thread's next step needs it. */
  ghost predicate Placed(st: State, t: Thread)
    requires t in st.pcs
  {
    var pc := st.pcs[t];
    && (pc.Joining? ==> pc.id in st.entries && pc.room in st.entries[pc.id])
    && (pc.Cleaning? ==> pc.id !in st.entries)
    && (pc.Emptying? ==>
          pc.room !in pc.rest &&
          if pc.locked then pc.rest == {} && pc.id in st.entries && pc.room !in st.entries[pc.id]
          else pc.id !in st.entries)
    && (pc.Destroying? ==> if pc.locked then pc.rest == {} && pc.id in st.entries else pc.id !in st.entries)
  }

  ghost predicate OwnerOk(st: State, t: Thread)
    requires t in st.pcs
  {
    SoleOwner(st, t) && Placed(st, t)
  }

  /** At most one thread holds each shard lock. */
  ghost predicate MutualExclusion(st: State)
  {
    forall t, u, shard | t in st.pcs && u in st.pcs && Holds(st.pcs[t], shard) && Holds(st.pcs[u], shard) :: t == u
  }

  /** A join of `id` to `room` has written the entry but not yet the room. */
  predicate JoinPending(st: State, id: ConnId, room: Room)
  {
    exists t | t in st.pcs :: st.pcs[t] == Joining(id, room)
  }

  predicate WillRemove(pc: Pc, id: ConnId, room: Room)
  {
    match pc
    case Cleaning(i, rest) => i == id && room in rest
    case Emptying(i, r, rest, _) => i == id && (r == room || room in rest)
    case Destroying(i, _, rest, _) => i == id && room in rest
    case _ => false
  }

  predicate RemovalPending(st: State, id: ConnId, room: Room)
  {
    exists t | t in st.pcs :: WillRemove(st.pcs[t], id, room)
  }

  predicate InEntry(st: State, id: ConnId, room: Room)
  {
    id in st.entries && room in st.entries[id]
  }

  /** The two sides of one membership agree up to what is pending. */
  ghost predicate BothSides(st: State, id: ConnId, room: Room)
  {
    id in Members(st, room) <==> (InEntry(st, id, room) && !JoinPending(st, id, room)) || RemovalPending(st, id, room)
  }

  /** An empty room is about to be destroyed by whoever emptied it. */
  ghost predicate EmptyOk(st: State, room: Room)
  {
    room in st.rooms && st.rooms[room] == {} ==>
      exists t | t in st.pcs :: st.pcs[t].Destroying? && st.pcs[t].room == room
  }

  ghost predicate CapOk(st: State)
  {
    forall id | id in st.entries :: id in st.used && (st.maxRooms != 0 ==> |st.entries[id]| <= st.maxRooms)
  }

  ghost predicate Inv(st: State)
  {
    && (forall t | t in st.pcs :: OwnerOk(st, t))
    && MutualExclusion(st)
    && (forall id, room :: BothSides(st, id, room))
    && (forall room :: EmptyOk(st, room))
    && CapOk(st)
  }

  lemma StepKeepsSoleOwner(st: State, step: Step, t: Thread)
    requires Inv(st) && Enabled(st, step) && t in st.pcs
    ensures SoleOwner(Next(st, step), t)
  {
    assert OwnerOk(st, t) && OwnerOk(st, step.t);
    if st.pcs[step.t].Idle? {
      var id := Subject(st, step);
      if id in st.entries {
        LockFreeMeansUnowned(st, id, step.t);
      }
    }
  }

  lemma StepKeepsPlaced(st: State, step: Step, t: Thread)
    requires Inv(st) && Enabled(st, step) && t in st.pcs
    ensures Placed(Next(st, step), t)
  {
    assert OwnerOk(st, t) && OwnerOk(st, step.t);
    if st.pcs[step.t].Idle? {
      var id := Subject(st, step);
      if id in st.entries {
        LockFreeMeansUnowned(st, id, step.t);
      }
    }
  }

  lemma StepKeepsExclusion(st: State, step: Step)
    requires Inv(st) && Enabled(st, step)
    ensures MutualExclusion(Next(st, step))
  {
    assert OwnerOk(st, step.t);
  }

  lemma StepKeepsCap(st: State, step: Step)
    requires Inv(st) && Enabled(st, step)
    ensures CapOk(Next(st, step))
  {
    assert OwnerOk(st, step.t);
  }

  lemma StepKeepsEmpty(st: State, step: Step, room: Room)
    requires Inv(st) && Enabled(st, step)
    ensures EmptyOk(Next(st, step), room)
  {
    var st', pc := Next(st, step), st.pcs[step.t];
    if room in st'.rooms && st'.rooms[room] == {} {
      if step.RemoveMember? && pc.room == room {
        assert st'.pcs[step.t].Destroying?;
      } else {
        assert EmptyOk(st, room);
        var u :| u in st.pcs && st.pcs[u].Destroying? && st.pcs[u].room == room;
        assert u != step.t;
        assert st'.pcs[u] == st.pcs[u];
      }
    }
  }

  // ── one membership at a time ──

  predicate About(pc: Pc, id: ConnId)
  {
    !pc.Idle? && pc.id == id
  }

  /** No thread but `t` is working on `id`. */
  ghost predicate OnlyOwner(st: State, t: Thread, id: ConnId)
  {
    forall u | u in st.pcs && u != t :: !About(st.pcs[u], id)
  }

  /** With the shard lock free, nobody is working on a live connection. */
  lemma LockFreeMeansUnowned(st: State, id: ConnId, t: Thread)
    requires Inv(st) && LockFree(st, id) && id in st.entries
    ensures OnlyOwner(st, t, id)
  {
    forall u | u in st.pcs ensures !About(st.pcs[u], id) {
      assert OwnerOk(st, u) && !Holds(st.pcs[u], ShardOf(id));
    }
  }

  lemma PendingOfOwner(st: State, t: Thread, id: ConnId, room: Room)
    requires t in st.pcs && OnlyOwner(st, t, id)
    ensures JoinPending(st, id, room) <==> st.pcs[t] == Joining(id, room)
    ensures RemovalPending(st, id, room) <==> WillRemove(st.pcs[t], id, room)
  {
    assert forall u | u in st.pcs && u != t :: st.pcs[u] != Joining(id, room) && !WillRemove(st.pcs[u], id, room);
  }

  lemma PendingUnrelated(st: State, st': State, t: Thread, id: ConnId, room: Room)
    requires t in st.pcs && t in st'.pcs && st'.pcs == st.pcs[t := st'.pcs[t]]
    requires !About(st.pcs[t], id) && !About(st'.pcs[t], id)
    ensures JoinPending(st', id, room) <==> JoinPending(st, id, room)
    ensures RemovalPending(st', id, room) <==> RemovalPending(st, id, room)
  {
    assert forall u | u in st.pcs && u != t :: st'.pcs[u] == st.pcs[u];
  }

  /** The connection a step is about. */
  function Subject(st: State, step: Step): ConnId
    requires step.t in st.pcs && Enabled(st, step)
  {
    match step
    case Open(_, id) => id
    case JoinBegin(_, id, _) => id
    case LeaveBegin(_, id, _) => id
    case RemoveFull(_, id) => id
    case _ => st.pcs[step.t].id
  }

  /** A step moves only its own subject in or out of a set. */
  lemma OthersUntouched(st: State, step: Step, id: ConnId, room: Room)
    requires Enabled(st, step) && id != Subject(st, step)
    ensures id in Members(Next(st, step), room) <==> id in Members(st, room)
    ensures InEntry(Next(st, step), id, room) <==> InEntry(st, id, room)
  {
  }

  lemma OthersPending(st: State, step: Step, id: ConnId, room: Room)
    requires Enabled(st, step) && id != Subject(st, step)
    ensures JoinPending(Next(st, step), id, room) <==> JoinPending(st, id, room)
    ensures RemovalPending(Next(st, step), id, room) <==> RemovalPending(st, id, room)
  {
    PendingUnrelated(st, Next(st, step), step.t, id, room);
  }

  lemma OthersKeepBothSides(st: State, step: Step, id: ConnId, room: Room)
    requires Inv(st) && Enabled(st, step) && id != Subject(st, step)
    ensures BothSides(Next(st, step), id, room)
  {
    assert BothSides(st, id, room);
    OthersUntouched(st, step, id, room);
    OthersPending(st, step, id, room);
  }

  lemma BeginKeepsBothSides(st: State, step: Step, room: Room)
    requires Inv(st) && Enabled(st, step) && st.pcs[step.t].Idle?
    ensures BothSides(Next(st, step), Subject(st, step), room)
  {
    var id, st' := Subject(st, step), Next(st, step);
    assert BothSides(st, id, room);
    if step.Open? {
      forall u | u in st.pcs ensures !About(st.pcs[u], id) {
        assert OwnerOk(st, u);
      }
      PendingUnrelated(st, st', step.t, id, room);
    } else if id in st.entries {
      LockFreeMeansUnowned(st, id, step.t);
      assert OnlyOwner(st', step.t, id);
      PendingOfOwner(st, step.t, id, room);
      PendingOfOwner(st', step.t, id, room);
    }
  }

  lemma RestKeepsBothSides(st: State, step: Step, room: Room)
    requires Inv(st) && Enabled(st, step) && !st.pcs[step.t].Idle?
    ensures BothSides(Next(st, step), Subject(st, step), room)
  {
    var id, st' := Subject(st, step), Next(st, step);
    assert BothSides(st, id, room) && OwnerOk(st, step.t);
    assert OnlyOwner(st, step.t, id) && OnlyOwner(st', step.t, id);
    PendingOfOwner(st, step.t, id, room);
    PendingOfOwner(st', step.t, id, room);
  }

  lemma StepKeepsInv(st: State, step: Step)
    requires Inv(st) && Enabled(st, step)
    ensures Inv(Next(st, step))
  {
    var st' := Next(st, step);
    forall t | t in st'.pcs ensures OwnerOk(st', t) {
      StepKeepsSoleOwner(st, step, t);
      StepKeepsPlaced(st, step, t);
    }
    StepKeepsExclusion(st, step);
    StepKeepsCap(st, step);
    forall room ensures EmptyOk(st', room) {
      StepKeepsEmpty(st, step, room);
    }
    forall id, room ensures BothSides(st', id, room) {
      if id != Subject(st, step) {
        OthersKeepBothSides(st, step, id, room);
      } else if st.pcs[step.t].Idle? {
        BeginKeepsBothSides(st, step, room);
      } else {
        RestKeepsBothSides(st, step, room);
      }
    }
  }

  lemma {:induction false} RunKeepsInv(a: State, steps: seq<Step>, b: State)
    requires Inv(a) && Run(a, steps, b)
    ensures Inv(b)
    decreases |steps|
  {
    if steps != [] {
      StepKeepsInv(a, steps[0]);
      RunKeepsInv(Next(a, steps[0]), steps[1..], b);
    }
  }

  lemma InitInv(st: State)
    requires Init(st)
    ensures Inv(st)
  {
  }

  /**
   * After every interleaving of joins, leaves, disconnects and cleanups: a connection is in a room's set exactly
   * when the room is in its entry and its join has reached the room, or its removal is still pending; an empty
   * room exists only while its remover is between emptying it and `remove_if`; and no entry passes the cap.
   */
  lemma InterleavingSafe(a: State, steps: seq<Step>, b: State)
    requires Init(a) && Run(a, steps, b)
    ensures forall id, room :: id in Members(b, room) <==>
      (InEntry(b, id, room) && !JoinPending(b, id, room)) || RemovalPending(b, id, room)
    ensures forall room | room in b.rooms && b.rooms[room] == {} ::
      exists t :: t in b.pcs && b.pcs[t].Destroying? && b.pcs[t].room == room
    ensures forall id | id in b.entries && b.maxRooms != 0 :: |b.entries[id]| <= b.maxRooms
    ensures MutualExclusion(b)
  {
    InitInv(a);
    RunKeepsInv(a, steps, b);
    forall id, room
      ensures id in Members(b, room) <==>
        (InEntry(b, id, room) && !JoinPending(b, id, room)) || RemovalPending(b, id, room)
    {
      assert BothSides(b, id, room);
    }
    forall room | room in b.rooms && b.rooms[room] == {}
      ensures exists t :: t in b.pcs && b.pcs[t].Destroying? && b.pcs[t].room == room
    {
      assert EmptyOk(b, room);
    }
  }

  /** Once every verb has finished, both sides agree exactly and no empty room survives. */
  lemma QuiescentExact(a: State, steps: seq<Step>, b: State)
    requires Init(a) && Run(a, steps, b) && forall t | t in b.pcs :: b.pcs[t].Idle?
    ensures forall room | room in b.rooms :: b.rooms[room] != {}
    ensures forall id, room :: id in Members(b, room) <==> InEntry(b, id, room)
  {
    InitInv(a);
    RunKeepsInv(a, steps, b);
    forall room | room in b.rooms ensures b.rooms[room] != {} {
      assert EmptyOk(b, room);
    }
    forall id, room ensures id in Members(b, room) <==> InEntry(b, id, room) {
      assert BothSides(b, id, room);
    }
  }
}
