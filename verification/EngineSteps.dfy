/**
 * The engine verbs as they interleave (crates/core/src/engine.rs). A verb is a task of several steps: it changes an
 * index, reads the count, and advertises or withdraws, each under its own lock, and any other task may run in between.
 */
module EngineSteps {
  import opened Prelude
  import opened Wire
  import opened Fanout
  import opened Engine
  import I = Interest

  /** A connection's own task runs its admission and later its disconnect; joins and leaves are calls from outside. */
  datatype Key = Own(id: u64) | Call(k: nat)

  /**
   * What is left of a verb. An arrival or departure of `t` has changed the index and has yet to read the count, or has
   * read it and is about to advertise or withdraw. A closing connection is still `inside` some rooms, has `left` others
   * without counting yet, and may have found one `empty`.
   */
  datatype Task =
    | Binding(user: Name)
    | Arrived(t: I.Target)
    | Announcing(t: I.Target)
    | Left(t: I.Target)
    | Withdrawing(t: I.Target)
    | Closing(bound: Option<Name>, inside: set<Name>, left: set<Name>, empty: Option<Name>)

  datatype Busy = Busy(node: Node, tasks: map<Key, Task>)

  datatype Step =
    | Insert(id: u64, handle: Handle, user: Option<Name>)
    | Bind(id: u64)
    | JoinRoom(k: nat, id: u64, room: Name, maxRooms: nat)
    | LeaveRoom(k: nat, id: u64, room: Name)
    | Evict(id: u64, room: Name)
    | Remove(id: u64)
    | CleanRoom(id: u64, room: Name)
    | CountRoom(id: u64, room: Name)
    | SetRoom(id: u64)
    | Unbind(id: u64)
    | Count(key: Key)
    | Set(key: Key)

  /** Who is in a room, or which devices a user has. */
  function Here(n: Node, t: I.Target): set<u64>
  {
    match t
    case Room(name) => At(n.rooms, name)
    case User(name) => At(n.users, name)
  }

  predicate Hosts(n: Node, t: I.Target)
  {
    n.interest.local.Hosts(t)
  }

  /** The connection is closing. */
  predicate IsClosing(b: Busy, id: u64)
  {
    Own(id) in b.tasks && b.tasks[Own(id)].Closing?
  }

  predicate Enabled(b: Busy, step: Step)
  {
    match step
    case Insert(id, _, _) => id !in b.node.conns && Own(id) !in b.tasks
    case Bind(id) => Own(id) in b.tasks && b.tasks[Own(id)].Binding?
    case JoinRoom(k, id, room, maxRooms) => Call(k) !in b.tasks && Joins(b.node, id, room, maxRooms)
    case LeaveRoom(k, id, room) => Call(k) !in b.tasks && id in b.node.entries && room in b.node.entries[id]
    case Evict(id, room) => id in b.node.entries && room in b.node.entries[id]
    case Remove(id) => id in b.node.conns && id in b.node.entries && Own(id) !in b.tasks
    case CleanRoom(id, room) =>
      IsClosing(b, id) && var task := b.tasks[Own(id)]; task.empty.None? && room in task.inside
    case CountRoom(id, room) =>
      IsClosing(b, id) && var task := b.tasks[Own(id)]; task.inside == {} && task.empty.None? && room in task.left
    case SetRoom(id) => IsClosing(b, id) && b.tasks[Own(id)].empty.Some?
    case Unbind(id) =>
      IsClosing(b, id) && var task := b.tasks[Own(id)]; task.inside == {} && task.left == {} && task.empty.None?
    case Count(key) => key in b.tasks && (b.tasks[key].Arrived? || b.tasks[key].Left?)
    case Set(key) => key in b.tasks && (b.tasks[key].Announcing? || b.tasks[key].Withdrawing?)
  }

  function WithTask(b: Busy, key: Key, task: Task): Busy
  {
    b.(tasks := b.tasks[key := task])
  }

  function Ended(b: Busy, key: Key): Busy
  {
    b.(tasks := b.tasks - {key})
  }

  /** Out of one room, on both sides. */
  function OutOf(n: Node, id: u64, room: Name): Node
    requires id in n.entries
  {
    n.(entries := n.entries[id := n.entries[id] - {room}], rooms := Drop(n.rooms, room, id))
  }

  /** After reading the count: go on to the advertisement only at one member in, none out. */
  function Counted(b: Busy, key: Key): Busy
    requires key in b.tasks && (b.tasks[key].Arrived? || b.tasks[key].Left?)
  {
    var t := b.tasks[key].t;
    if b.tasks[key].Arrived? then
      if |Here(b.node, t)| == 1 then WithTask(b, key, Announcing(t)) else Ended(b, key)
    else
      if Here(b.node, t) == {} then WithTask(b, key, Withdrawing(t)) else Ended(b, key)
  }

  /** The advertisement a step makes or withdraws, if it does. */
  function Sets(b: Busy, step: Step): Option<(I.Target, bool)>
    requires Enabled(b, step)
  {
    match step
    case SetRoom(id) => Some((I.Room(b.tasks[Own(id)].empty.value), false))
    case Set(key) => Some((b.tasks[key].t, b.tasks[key].Announcing?))
    case _ => None
  }

  /** What a step does apart from the advertisement. */
  function Moves(b: Busy, step: Step): Busy
    requires Enabled(b, step)
  {
    var n := b.node;
    match step
    case Insert(id, handle, user) =>
      var n' := n.(conns := n.conns[id := handle], entries := n.entries[id := {}]);
      if user.None? then b.(node := n'.(owner := n.owner - {id}))
      else WithTask(b.(node := n'.(owner := n.owner[id := user.value])), Own(id), Binding(user.value))
    case Bind(id) =>
      var user := b.tasks[Own(id)].user;
      WithTask(b.(node := n.(users := Put(n.users, user, id))), Own(id), Arrived(I.User(user)))
    case JoinRoom(k, id, room, _) =>
      var n' := n.(entries := n.entries[id := n.entries[id] + {room}], rooms := Put(n.rooms, room, id));
      WithTask(b.(node := n'), Call(k), Arrived(I.Room(room)))
    case LeaveRoom(k, id, room) => WithTask(b.(node := OutOf(n, id, room)), Call(k), Left(I.Room(room)))
    case Evict(id, room) => b.(node := OutOf(n, id, room))
    case Remove(id) =>
      var user := if id in n.owner then Some(n.owner[id]) else None;
      var n' := n.(conns := n.conns - {id}, entries := n.entries - {id}, owner := n.owner - {id});
      WithTask(b.(node := n'), Own(id), Closing(user, n.entries[id], {}, None))
    case CleanRoom(id, room) =>
      var task := b.tasks[Own(id)];
      WithTask(b.(node := n.(rooms := Drop(n.rooms, room, id))), Own(id),
               task.(inside := task.inside - {room}, left := task.left + {room}))
    case CountRoom(id, room) =>
      var task := b.tasks[Own(id)];
      WithTask(b, Own(id),
               task.(left := task.left - {room}, empty := if At(n.rooms, room) == {} then Some(room) else None))
    case SetRoom(id) => WithTask(b, Own(id), b.tasks[Own(id)].(empty := None))
    case Unbind(id) =>
      var user := b.tasks[Own(id)].bound;
      if user.None? then Ended(b, Own(id))
      else WithTask(b.(node := n.(users := Drop(n.users, user.value, id))), Own(id), Left(I.User(user.value)))
    case Count(key) => Counted(b, key)
    case Set(key) => Ended(b, key)
  }

  /** The next state, and the edge sent to the mesh if the advertisement changed. */
  function Next(b: Busy, step: Step): (Busy, seq<I.Edge>)
    requires Enabled(b, step)
  {
    var b' := Moves(b, step);
    match Sets(b, step)
    case None => (b', [])
    case Some((t, hosting)) =>
      var (interest, edges) := Advertise(b.node.interest, t, hosting);
      (b'.(node := b'.node.(interest := interest)), edges)
  }

  // ── windows ──

  predicate IsArrival(task: Task, t: I.Target)
  {
    task == Arrived(t) || task == Announcing(t)
  }

  predicate IsWithdrawal(task: Task, t: I.Target)
  {
    task == Withdrawing(t) || (task.Closing? && t.Room? && task.empty == Some(t.name))
  }

  predicate IsDeparture(task: Task, t: I.Target)
  {
    task == Left(t) || (task.Closing? && t.Room? && t.name in task.left) || IsWithdrawal(task, t)
  }

  /** An arrival at `t` other than `key`'s is between its index change and its last step. */
  predicate ArrivingBut(b: Busy, t: I.Target, key: Option<Key>)
  {
    exists k | k in b.tasks :: Some(k) != key && IsArrival(b.tasks[k], t)
  }

  predicate Arriving(b: Busy, t: I.Target)
  {
    ArrivingBut(b, t, None)
  }

  predicate Departing(b: Busy, t: I.Target)
  {
    exists k | k in b.tasks :: IsDeparture(b.tasks[k], t)
  }

  /** The step opens an arrival's window on `t`. */
  predicate ArrivesAt(b: Busy, step: Step, t: I.Target)
    requires Enabled(b, step)
  {
    match step
    case Bind(id) => t == I.User(b.tasks[Own(id)].user)
    case JoinRoom(_, _, room, _) => t == I.Room(room)
    case _ => false
  }

  /** The step opens a departure's window on `t`. */
  predicate DepartsFrom(b: Busy, step: Step, t: I.Target)
    requires Enabled(b, step)
  {
    match step
    case LeaveRoom(_, _, room) => t == I.Room(room)
    case CleanRoom(_, room) => t == I.Room(room)
    case Unbind(id) => b.tasks[Own(id)].bound.Some? && t == I.User(b.tasks[Own(id)].bound.value)
    case _ => false
  }

  // ── when an advertisement is lost ──

  /**
   * The two ways to lose `t`: the last arrival in flight reads a count above one though nobody has advertised, or a
   * withdrawal goes out though somebody is back and no arrival is in flight to repair it.
   */
  predicate Loses(b: Busy, step: Step, t: I.Target)
    requires Enabled(b, step)
  {
    || (step.Count? && b.tasks[step.key] == Arrived(t) && |Here(b.node, t)| > 1 && !Hosts(b.node, t) &&
        !ArrivingBut(b, t, Some(step.key)))
    || (Sets(b, step) == Some((t, false)) && Here(b.node, t) != {} && !Arriving(b, t))
  }

  /**
   * The two ways to leave `t` advertised without members: the last arrival announces though everybody has left and no
   * departure is in flight, or a room is closed under its last member.
   */
  predicate Overstays(b: Busy, step: Step, t: I.Target)
    requires Enabled(b, step)
  {
    || (Sets(b, step) == Some((t, true)) && Here(b.node, t) == {} && !Departing(b, t))
    || (step.Evict? && t == I.Room(step.room) && Here(b.node, t) == {step.id} && Hosts(b.node, t) && !Departing(b, t))
  }

  predicate LostAfter(b: Busy, step: Step, t: I.Target, lost: bool)
    requires Enabled(b, step)
  {
    if ArrivesAt(b, step, t) then false else Loses(b, step, t) || lost
  }

  predicate OverAfter(b: Busy, step: Step, t: I.Target, over: bool)
    requires Enabled(b, step)
  {
    if DepartsFrom(b, step, t) then false else Overstays(b, step, t) || over
  }

  /** What a loss since the last arrival, and an overstay since the last departure, say about `t`. */
  ghost predicate Tracks(b: Busy, t: I.Target, lost: bool, over: bool)
  {
    && (if lost then !Hosts(b.node, t) && !Arriving(b, t)
        else Here(b.node, t) != {} && !Hosts(b.node, t) ==> Arriving(b, t))
    && (if over then Hosts(b.node, t) && !Departing(b, t)
        else Here(b.node, t) == {} && Hosts(b.node, t) ==> Departing(b, t))
  }

  // ── what one step does to one name ──

  /** Whose step it is. */
  function KeyOf(step: Step): Key
  {
    match step
    case JoinRoom(k, _, _, _) => Call(k)
    case LeaveRoom(k, _, _) => Call(k)
    case Count(key) => key
    case Set(key) => key
    case _ => Own(step.id)
  }

  lemma OtherTasks(b: Busy, step: Step, k: Key)
    requires Enabled(b, step) && k != KeyOf(step)
    ensures var b' := Next(b, step).0; (k in b'.tasks <==> k in b.tasks) && (k in b.tasks ==> b'.tasks[k] == b.tasks[k])
  {
  }

  lemma HostsAfter(b: Busy, step: Step, t: I.Target)
    requires Enabled(b, step)
    ensures Hosts(Next(b, step).0.node, t) ==
      if Sets(b, step).Some? && Sets(b, step).value.0 == t then Sets(b, step).value.1 else Hosts(b.node, t)
  {
  }

  lemma AtPut(index: map<Name, set<u64>>, key: Name, id: u64, k: Name)
    ensures At(Put(index, key, id), k) == if k == key then At(index, k) + {id} else At(index, k)
  {
  }

  lemma AtDrop(index: map<Name, set<u64>>, key: Name, id: u64, k: Name)
    ensures At(Drop(index, key, id), k) == if k == key then At(index, k) - {id} else At(index, k)
  {
  }

  lemma RoomsAfter(b: Busy, step: Step)
    requires Enabled(b, step)
    ensures Next(b, step).0.node.rooms ==
      match step
      case JoinRoom(_, id, room, _) => Put(b.node.rooms, room, id)
      case LeaveRoom(_, id, room) => Drop(b.node.rooms, room, id)
      case Evict(id, room) => Drop(b.node.rooms, room, id)
      case CleanRoom(id, room) => Drop(b.node.rooms, room, id)
      case _ => b.node.rooms
  {
  }

  lemma UsersAfter(b: Busy, step: Step)
    requires Enabled(b, step)
    ensures Next(b, step).0.node.users ==
      match step
      case Bind(id) => Put(b.node.users, b.tasks[Own(id)].user, id)
      case Unbind(id) =>
        var user := b.tasks[Own(id)].bound;
        if user.Some? then Drop(b.node.users, user.value, id) else b.node.users
      case _ => b.node.users
  {
  }

  /** Arrivals add the newcomer; departures and evictions take one out; nothing else moves anyone. */
  lemma HereAfter(b: Busy, step: Step, t: I.Target)
    requires Enabled(b, step)
    ensures var here, here' := Here(b.node, t), Here(Next(b, step).0.node, t);
      if ArrivesAt(b, step, t) then here' == here + {step.id}
      else if DepartsFrom(b, step, t) || (step.Evict? && t == I.Room(step.room)) then here' == here - {step.id}
      else here' == here
  {
    RoomsAfter(b, step);
    UsersAfter(b, step);
    match step
    case Bind(id) => AtPut(b.node.users, b.tasks[Own(id)].user, id, t.name);
    case Unbind(id) =>
      if b.tasks[Own(id)].bound.Some? {
        AtDrop(b.node.users, b.tasks[Own(id)].bound.value, id, t.name);
      }
    case JoinRoom(_, id, room, _) => AtPut(b.node.rooms, room, id, t.name);
    case LeaveRoom(_, id, room) => AtDrop(b.node.rooms, room, id, t.name);
    case Evict(id, room) => AtDrop(b.node.rooms, room, id, t.name);
    case CleanRoom(id, room) => AtDrop(b.node.rooms, room, id, t.name);
    case _ =>
  }

  /** The step is the one that ends its task's arrival at `t`. */
  predicate EndsArrival(b: Busy, step: Step, t: I.Target)
    requires Enabled(b, step)
  {
    || (step.Count? && b.tasks[step.key] == Arrived(t) && |Here(b.node, t)| != 1)
    || Sets(b, step) == Some((t, true))
  }

  /** The step is the one that ends its task's departure from `t`. */
  predicate EndsDeparture(b: Busy, step: Step, t: I.Target)
    requires Enabled(b, step)
  {
    || (step.Count? && b.tasks[step.key] == Left(t) && Here(b.node, t) != {})
    || (step.CountRoom? && t == I.Room(step.room) && Here(b.node, t) != {})
    || Sets(b, step) == Some((t, false))
  }

  predicate ArrivalIn(b: Busy, key: Key, t: I.Target)
  {
    key in b.tasks && IsArrival(b.tasks[key], t)
  }

  predicate DepartureIn(b: Busy, key: Key, t: I.Target)
  {
    key in b.tasks && IsDeparture(b.tasks[key], t)
  }

  lemma OwnArrival(b: Busy, step: Step, t: I.Target)
    requires Enabled(b, step)
    ensures ArrivalIn(Next(b, step).0, KeyOf(step), t) <==>
      ArrivesAt(b, step, t) || (ArrivalIn(b, KeyOf(step), t) && !EndsArrival(b, step, t))
  {
  }

  /** A room found empty has been counted. */
  ghost predicate TasksOk(b: Busy)
  {
    forall k | k in b.tasks && b.tasks[k].Closing? && b.tasks[k].empty.Some? ::
      b.tasks[k].empty.value !in b.tasks[k].left
  }

  lemma StepKeepsTasksOk(b: Busy, step: Step)
    requires TasksOk(b) && Enabled(b, step)
    ensures TasksOk(Next(b, step).0)
  {
    forall k | k in Next(b, step).0.tasks && k != KeyOf(step)
      ensures k in b.tasks && Next(b, step).0.tasks[k] == b.tasks[k]
    {
      OtherTasks(b, step, k);
    }
  }

  lemma OwnDeparture(b: Busy, step: Step, t: I.Target)
    requires Enabled(b, step) && TasksOk(b)
    ensures DepartureIn(Next(b, step).0, KeyOf(step), t) <==>
      DepartsFrom(b, step, t) || (DepartureIn(b, KeyOf(step), t) && !EndsDeparture(b, step, t))
  {
    if step.CleanRoom? || step.CountRoom? || step.SetRoom? || step.Unbind? {
      ClosingDeparture(b, step, t);
    } else if step.Count? || step.Set? {
      CountingDeparture(b, step, t);
    } else {
      OpeningDeparture(b, step, t);
    }
  }

  lemma CountingDeparture(b: Busy, step: Step, t: I.Target)
    requires Enabled(b, step) && (step.Count? || step.Set?)
    ensures DepartureIn(Next(b, step).0, step.key, t) <==>
      DepartureIn(b, step.key, t) && !EndsDeparture(b, step, t)
  {
  }

  lemma OpeningDeparture(b: Busy, step: Step, t: I.Target)
    requires Enabled(b, step)
    requires step.Insert? || step.Bind? || step.JoinRoom? || step.LeaveRoom? || step.Evict? || step.Remove?
    ensures DepartureIn(Next(b, step).0, KeyOf(step), t) <==> DepartsFrom(b, step, t) || DepartureIn(b, KeyOf(step), t)
  {
  }

  lemma ClosingDeparture(b: Busy, step: Step, t: I.Target)
    requires Enabled(b, step) && TasksOk(b) && (step.CleanRoom? || step.CountRoom? || step.SetRoom? || step.Unbind?)
    ensures DepartureIn(Next(b, step).0, Own(step.id), t) <==>
      DepartsFrom(b, step, t) || (DepartureIn(b, Own(step.id), t) && !EndsDeparture(b, step, t))
  {
    var task := b.tasks[Own(step.id)];
    assert task.empty.Some? ==> task.empty.value !in task.left;
  }

  /** How the arrivals in flight change. */
  lemma ArrivingAfter(b: Busy, step: Step, t: I.Target)
    requires Enabled(b, step)
    ensures Arriving(Next(b, step).0, t) <==>
      ArrivesAt(b, step, t) || ArrivingBut(b, t, Some(KeyOf(step)))
      || (ArrivalIn(b, KeyOf(step), t) && !EndsArrival(b, step, t))
  {
    var b', key := Next(b, step).0, KeyOf(step);
    OwnArrival(b, step, t);
    if k :| k in b'.tasks && k != key && IsArrival(b'.tasks[k], t) {
      OtherTasks(b, step, k);
    }
    if k :| k in b.tasks && k != key && IsArrival(b.tasks[k], t) {
      OtherTasks(b, step, k);
      assert k in b'.tasks && IsArrival(b'.tasks[k], t);
    }
    assert ArrivalIn(b', key, t) ==> Arriving(b', t);
  }

  predicate DepartingBut(b: Busy, t: I.Target, key: Key)
  {
    exists k | k in b.tasks :: k != key && IsDeparture(b.tasks[k], t)
  }

  /** And the departures. */
  lemma DepartingAfter(b: Busy, step: Step, t: I.Target)
    requires Enabled(b, step) && TasksOk(b)
    ensures Departing(Next(b, step).0, t) <==>
      DepartsFrom(b, step, t) || DepartingBut(b, t, KeyOf(step))
      || (DepartureIn(b, KeyOf(step), t) && !EndsDeparture(b, step, t))
  {
    var b', key := Next(b, step).0, KeyOf(step);
    OwnDeparture(b, step, t);
    if k :| k in b'.tasks && k != key && IsDeparture(b'.tasks[k], t) {
      OtherTasks(b, step, k);
    }
    if k :| k in b.tasks && k != key && IsDeparture(b.tasks[k], t) {
      OtherTasks(b, step, k);
      assert k in b'.tasks && IsDeparture(b'.tasks[k], t);
    }
    assert DepartureIn(b', key, t) ==> Departing(b', t);
  }

  lemma ArrivingSplit(b: Busy, t: I.Target, key: Key)
    ensures Arriving(b, t) <==> ArrivalIn(b, key, t) || ArrivingBut(b, t, Some(key))
  {
    assert ArrivalIn(b, key, t) ==> Arriving(b, t);
  }

  lemma DepartingSplit(b: Busy, t: I.Target, key: Key)
    ensures Departing(b, t) <==> DepartureIn(b, key, t) || DepartingBut(b, t, key)
  {
    assert DepartureIn(b, key, t) ==> Departing(b, t);
  }

  lemma StepTracksLost(b: Busy, step: Step, t: I.Target, lost: bool, over: bool)
    requires Tracks(b, t, lost, over) && Enabled(b, step)
    ensures var b' := Next(b, step).0;
      if LostAfter(b, step, t, lost) then !Hosts(b'.node, t) && !Arriving(b', t)
      else Here(b'.node, t) != {} && !Hosts(b'.node, t) ==> Arriving(b', t)
  {
    HostsAfter(b, step, t);
    HereAfter(b, step, t);
    ArrivingAfter(b, step, t);
    ArrivingSplit(b, t, KeyOf(step));
  }

  lemma StepTracksOver(b: Busy, step: Step, t: I.Target, lost: bool, over: bool)
    requires Tracks(b, t, lost, over) && Enabled(b, step) && TasksOk(b)
    ensures var b' := Next(b, step).0;
      if OverAfter(b, step, t, over) then Hosts(b'.node, t) && !Departing(b', t)
      else Here(b'.node, t) == {} && Hosts(b'.node, t) ==> Departing(b', t)
  {
    HostsAfter(b, step, t);
    HereAfter(b, step, t);
    DepartingAfter(b, step, t);
    DepartingSplit(b, t, KeyOf(step));
  }

  /** Every step keeps the account of losses and overstays right. */
  lemma StepTracks(b: Busy, step: Step, t: I.Target, lost: bool, over: bool)
    requires Tracks(b, t, lost, over) && Enabled(b, step) && TasksOk(b)
    ensures Tracks(Next(b, step).0, t, LostAfter(b, step, t, lost), OverAfter(b, step, t, over))
  {
    StepTracksLost(b, step, t, lost, over);
    StepTracksOver(b, step, t, lost, over);
  }

  // ── windows kept apart ──

  /** An arrival starts with no window open on its name, a departure with no arrival in flight. */
  predicate OrderlyStep(b: Busy, step: Step, t: I.Target)
    requires Enabled(b, step)
  {
    && (ArrivesAt(b, step, t) ==> !Arriving(b, t) && !Departing(b, t))
    && (DepartsFrom(b, step, t) ==> !Arriving(b, t))
  }

  /** An arrival in flight is alone, and counts one unless the name is advertised already. */
  predicate ArrivalOk(b: Busy, t: I.Target, k: Key)
  {
    ArrivalIn(b, k, t) ==>
      && !ArrivingBut(b, t, Some(k)) && !Departing(b, t)
      && (b.tasks[k] == Arrived(t) ==> Hosts(b.node, t) || |Here(b.node, t)| <= 1)
  }

  /** Nobody comes back before a withdrawal is out. */
  predicate WithdrawalOk(b: Busy, t: I.Target, k: Key)
  {
    k in b.tasks && IsWithdrawal(b.tasks[k], t) ==> Here(b.node, t) == {}
  }

  ghost predicate Apart(b: Busy, t: I.Target)
  {
    && (forall k :: ArrivalOk(b, t, k) && WithdrawalOk(b, t, k))
    && (Here(b.node, t) != {} && !Hosts(b.node, t) ==> Arriving(b, t))
  }

  lemma ApartLosesNothing(b: Busy, step: Step, t: I.Target)
    requires Apart(b, t) && Enabled(b, step)
    ensures !Loses(b, step, t)
  {
    assert ArrivalOk(b, t, KeyOf(step)) && WithdrawalOk(b, t, KeyOf(step));
  }

  lemma AloneMeans(b: Busy, t: I.Target, k: Key)
    requires ArrivalIn(b, k, t) && ArrivalOk(b, t, k)
    ensures forall l | ArrivalIn(b, l, t) :: l == k
  {
  }

  /** The newcomer's own arrival. */
  lemma NewArrivalOk(b: Busy, step: Step, t: I.Target)
    requires Apart(b, t) && Enabled(b, step) && TasksOk(b) && ArrivesAt(b, step, t) && OrderlyStep(b, step, t)
    ensures ArrivalOk(Next(b, step).0, t, KeyOf(step))
    ensures forall k :: ArrivalIn(Next(b, step).0, k, t) ==> k == KeyOf(step)
  {
    var b' := Next(b, step).0;
    HostsAfter(b, step, t);
    HereAfter(b, step, t);
    DepartingAfter(b, step, t);
    DepartingSplit(b, t, KeyOf(step));
    forall k ensures ArrivalIn(b', k, t) ==> k == KeyOf(step) {
      if k != KeyOf(step) {
        OtherTasks(b, step, k);
        assert !ArrivalIn(b, k, t);
      }
    }
  }

  lemma StepKeepsArrivalOk(b: Busy, step: Step, t: I.Target, k: Key)
    requires Apart(b, t) && Enabled(b, step) && TasksOk(b) && OrderlyStep(b, step, t)
    ensures ArrivalOk(Next(b, step).0, t, k)
  {
    var b' := Next(b, step).0;
    if ArrivesAt(b, step, t) {
      NewArrivalOk(b, step, t);
    } else if ArrivalIn(b', k, t) {
      assert ArrivalIn(b, k, t) by {
        OwnArrival(b, step, t);
        if k != KeyOf(step) { OtherTasks(b, step, k); }
      }
      assert ArrivalOk(b, t, k) && Arriving(b, t);
      AloneMeans(b, t, k);
      forall l | l in b'.tasks && Some(l) != Some(k) ensures !IsArrival(b'.tasks[l], t) {
        OwnArrival(b, step, t);
        if l != KeyOf(step) { OtherTasks(b, step, l); }
        assert ArrivalIn(b', l, t) ==> ArrivalIn(b, l, t);
      }
      DepartingAfter(b, step, t);
      DepartingSplit(b, t, KeyOf(step));
      StepKeepsCount(b, step, t, k);
    }
  }

  /** While an arrival is in flight nobody else arrives, so its count can only fall. */
  lemma StepKeepsCount(b: Busy, step: Step, t: I.Target, k: Key)
    requires Enabled(b, step) && !ArrivesAt(b, step, t) && ArrivalIn(b, k, t) && ArrivalOk(b, t, k)
    requires ArrivalIn(Next(b, step).0, k, t)
    ensures var b' := Next(b, step).0; b'.tasks[k] == Arrived(t) ==> Hosts(b'.node, t) || |Here(b'.node, t)| <= 1
  {
    HostsAfter(b, step, t);
    HereAfter(b, step, t);
    SubsetCardinality(Here(Next(b, step).0.node, t), Here(b.node, t));
    if k != KeyOf(step) { OtherTasks(b, step, k); }
    assert Sets(b, step) == Some((t, false)) ==> DepartureIn(b, KeyOf(step), t);
  }

  lemma StepKeepsWithdrawalOk(b: Busy, step: Step, t: I.Target, k: Key)
    requires Apart(b, t) && Enabled(b, step) && OrderlyStep(b, step, t)
    ensures WithdrawalOk(Next(b, step).0, t, k)
  {
    var b' := Next(b, step).0;
    HereAfter(b, step, t);
    if k in b'.tasks && IsWithdrawal(b'.tasks[k], t) {
      assert WithdrawalOk(b, t, k);
      if k != KeyOf(step) {
        OtherTasks(b, step, k);
        assert DepartureIn(b, k, t) && Departing(b, t);
      }
    }
  }

  lemma StepKeepsApart(b: Busy, step: Step, t: I.Target)
    requires Apart(b, t) && Enabled(b, step) && TasksOk(b) && OrderlyStep(b, step, t)
    ensures Apart(Next(b, step).0, t)
  {
    forall k ensures ArrivalOk(Next(b, step).0, t, k) && WithdrawalOk(Next(b, step).0, t, k) {
      StepKeepsArrivalOk(b, step, t, k);
      StepKeepsWithdrawalOk(b, step, t, k);
    }
    ApartLosesNothing(b, step, t);
    HostsAfter(b, step, t);
    HereAfter(b, step, t);
    ArrivingAfter(b, step, t);
    ArrivingSplit(b, t, KeyOf(step));
  }

  // ── the indexes ──

  predicate IsBinding(b: Busy, id: u64)
  {
    Own(id) in b.tasks && b.tasks[Own(id)].Binding?
  }

  /** A room holds a connection that has it in its entry, or is closing and still to be cleaned out. */
  predicate RoomOk(b: Busy, r: Name, id: u64)
  {
    id in At(b.node.rooms, r) <==> InEntry(b, r, id) || Inside(b, r, id)
  }

  predicate InEntry(b: Busy, r: Name, id: u64)
  {
    id in b.node.entries && r in b.node.entries[id]
  }

  predicate Inside(b: Busy, r: Name, id: u64)
  {
    IsClosing(b, id) && r in b.tasks[Own(id)].inside
  }

  /** A user holds a device that belongs to them and is past its bind, or is closing and still bound. */
  predicate UserOk(b: Busy, u: Name, id: u64)
  {
    id in At(b.node.users, u) <==>
      || (id in b.node.owner && b.node.owner[id] == u && !IsBinding(b, id))
      || (IsClosing(b, id) && b.tasks[Own(id)].bound == Some(u))
  }

  predicate OwnOk(b: Busy, id: u64)
  {
    && (IsClosing(b, id) ==> id !in b.node.conns)
    && (IsBinding(b, id) ==> id in b.node.owner && b.node.owner[id] == b.tasks[Own(id)].user)
  }

  /** Both indexes mirror the entries up to the tasks in flight, and no empty room or user survives. */
  ghost predicate IndexesHold(b: Busy)
  {
    && TasksOk(b)
    && b.node.conns.Keys == b.node.entries.Keys && b.node.owner.Keys <= b.node.conns.Keys
    && NoneEmpty(b.node.rooms) && NoneEmpty(b.node.users)
    && (forall id :: OwnOk(b, id))
    && (forall r, id :: RoomOk(b, r, id))
    && (forall u, id :: UserOk(b, u, id))
  }

  lemma StepKeepsOwnOk(b: Busy, step: Step, id: u64)
    requires IndexesHold(b) && Enabled(b, step)
    ensures OwnOk(Next(b, step).0, id)
  {
    assert OwnOk(b, id);
    if Own(id) != KeyOf(step) {
      OtherTasks(b, step, Own(id));
    }
  }

  lemma StepKeepsRoomOk(b: Busy, step: Step, r: Name, id: u64)
    requires IndexesHold(b) && Enabled(b, step)
    ensures RoomOk(Next(b, step).0, r, id)
  {
    assert RoomOk(b, r, id) && OwnOk(b, id);
    HereAfter(b, step, I.Room(r));
    EntryAfter(b, step, r, id);
    InsideAfter(b, step, r, id);
  }

  lemma EntryAfter(b: Busy, step: Step, r: Name, id: u64)
    requires Enabled(b, step)
    ensures InEntry(Next(b, step).0, r, id) <==>
      match step
      case JoinRoom(_, i, room, _) => (i == id && room == r) || InEntry(b, r, id)
      case LeaveRoom(_, i, room) => !(i == id && room == r) && InEntry(b, r, id)
      case Evict(i, room) => !(i == id && room == r) && InEntry(b, r, id)
      case Insert(i, _, _) => i != id && InEntry(b, r, id)
      case Remove(i) => i != id && InEntry(b, r, id)
      case _ => InEntry(b, r, id)
  {
  }

  lemma InsideAfter(b: Busy, step: Step, r: Name, id: u64)
    requires Enabled(b, step)
    ensures Inside(Next(b, step).0, r, id) <==>
      match step
      case Remove(i) => if i == id then InEntry(b, r, id) else Inside(b, r, id)
      case CleanRoom(i, room) => !(i == id && room == r) && Inside(b, r, id)
      case _ => Inside(b, r, id)
  {
    if Own(id) != KeyOf(step) {
      OtherTasks(b, step, Own(id));
    }
  }

  lemma StepKeepsUserOk(b: Busy, step: Step, u: Name, id: u64)
    requires IndexesHold(b) && Enabled(b, step)
    ensures UserOk(Next(b, step).0, u, id)
  {
    assert UserOk(b, u, id) && OwnOk(b, id);
    if Own(id) != KeyOf(step) {
      OtherTasks(b, step, Own(id));
      OtherUsers(b, step, u, id);
    } else if step.Insert? || step.Remove? {
      UsersAfter(b, step);
    } else {
      HereAfter(b, step, I.User(u));
      KeysStay(b, step);
      OwnBinding(b, step);
    }
  }

  /** How a step moves its own task between binding, bound and unbound. */
  lemma OwnBinding(b: Busy, step: Step)
    requires Enabled(b, step) && KeyOf(step).Own? && !step.Insert? && !step.Remove?
    ensures var b', id := Next(b, step).0, KeyOf(step).id;
      && (IsBinding(b', id) <==> IsBinding(b, id) && !step.Bind?)
      && (IsClosing(b', id) <==> IsClosing(b, id) && !step.Unbind?)
      && (IsClosing(b', id) ==> b'.tasks[Own(id)].bound == b.tasks[Own(id)].bound)
  {
  }

  lemma OwnerAfter(b: Busy, step: Step, id: u64)
    requires Enabled(b, step) && Own(id) != KeyOf(step)
    ensures var n, n' := b.node, Next(b, step).0.node;
      (id in n'.owner <==> id in n.owner) && (id in n.owner ==> n'.owner[id] == n.owner[id])
  {
  }

  /** Only a connection's own task binds or unbinds it. */
  lemma OtherUsers(b: Busy, step: Step, u: Name, id: u64)
    requires Enabled(b, step) && Own(id) != KeyOf(step)
    ensures var n, n' := b.node, Next(b, step).0.node;
      && (id in At(n'.users, u) <==> id in At(n.users, u))
      && (id in n'.owner <==> id in n.owner) && (id in n.owner ==> n'.owner[id] == n.owner[id])
  {
    HereAfter(b, step, I.User(u));
    OwnerAfter(b, step, id);
  }

  lemma StepKeepsKeys(b: Busy, step: Step)
    requires IndexesHold(b) && Enabled(b, step)
    ensures var n := Next(b, step).0.node;
      && n.conns.Keys == n.entries.Keys && n.owner.Keys <= n.conns.Keys && NoneEmpty(n.rooms) && NoneEmpty(n.users)
  {
    StepKeepsNoneEmpty(b, step);
    ConnsAfter(b, step);
  }

  lemma ConnsAfter(b: Busy, step: Step)
    requires Enabled(b, step) && b.node.conns.Keys == b.node.entries.Keys && b.node.owner.Keys <= b.node.conns.Keys
    ensures var n := Next(b, step).0.node; n.conns.Keys == n.entries.Keys && n.owner.Keys <= n.conns.Keys
  {
    if !step.Insert? && !step.Remove? {
      KeysStay(b, step);
    }
  }

  lemma KeysStay(b: Busy, step: Step)
    requires Enabled(b, step) && !step.Insert? && !step.Remove?
    ensures var n, n' := b.node, Next(b, step).0.node;
      n'.conns == n.conns && n'.owner == n.owner && n'.entries.Keys == n.entries.Keys
  {
    if step.JoinRoom? || step.LeaveRoom? || step.Evict? {
      assert step.id in b.node.entries;
    }
  }

  lemma StepKeepsNoneEmpty(b: Busy, step: Step)
    requires Enabled(b, step) && NoneEmpty(b.node.rooms) && NoneEmpty(b.node.users)
    ensures NoneEmpty(Next(b, step).0.node.rooms) && NoneEmpty(Next(b, step).0.node.users)
  {
    RoomsAfter(b, step);
    UsersAfter(b, step);
    match step
    case Bind(id) => PutEffect(b.node.users, b.tasks[Own(id)].user, id);
    case Unbind(id) =>
      if b.tasks[Own(id)].bound.Some? {
        DropEffect(b.node.users, b.tasks[Own(id)].bound.value, id);
      }
    case JoinRoom(_, id, room, _) => PutEffect(b.node.rooms, room, id);
    case LeaveRoom(_, id, room) => DropEffect(b.node.rooms, room, id);
    case Evict(id, room) => DropEffect(b.node.rooms, room, id);
    case CleanRoom(id, room) => DropEffect(b.node.rooms, room, id);
    case _ =>
  }

  lemma StepKeepsIndexes(b: Busy, step: Step)
    requires IndexesHold(b) && Enabled(b, step)
    ensures IndexesHold(Next(b, step).0)
  {
    var b' := Next(b, step).0;
    StepKeepsTasksOk(b, step);
    StepKeepsKeys(b, step);
    forall id ensures OwnOk(b', id) {
      StepKeepsOwnOk(b, step, id);
    }
    forall r, id ensures RoomOk(b', r, id) {
      StepKeepsRoomOk(b, step, r, id);
    }
    forall u, id ensures UserOk(b', u, id) {
      StepKeepsUserOk(b, step, u, id);
    }
  }

  /** With no verb in flight the indexes mirror the entries exactly. */
  lemma QuietIndexes(b: Busy)
    requires IndexesHold(b) && b.tasks == map[]
    ensures IndexesOk(b.node)
  {
    forall r, id ensures RoomSide(b.node, r, id) && UserSide(b.node, r, id) {
      assert RoomOk(b, r, id) && UserOk(b, r, id);
    }
  }

  // ── runs of one node ──

  /** From `a` to `b` by `steps`, having sent `edges`. */
  ghost predicate Run(a: Busy, steps: seq<Step>, b: Busy, edges: seq<I.Edge>)
    decreases |steps|
  {
    if steps == [] then a == b && edges == []
    else
      && Enabled(a, steps[0])
      && var (next, sent) := Next(a, steps[0]);
         sent <= edges && Run(next, steps[1..], b, edges[|sent|..])
  }

  /** Every step of the run keeps windows on `t` apart. */
  ghost predicate OrderlyRun(a: Busy, steps: seq<Step>, t: I.Target)
    decreases |steps|
  {
    steps == [] ||
    (Enabled(a, steps[0]) && OrderlyStep(a, steps[0], t) && OrderlyRun(Next(a, steps[0]).0, steps[1..], t))
  }

  lemma RunCons(a: Busy, step: Step, steps: seq<Step>, b: Busy, edges: seq<I.Edge>)
    requires Enabled(a, step) && Run(Next(a, step).0, steps, b, edges)
    ensures Run(a, [step] + steps, b, Next(a, step).1 + edges)
  {
    var sent := Next(a, step).1;
    assert ([step] + steps)[1..] == steps && (sent + edges)[|sent|..] == edges;
  }

  lemma Reassemble<T>(head: seq<T>, whole: seq<T>, more: seq<T>)
    requires head <= whole
    ensures head + (whole[|head|..] + more) == whole + more
  {
  }

  lemma {:induction false} RunJoin(a: Busy, xs: seq<Step>, b: Busy, e1: seq<I.Edge>,
    ys: seq<Step>, c: Busy, e2: seq<I.Edge>)
    requires Run(a, xs, b, e1) && Run(b, ys, c, e2)
    ensures Run(a, xs + ys, c, e1 + e2)
    decreases |xs|
  {
    if xs == [] {
      assert xs + ys == ys && e1 + e2 == e2;
    } else {
      var (next, sent) := Next(a, xs[0]);
      RunJoin(next, xs[1..], b, e1[|sent|..], ys, c, e2);
      Reassemble([xs[0]], xs, ys);
      Reassemble(sent, e1, e2);
      RunCons(a, xs[0], xs[1..] + ys, c, e1[|sent|..] + e2);
    }
  }

  lemma RunSnoc(a: Busy, steps: seq<Step>, b: Busy, edges: seq<I.Edge>, step: Step)
    requires Run(a, steps, b, edges) && Enabled(b, step)
    ensures Run(a, steps + [step], Next(b, step).0, edges + Next(b, step).1)
  {
    var (next, sent) := Next(b, step);
    assert Run(next, [], next, []);
    RunCons(b, step, [], next, []);
    assert [step] + [] == [step] && sent + [] == sent;
    RunJoin(a, steps, b, edges, [step], next, sent);
  }

  // ── admission lasts ──

  /** `id` is connected through `handle`, as `user` or anonymously. */
  predicate Connected(b: Busy, id: u64, handle: Handle, user: Option<Name>)
  {
    && id in b.node.conns && b.node.conns[id] == handle
    && (if user.Some? then id in b.node.owner && b.node.owner[id] == user.value else id !in b.node.owner)
  }

  lemma StepKeepsConnected(b: Busy, step: Step, id: u64, handle: Handle, user: Option<Name>)
    requires Enabled(b, step) && Connected(b, id, handle, user) && step != Remove(id)
    ensures Connected(Next(b, step).0, id, handle, user)
  {
  }

  lemma {:induction false} RunKeepsConnected(a: Busy, steps: seq<Step>, b: Busy, edges: seq<I.Edge>,
    id: u64, handle: Handle, user: Option<Name>)
    requires Run(a, steps, b, edges) && Connected(a, id, handle, user) && Remove(id) !in steps
    ensures Connected(b, id, handle, user)
    decreases |steps|
  {
    if steps != [] {
      StepKeepsConnected(a, steps[0], id, handle, user);
      var (next, sent) := Next(a, steps[0]);
      RunKeepsConnected(next, steps[1..], b, edges[|sent|..], id, handle, user);
    }
  }

  /** An admitted connection keeps its handle and its user through every run until its own removal. */
  lemma AdmittedUntilRemoved(a: Busy, id: u64, handle: Handle, user: Option<Name>,
    steps: seq<Step>, b: Busy, edges: seq<I.Edge>)
    requires Enabled(a, Insert(id, handle, user)) && Remove(id) !in steps
    requires Run(Next(a, Insert(id, handle, user)).0, steps, b, edges)
    ensures Connected(b, id, handle, user)
  {
    RunKeepsConnected(Next(a, Insert(id, handle, user)).0, steps, b, edges, id, handle, user);
  }
}
