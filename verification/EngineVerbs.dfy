/** Verbs run without interruption: each comes to the one step that Engine gives it, and keeps its windows apart. */
module EngineVerbs {
  import opened Prelude
  import opened Wire
  import opened Fanout
  import opened Engine
  import opened EngineSteps
  import I = Interest

  const IDLE: map<Key, Task> := map[]

  // ── one task at a time ──

  /** Only `key`'s task, if any, is in flight, and every step is its own or an eviction. */
  ghost predicate Solo(a: Busy, steps: seq<Step>, key: Key)
  {
    a.tasks.Keys <= {key} && forall i | 0 <= i < |steps| :: KeyOf(steps[i]) == key || steps[i].Evict?
  }

  lemma SoloStep(b: Busy, step: Step, key: Key, t: I.Target)
    requires Enabled(b, step) && b.tasks.Keys <= {key} && (KeyOf(step) == key || step.Evict?)
    ensures OrderlyStep(b, step, t) && Next(b, step).0.tasks.Keys <= {key}
  {
    forall k | k in Next(b, step).0.tasks ensures k == key {
      if k != KeyOf(step) {
        OtherTasks(b, step, k);
      }
    }
  }

  lemma {:induction false} SoloIsOrderly(a: Busy, steps: seq<Step>, b: Busy, edges: seq<I.Edge>, key: Key, t: I.Target)
    requires Run(a, steps, b, edges) && Solo(a, steps, key)
    ensures OrderlyRun(a, steps, t)
    decreases |steps|
  {
    if steps != [] {
      var (next, sent) := Next(a, steps[0]);
      SoloStep(a, steps[0], key, t);
      SoloIsOrderly(next, steps[1..], b, edges[|sent|..], key, t);
    }
  }

  // ── the end of a task: count, then advertise ──

  /** A count and what follows it. */
  lemma CountThenSet(b: Busy, key: Key) returns (steps: seq<Step>, edges: seq<I.Edge>)
    requires key in b.tasks && (b.tasks[key].Arrived? || b.tasks[key].Left?)
    ensures var t, up := b.tasks[key].t, b.tasks[key].Arrived?;
      var changes := if up then |Here(b.node, t)| == 1 else Here(b.node, t) == {};
      var interest := if changes then Advertise(b.node.interest, t, up).0 else b.node.interest;
      && Run(b, steps, Busy(b.node.(interest := interest), b.tasks - {key}), edges)
      && edges == (if changes then Advertise(b.node.interest, t, up).1 else [])
    ensures forall i | 0 <= i < |steps| :: KeyOf(steps[i]) == key
  {
    var b1 := Next(b, Count(key)).0;
    assert Run(b, [], b, []);
    RunSnoc(b, [], b, [], Count(key));
    assert [] + [Count(key)] == [Count(key)];
    if key in b1.tasks {
      RunSnoc(b, [Count(key)], b1, [], Set(key));
      assert b1.tasks - {key} == b.tasks - {key};
      steps, edges := [Count(key)] + [Set(key)], [] + Next(b1, Set(key)).1;
    } else {
      steps, edges := [Count(key)], [];
    }
  }

  /** One step, then a count. */
  lemma StepThenCount(a: Busy, step: Step, key: Key) returns (steps: seq<Step>, b: Busy, edges: seq<I.Edge>)
    requires Enabled(a, step) && KeyOf(step) == key && Next(a, step).1 == []
    requires var b1 := Next(a, step).0; key in b1.tasks && (b1.tasks[key].Arrived? || b1.tasks[key].Left?)
    ensures var b1 := Next(a, step).0;
      var t, up := b1.tasks[key].t, b1.tasks[key].Arrived?;
      var changes := if up then |Here(b1.node, t)| == 1 else Here(b1.node, t) == {};
      var interest := if changes then Advertise(b1.node.interest, t, up).0 else b1.node.interest;
      && b == Busy(b1.node.(interest := interest), b1.tasks - {key})
      && edges == (if changes then Advertise(b1.node.interest, t, up).1 else [])
    ensures Run(a, steps, b, edges) && forall i | 0 <= i < |steps| :: KeyOf(steps[i]) == key
  {
    var b1 := Next(a, step).0;
    var rest;
    rest, edges := CountThenSet(b1, key);
    var t, up := b1.tasks[key].t, b1.tasks[key].Arrived?;
    var changes := if up then |Here(b1.node, t)| == 1 else Here(b1.node, t) == {};
    var interest := if changes then Advertise(b1.node.interest, t, up).0 else b1.node.interest;
    b := Busy(b1.node.(interest := interest), b1.tasks - {key});
    RunCons(a, step, rest, b, edges);
    assert [] + edges == edges;
    steps := [step] + rest;
  }

  // ── the verbs ──

  lemma AdmitIsRun(n: Node, id: u64, handle: Handle, user: Option<Name>) returns (steps: seq<Step>)
    requires id !in n.conns
    ensures var (n', edges) := ApplyAdmit(n, id, handle, user); Run(Busy(n, IDLE), steps, Busy(n', IDLE), edges)
    ensures forall i | 0 <= i < |steps| :: KeyOf(steps[i]) == Own(id)
  {
    var a, insert := Busy(n, IDLE), Insert(id, handle, user);
    var b := Next(a, insert).0;
    if user.None? {
      assert Run(a, [], a, []);
      RunSnoc(a, [], a, [], insert);
      assert [] + [insert] == [insert];
      steps := [insert];
    } else {
      var rest, end, edges := StepThenCount(b, Bind(id), Own(id));
      RunCons(a, insert, rest, end, edges);
      assert [] + edges == edges;
      assert end == Busy(ApplyAdmit(n, id, handle, user).0, IDLE);
      steps := [insert] + rest;
    }
  }

  lemma JoinIsRun(n: Node, id: u64, room: Name, maxRooms: nat) returns (steps: seq<Step>)
    ensures var (n', edges) := ApplyJoin(n, id, room, maxRooms); Run(Busy(n, IDLE), steps, Busy(n', IDLE), edges)
    ensures forall i | 0 <= i < |steps| :: KeyOf(steps[i]) == Call(0)
  {
    if Joins(n, id, room, maxRooms) {
      var end, edges;
      steps, end, edges := StepThenCount(Busy(n, IDLE), JoinRoom(0, id, room, maxRooms), Call(0));
      assert end == Busy(ApplyJoin(n, id, room, maxRooms).0, IDLE);
    } else {
      steps := [];
    }
  }

  lemma LeaveIsRun(n: Node, id: u64, room: Name) returns (steps: seq<Step>)
    ensures var (n', edges) := ApplyLeave(n, id, room); Run(Busy(n, IDLE), steps, Busy(n', IDLE), edges)
    ensures forall i | 0 <= i < |steps| :: KeyOf(steps[i]) == Call(0)
  {
    if id in n.entries && room in n.entries[id] {
      var end, edges;
      steps, end, edges := StepThenCount(Busy(n, IDLE), LeaveRoom(0, id, room), Call(0));
      assert end == Busy(ApplyLeave(n, id, room).0, IDLE);
    } else {
      steps := [];
    }
  }

  // ── disconnect ──

  function ClosingTask(id: u64, bound: Option<Name>, inside: set<Name>, left: set<Name>): map<Key, Task>
  {
    map[Own(id) := Closing(bound, inside, left, None)]
  }

  lemma FirstAndRest(rooms: seq<Name>, left: set<Name>)
    requires Distinct(rooms) && rooms != []
    ensures rooms[0] in Elements(rooms) && Elements(rooms) - {rooms[0]} == Elements(rooms[1..]) && Distinct(rooms[1..])
    ensures left + Elements(rooms) == left + {rooms[0]} + Elements(rooms[1..])
  {
    assert forall x :: x in rooms <==> x == rooms[0] || x in rooms[1..];
    assert rooms[0] !in rooms[1..];
  }

  lemma CleanOne(n: Node, id: u64, bound: Option<Name>, inside: set<Name>, left: set<Name>, room: Name)
    requires room in inside
    ensures var a, step := Busy(n, ClosingTask(id, bound, inside, left)), CleanRoom(id, room);
      && Enabled(a, step)
      && Next(a, step) == (Busy(n.(rooms := Drop(n.rooms, room, id)),
                                ClosingTask(id, bound, inside - {room}, left + {room})), [])
  {
    var a, step := Busy(n, ClosingTask(id, bound, inside, left)), CleanRoom(id, room);
    assert Next(a, step).0.tasks == ClosingTask(id, bound, inside - {room}, left + {room});
  }

  lemma {:induction false} CleanAll(n: Node, id: u64, bound: Option<Name>, rooms: seq<Name>, left: set<Name>)
    returns (steps: seq<Step>)
    requires Distinct(rooms)
    ensures Run(Busy(n, ClosingTask(id, bound, Elements(rooms), left)), steps,
                Busy(n.(rooms := DropAll(n.rooms, rooms, id)), ClosingTask(id, bound, {}, left + Elements(rooms))), [])
    ensures forall i | 0 <= i < |steps| :: KeyOf(steps[i]) == Own(id)
    decreases |rooms|
  {
    var a := Busy(n, ClosingTask(id, bound, Elements(rooms), left));
    if rooms == [] {
      assert left + Elements(rooms) == left && Elements(rooms) == {};
      steps := [];
    } else {
      var step := CleanRoom(id, rooms[0]);
      var n1, left1 := n.(rooms := Drop(n.rooms, rooms[0], id)), left + {rooms[0]};
      FirstAndRest(rooms, left);
      CleanOne(n, id, bound, Elements(rooms), left, rooms[0]);
      var rest := CleanAll(n1, id, bound, rooms[1..], left1);
      var end := Busy(n.(rooms := DropAll(n.rooms, rooms, id)), ClosingTask(id, bound, {}, left + Elements(rooms)));
      RunCons(a, step, rest, end, []);
      steps := [step] + rest;
    }
  }

  /** One room counted, and withdrawn if it is empty. */
  lemma CountOne(n: Node, id: u64, bound: Option<Name>, room: Name, left: set<Name>) returns (steps: seq<Step>)
    requires room in left
    ensures var (interest, edges) :=
        if At(n.rooms, room) == {} then Advertise(n.interest, I.Room(room), false) else (n.interest, []);
      Run(Busy(n, ClosingTask(id, bound, {}, left)), steps,
          Busy(n.(interest := interest), ClosingTask(id, bound, {}, left - {room})), edges)
    ensures forall i | 0 <= i < |steps| :: KeyOf(steps[i]) == Own(id)
  {
    var a, step := Busy(n, ClosingTask(id, bound, {}, left)), CountRoom(id, room);
    var empty := At(n.rooms, room) == {};
    var b := Busy(n, map[Own(id) := Closing(bound, {}, left - {room}, if empty then Some(room) else None)]);
    assert Next(a, step) == (b, []) by { assert Next(a, step).0.tasks == b.tasks; }
    if empty {
      var (interest, edges) := Advertise(n.interest, I.Room(room), false);
      var end := Busy(n.(interest := interest), ClosingTask(id, bound, {}, left - {room}));
      SetOne(n, id, bound, room, left - {room});
      TwoSteps(a, step, b, SetRoom(id), end, edges);
      steps := [step, SetRoom(id)];
    } else {
      OneStep(a, step, b);
      steps := [step];
    }
  }

  lemma SetOne(n: Node, id: u64, bound: Option<Name>, room: Name, left: set<Name>)
    ensures var b := Busy(n, map[Own(id) := Closing(bound, {}, left, Some(room))]);
      var (interest, edges) := Advertise(n.interest, I.Room(room), false);
      && Enabled(b, SetRoom(id))
      && Next(b, SetRoom(id)) == (Busy(n.(interest := interest), ClosingTask(id, bound, {}, left)), edges)
  {
    var b := Busy(n, map[Own(id) := Closing(bound, {}, left, Some(room))]);
    assert Next(b, SetRoom(id)).0.tasks == ClosingTask(id, bound, {}, left);
  }

  lemma OneStep(a: Busy, step: Step, b: Busy)
    requires Enabled(a, step) && Next(a, step) == (b, [])
    ensures Run(a, [step], b, [])
  {
    assert Run(b, [], b, []);
    RunCons(a, step, [], b, []);
    assert [step] + [] == [step];
  }

  lemma TwoSteps(a: Busy, first: Step, b: Busy, second: Step, c: Busy, edges: seq<I.Edge>)
    requires Enabled(a, first) && Next(a, first) == (b, []) && Enabled(b, second) && Next(b, second) == (c, edges)
    ensures Run(a, [first, second], c, edges)
  {
    OneStep(a, first, b);
    RunSnoc(a, [first], b, [], second);
    assert [first] + [second] == [first, second] && [] + edges == edges;
  }

  lemma {:induction false} CountAll(n: Node, id: u64, bound: Option<Name>, rooms: seq<Name>) returns (steps: seq<Step>)
    requires Distinct(rooms)
    ensures var (interest, edges) := WithdrawEmpty(n.interest, n.rooms, rooms);
      Run(Busy(n, ClosingTask(id, bound, {}, Elements(rooms))), steps,
          Busy(n.(interest := interest), ClosingTask(id, bound, {}, {})), edges)
    ensures forall i | 0 <= i < |steps| :: KeyOf(steps[i]) == Own(id)
    decreases |rooms|
  {
    var a := Busy(n, ClosingTask(id, bound, {}, Elements(rooms)));
    if rooms == [] {
      assert Elements(rooms) == {};
      steps := [];
    } else {
      var room, left := rooms[0], Elements(rooms);
      var (i1, e1) := if At(n.rooms, room) == {} then Advertise(n.interest, I.Room(room), false) else (n.interest, []);
      var n1 := n.(interest := i1);
      FirstAndRest(rooms, {});
      var one := CountOne(n, id, bound, room, left);
      var rest := CountAll(n1, id, bound, rooms[1..]);
      var (i2, e2) := WithdrawEmpty(i1, n.rooms, rooms[1..]);
      RunJoin(a, one, Busy(n1, ClosingTask(id, bound, {}, Elements(rooms[1..]))), e1, rest,
              Busy(n1.(interest := i2), ClosingTask(id, bound, {}, {})), e2);
      steps := one + rest;
    }
  }

  lemma UnbindIsRun(n: Node, id: u64, bound: Option<Name>) returns (steps: seq<Step>)
    ensures
      var users := if bound.Some? then Drop(n.users, bound.value, id) else n.users;
      var (interest, edges) := if bound.Some? && At(users, bound.value) == {}
        then Advertise(n.interest, I.User(bound.value), false) else (n.interest, []);
      Run(Busy(n, ClosingTask(id, bound, {}, {})), steps, Busy(n.(users := users, interest := interest), IDLE), edges)
    ensures forall i | 0 <= i < |steps| :: KeyOf(steps[i]) == Own(id)
  {
    var a, step := Busy(n, ClosingTask(id, bound, {}, {})), Unbind(id);
    if bound.None? {
      assert Run(a, [], a, []);
      RunSnoc(a, [], a, [], step);
      assert [] + [step] == [step];
      steps := [step];
      assert Next(a, step).0 == Busy(n, IDLE);
    } else {
      var end, edges;
      steps, end, edges := StepThenCount(a, step, Own(id));
      assert end.tasks == IDLE;
    }
  }

  lemma DisconnectIsRun(n: Node, id: u64, order: seq<Name>) returns (steps: seq<Step>)
    requires VerbOk(n, Disconnect(id, order)) && Distinct(order)
    ensures var (n', edges) := ApplyDisconnect(n, id, order); Run(Busy(n, IDLE), steps, Busy(n', IDLE), edges)
    ensures forall i | 0 <= i < |steps| :: KeyOf(steps[i]) == Own(id)
  {
    var (n', edges) := ApplyDisconnect(n, id, order);
    var bound := if id in n.owner then Some(n.owner[id]) else None;
    var n1 := Gone(n, id);
    var b1 := Busy(n1, ClosingTask(id, bound, Elements(order), {}));
    var rooms := RoomsAreRun(n1, id, bound, order);
    var (i3, e1) := WithdrawEmpty(n1.interest, DropAll(n1.rooms, order, id), order);
    var n3 := n1.(rooms := DropAll(n1.rooms, order, id), interest := i3);
    var out, e2 := LastSteps(n, id, order, n3);
    RunJoin(b1, rooms, Busy(n3, ClosingTask(id, bound, {}, {})), e1, out, Busy(n', IDLE), e2);
    RemoveFirst(n, id, order, rooms + out, Busy(n', IDLE), edges);
    steps := [Remove(id)] + (rooms + out);
  }

  /** The registry entry gone, the indexes still as they were. */
  function Gone(n: Node, id: u64): Node
  {
    n.(conns := n.conns - {id}, entries := n.entries - {id}, owner := n.owner - {id})
  }

  lemma RemoveFirst(n: Node, id: u64, order: seq<Name>, rest: seq<Step>, end: Busy, edges: seq<I.Edge>)
    requires VerbOk(n, Disconnect(id, order))
    requires var bound := if id in n.owner then Some(n.owner[id]) else None;
      Run(Busy(Gone(n, id), ClosingTask(id, bound, Elements(order), {})), rest, end, edges)
    ensures Run(Busy(n, IDLE), [Remove(id)] + rest, end, edges)
  {
    var a, bound := Busy(n, IDLE), if id in n.owner then Some(n.owner[id]) else None;
    assert Next(a, Remove(id)).0.tasks == ClosingTask(id, bound, Elements(order), {});
    RunCons(a, Remove(id), rest, end, edges);
    assert [] + edges == edges;
  }

  /** Unbind, count and withdraw: the rest of Engine's disconnect. */
  lemma LastSteps(n: Node, id: u64, order: seq<Name>, n3: Node) returns (steps: seq<Step>, e2: seq<I.Edge>)
    requires
      var rooms := DropAll(n.rooms, order, id);
      n3 == Gone(n, id).(rooms := rooms, interest := WithdrawEmpty(n.interest, rooms, order).0)
    ensures
      var bound := if id in n.owner then Some(n.owner[id]) else None;
      && Run(Busy(n3, ClosingTask(id, bound, {}, {})), steps, Busy(ApplyDisconnect(n, id, order).0, IDLE), e2)
      && ApplyDisconnect(n, id, order).1 == WithdrawEmpty(n.interest, DropAll(n.rooms, order, id), order).1 + e2
    ensures forall i | 0 <= i < |steps| :: KeyOf(steps[i]) == Own(id)
  {
    var bound := if id in n.owner then Some(n.owner[id]) else None;
    var users := if bound.Some? then Drop(n3.users, bound.value, id) else n3.users;
    e2 := if bound.Some? && At(users, bound.value) == {} then Advertise(n3.interest, I.User(bound.value), false).1
      else [];
    DisconnectEnds(n, id, order, n3);
    steps := UnbindIsRun(n3, id, bound);
  }

  /** Out of every room, then every room counted. */
  lemma RoomsAreRun(n: Node, id: u64, bound: Option<Name>, order: seq<Name>) returns (steps: seq<Step>)
    requires Distinct(order)
    ensures var rooms := DropAll(n.rooms, order, id);
      var (interest, edges) := WithdrawEmpty(n.interest, rooms, order);
      Run(Busy(n, ClosingTask(id, bound, Elements(order), {})), steps,
          Busy(n.(rooms := rooms, interest := interest), ClosingTask(id, bound, {}, {})), edges)
    ensures forall i | 0 <= i < |steps| :: KeyOf(steps[i]) == Own(id)
  {
    var a := Busy(n, ClosingTask(id, bound, Elements(order), {}));
    var clean := CleanAll(n, id, bound, order, {});
    var n2 := n.(rooms := DropAll(n.rooms, order, id));
    assert {} + Elements(order) == Elements(order);
    var count := CountAll(n2, id, bound, order);
    var (interest, edges) := WithdrawEmpty(n2.interest, n2.rooms, order);
    var b, c := Busy(n2, ClosingTask(id, bound, {}, Elements(order))), ClosingTask(id, bound, {}, {});
    RunJoin(a, clean, b, [], count, Busy(n2.(interest := interest), c), edges);
    assert [] + edges == edges;
    steps := clean + count;
  }

  /** Engine's disconnect, from where the rooms are done. */
  lemma DisconnectEnds(n: Node, id: u64, order: seq<Name>, n3: Node)
    requires
      var rooms := DropAll(n.rooms, order, id);
      n3 == Gone(n, id).(rooms := rooms, interest := WithdrawEmpty(n.interest, rooms, order).0)
    ensures
      var bound := if id in n.owner then Some(n.owner[id]) else None;
      var users := if bound.Some? then Drop(n3.users, bound.value, id) else n3.users;
      var (interest, e2) := if bound.Some? && At(users, bound.value) == {}
        then Advertise(n3.interest, I.User(bound.value), false) else (n3.interest, []);
      ApplyDisconnect(n, id, order) ==
        (n3.(users := users, interest := interest),
         WithdrawEmpty(n.interest, DropAll(n.rooms, order, id), order).1 + e2)
  {
    var e1 := WithdrawEmpty(n.interest, DropAll(n.rooms, order, id), order).1;
    assert e1 + [] == e1;
  }

  // ── closing a room ──

  lemma {:induction false} CloseRoomIsRun(n: Node, room: Name) returns (steps: seq<Step>)
    requires (forall id :: RoomSide(n, room, id)) && (room in n.rooms ==> n.rooms[room] != {})
    ensures Run(Busy(n, IDLE), steps, Busy(ApplyCloseRoom(n, room), IDLE), [])
    ensures forall i | 0 <= i < |steps| :: steps[i].Evict?
    decreases At(n.rooms, room)
  {
    var a := Busy(n, IDLE);
    if At(n.rooms, room) == {} {
      steps := [];
      assert ApplyCloseRoom(n, room) == n by {
        forall id | id in n.entries ensures n.entries[id] - {room} == n.entries[id] {
          assert RoomSide(n, room, id);
        }
        assert n.rooms - {room} == n.rooms;
      }
    } else {
      var id :| id in At(n.rooms, room);
      assert RoomSide(n, room, id);
      var n1 := OutOf(n, id, room);
      EvictOne(n, id, room);
      var rest := CloseRoomIsRun(n1, room);
      RunCons(a, Evict(id, room), rest, Busy(ApplyCloseRoom(n1, room), IDLE), []);
      steps := [Evict(id, room)] + rest;
    }
  }

  lemma EvictOne(n: Node, id: u64, room: Name)
    requires id in n.entries && id in At(n.rooms, room) && forall i :: RoomSide(n, room, i)
    ensures var n1 := OutOf(n, id, room);
      && (forall i :: RoomSide(n1, room, i)) && (room in n1.rooms ==> n1.rooms[room] != {})
      && At(n1.rooms, room) == At(n.rooms, room) - {id} && ApplyCloseRoom(n1, room) == ApplyCloseRoom(n, room)
  {
    var n1 := OutOf(n, id, room);
    forall i ensures RoomSide(n1, room, i) {
      assert RoomSide(n, room, i);
    }
    assert n1.rooms - {room} == n.rooms - {room};
    assert ApplyCloseRoom(n1, room).entries == ApplyCloseRoom(n, room).entries by {
      assert n1.entries.Keys == n.entries.Keys;
      assert n1.entries[id] - {room} == n.entries[id] - {room};
    }
  }

  /** Every verb, run without interruption from a quiet node, is its one step in Engine and keeps all windows apart. */
  lemma VerbIsRun(n: Node, verb: Verb) returns (steps: seq<Step>)
    requires IndexesOk(n) && VerbOk(n, verb) && (verb.Disconnect? ==> Distinct(verb.order))
    ensures Run(Busy(n, IDLE), steps, Busy(Apply(n, verb).0, IDLE), Apply(n, verb).1)
    ensures forall t :: OrderlyRun(Busy(n, IDLE), steps, t)
  {
    var key := Call(0);
    match verb {
      case Admit(id, handle, user) =>
        steps := AdmitIsRun(n, id, handle, user);
        key := Own(id);
      case Join(id, room, maxRooms) => steps := JoinIsRun(n, id, room, maxRooms);
      case Leave(id, room) => steps := LeaveIsRun(n, id, room);
      case Disconnect(id, order) =>
        steps := DisconnectIsRun(n, id, order);
        key := Own(id);
      case CloseRoom(room) => steps := CloseRoomIsRun(n, room);
    }
    forall t ensures OrderlyRun(Busy(n, IDLE), steps, t) {
      SoloIsOrderly(Busy(n, IDLE), steps, Busy(Apply(n, verb).0, IDLE), Apply(n, verb).1, key, t);
    }
  }
}
