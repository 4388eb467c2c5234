/** What each room verb achieves, whatever other threads do meanwhile (crates/core/src/rooms.rs). */
module RoomVerbs {
  import opened RoomSteps

  // ── leave ──

  /** `id` is out of its entry, and out of the room unless `t` is about to take it out. */
  ghost predicate LeftBy(st: State, t: Thread, id: ConnId, room: Room)
  {
    && t in st.pcs && !InEntry(st, id, room)
    && (id in Members(st, room) ==> st.pcs[t] == Emptying(id, room, {}, true))
  }

  predicate Joins(step: Step, id: ConnId, room: Room)
  {
    step.JoinBegin? && step.id == id && step.room == room
  }

  lemma LeaveStarts(st: State, t: Thread, id: ConnId, room: Room)
    requires Enabled(st, LeaveBegin(t, id, room)) && InEntry(st, id, room)
    ensures LeftBy(Next(st, LeaveBegin(t, id, room)), t, id, room)
    ensures Next(st, LeaveBegin(t, id, room)).pcs[t] == Emptying(id, room, {}, true)
  {
  }

  lemma StepKeepsLeft(st: State, step: Step, t: Thread, id: ConnId, room: Room)
    requires Inv(st) && Enabled(st, step) && LeftBy(st, t, id, room) && !Joins(step, id, room)
    ensures LeftBy(Next(st, step), t, id, room)
  {
    assert OwnerOk(st, step.t);
  }

  lemma {:induction false} RunKeepsLeft(a: State, steps: seq<Step>, b: State, t: Thread, id: ConnId, room: Room)
    requires Inv(a) && Run(a, steps, b) && LeftBy(a, t, id, room)
    requires forall i | 0 <= i < |steps| :: !Joins(steps[i], id, room)
    ensures LeftBy(b, t, id, room)
    decreases |steps|
  {
    if steps != [] {
      StepKeepsInv(a, steps[0]);
      StepKeepsLeft(a, steps[0], t, id, room);
      RunKeepsLeft(Next(a, steps[0]), steps[1..], b, t, id, room);
    }
  }

  /**
   * A leave of a room held takes the connection out of both sides: out of its entry at once, and out of the room by the
   * time the verb is over, for good unless it is joined again.
   */
  lemma LeaveTakesOut(start: State, before: seq<Step>, a: State, t: Thread, id: ConnId, room: Room,
    after: seq<Step>, b: State)
    requires Init(start) && Run(start, before, a) && Enabled(a, LeaveBegin(t, id, room)) && InEntry(a, id, room)
    requires Run(Next(a, LeaveBegin(t, id, room)), after, b)
    requires forall i | 0 <= i < |after| :: !Joins(after[i], id, room)
    ensures t in b.pcs && !InEntry(b, id, room)
    ensures b.pcs[t] == Emptying(id, room, {}, true) || id !in Members(b, room)
  {
    InitInv(start);
    RunKeepsInv(start, before, a);
    LeaveStarts(a, t, id, room);
    StepKeepsInv(a, LeaveBegin(t, id, room));
    RunKeepsLeft(Next(a, LeaveBegin(t, id, room)), after, b, t, id, room);
  }

  // ── join ──

  /** `id` has the room in its entry, and is in the room unless `t` is about to put it there. */
  ghost predicate JoinedBy(st: State, t: Thread, id: ConnId, room: Room)
  {
    && t in st.pcs && InEntry(st, id, room)
    && (id !in Members(st, room) ==> st.pcs[t] == Joining(id, room))
  }

  predicate Leaves(step: Step, id: ConnId, room: Room)
  {
    || (step.LeaveBegin? && step.id == id && step.room == room)
    || (step.RemoveFull? && step.id == id)
  }

  lemma JoinStarts(st: State, t: Thread, id: ConnId, room: Room)
    requires Inv(st) && Enabled(st, JoinBegin(t, id, room))
    requires id in st.entries && room !in st.entries[id] && (st.maxRooms == 0 || |st.entries[id]| < st.maxRooms)
    ensures JoinedBy(Next(st, JoinBegin(t, id, room)), t, id, room)
  {
  }

  lemma StepKeepsJoined(st: State, step: Step, t: Thread, id: ConnId, room: Room)
    requires Inv(st) && Enabled(st, step) && JoinedBy(st, t, id, room) && !Leaves(step, id, room)
    ensures JoinedBy(Next(st, step), t, id, room)
  {
    assert OwnerOk(st, step.t) && BothSides(st, id, room);
    if step.Open? {
      assert CapOk(st);
    }
  }

  lemma {:induction false} RunKeepsJoined(a: State, steps: seq<Step>, b: State, t: Thread, id: ConnId, room: Room)
    requires Inv(a) && Run(a, steps, b) && JoinedBy(a, t, id, room)
    requires forall i | 0 <= i < |steps| :: !Leaves(steps[i], id, room)
    ensures JoinedBy(b, t, id, room)
    decreases |steps|
  {
    if steps != [] {
      StepKeepsInv(a, steps[0]);
      StepKeepsJoined(a, steps[0], t, id, room);
      RunKeepsJoined(Next(a, steps[0]), steps[1..], b, t, id, room);
    }
  }

  /**
   * A join of a room not held, below the cap, puts a live connection in on both sides: into its entry at once, and into
   * the room by the time the verb is over, until it leaves the room or the registry.
   */
  lemma JoinPutsIn(start: State, before: seq<Step>, a: State, t: Thread, id: ConnId, room: Room,
    after: seq<Step>, b: State)
    requires Init(start) && Run(start, before, a) && Enabled(a, JoinBegin(t, id, room))
    requires id in a.entries && room !in a.entries[id] && (a.maxRooms == 0 || |a.entries[id]| < a.maxRooms)
    requires Run(Next(a, JoinBegin(t, id, room)), after, b)
    requires forall i | 0 <= i < |after| :: !Leaves(after[i], id, room)
    ensures t in b.pcs && InEntry(b, id, room)
    ensures b.pcs[t] == Joining(id, room) || id in Members(b, room)
  {
    InitInv(start);
    RunKeepsInv(start, before, a);
    JoinStarts(a, t, id, room);
    StepKeepsInv(a, JoinBegin(t, id, room));
    RunKeepsJoined(Next(a, JoinBegin(t, id, room)), after, b, t, id, room);
  }

  /** Any other join, leave or removal changes nothing. */
  lemma OtherwiseNothing(st: State, t: Thread, id: ConnId, room: Room)
    requires t in st.pcs && st.pcs[t].Idle? && LockFree(st, id)
    ensures id !in st.entries || room in st.entries[id] || (st.maxRooms != 0 && |st.entries[id]| >= st.maxRooms) ==>
      Next(st, JoinBegin(t, id, room)) == st
    ensures !InEntry(st, id, room) ==> Next(st, LeaveBegin(t, id, room)) == st
    ensures id !in st.entries ==> Next(st, RemoveFull(t, id)) == st
  {
  }

  // ── disconnect ──

  /** `id` is out of the registry, and out of every room that `t` is not still to take it out of. */
  ghost predicate RemovedBy(st: State, t: Thread, id: ConnId)
  {
    && t in st.pcs && id !in st.entries && id in st.used
    && forall room :: id in Members(st, room) ==> WillRemove(st.pcs[t], id, room)
  }

  lemma RemoveStarts(st: State, t: Thread, id: ConnId)
    requires Inv(st) && Enabled(st, RemoveFull(t, id)) && id in st.entries
    ensures RemovedBy(Next(st, RemoveFull(t, id)), t, id)
  {
    var st' := Next(st, RemoveFull(t, id));
    assert CapOk(st);
    LockFreeMeansUnowned(st, id, t);
    forall room ensures id in Members(st', room) ==> WillRemove(st'.pcs[t], id, room) {
      assert BothSides(st, id, room);
      PendingOfOwner(st, t, id, room);
    }
  }

  lemma StepKeepsRemoved(st: State, step: Step, t: Thread, id: ConnId)
    requires Inv(st) && Enabled(st, step) && RemovedBy(st, t, id)
    ensures RemovedBy(Next(st, step), t, id)
  {
    var st' := Next(st, step);
    assert OwnerOk(st, step.t);
    forall room ensures id in Members(st', room) ==> WillRemove(st'.pcs[t], id, room) {
      assert id in Members(st, room) ==> WillRemove(st.pcs[t], id, room);
    }
  }

  lemma {:induction false} RunKeepsRemoved(a: State, steps: seq<Step>, b: State, t: Thread, id: ConnId)
    requires Inv(a) && Run(a, steps, b) && RemovedBy(a, t, id)
    ensures RemovedBy(b, t, id)
    decreases |steps|
  {
    if steps != [] {
      StepKeepsInv(a, steps[0]);
      StepKeepsRemoved(a, steps[0], t, id);
      RunKeepsRemoved(Next(a, steps[0]), steps[1..], b, t, id);
    }
  }

  /**
   * A disconnect takes a live connection out of the registry at once and out of every room by the time its cleanup is
   * over, for good.
   */
  lemma RemoveClearsEverywhere(start: State, before: seq<Step>, a: State, t: Thread, id: ConnId,
    after: seq<Step>, b: State)
    requires Init(start) && Run(start, before, a) && Enabled(a, RemoveFull(t, id)) && id in a.entries
    requires Run(Next(a, RemoveFull(t, id)), after, b)
    ensures t in b.pcs && id !in b.entries
    ensures (b.pcs[t].Idle? || b.pcs[t].id != id) ==> forall room :: id !in Members(b, room)
  {
    InitInv(start);
    RunKeepsInv(start, before, a);
    RemoveStarts(a, t, id);
    StepKeepsInv(a, RemoveFull(t, id));
    RunKeepsRemoved(Next(a, RemoveFull(t, id)), after, b, t, id);
  }

  // ── open ──

  /** A connection admitted is there, in no room, and stays until it is removed. */
  lemma {:induction false} OpenStays(a: State, steps: seq<Step>, b: State, id: ConnId)
    requires Run(a, steps, b) && id in a.entries
    requires forall i | 0 <= i < |steps| :: !(steps[i].RemoveFull? && steps[i].id == id)
    ensures id in b.entries
    decreases |steps|
  {
    if steps != [] {
      OpenStays(Next(a, steps[0]), steps[1..], b, id);
    }
  }

  lemma OpenAdmits(a: State, t: Thread, id: ConnId, steps: seq<Step>, b: State)
    requires Enabled(a, Open(t, id)) && Run(Next(a, Open(t, id)), steps, b)
    requires forall i | 0 <= i < |steps| :: !(steps[i].RemoveFull? && steps[i].id == id)
    ensures id !in a.used && Next(a, Open(t, id)).entries == a.entries[id := {}] && id in b.entries
  {
    OpenStays(Next(a, Open(t, id)), steps, b, id);
  }

  /** What a join reports: not found, already in, full, or changed, and only the last changes anything. */
  lemma JoinReports(st: State, t: Thread, id: ConnId, room: Room)
    requires Enabled(st, JoinBegin(t, id, room))
    ensures var outcome := JoinOutcome(st, id, room);
      && (outcome == NotFound <==> id !in st.entries)
      && (outcome == NoOp <==> InEntry(st, id, room))
      && (outcome == LimitExceeded <==>
            id in st.entries && room !in st.entries[id] && 0 < st.maxRooms <= |st.entries[id]|)
      && (outcome == Changed <==> !InEntry(st, id, room) && InEntry(Next(st, JoinBegin(t, id, room)), id, room))
  {
  }
}
