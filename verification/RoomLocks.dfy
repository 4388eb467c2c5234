/**
 * The two kinds of lock under room membership: connection shards and room-map guards (crates/core/src/rooms.rs).
 *
 * On top of RoomSteps, a touch of the room map first takes the guard of the room's bucket and gives it back with the
 * touch; fan-out readers copy a member list under a guard, give it back, and then visit one shard at a time. Guards
 * and shards have a single holder here; shared read guards block less.
 */
module RoomLocks {
  import opened Prelude
  import opened ConnectionIds
  import R = RoomSteps

  type Thread = R.Thread
  type Reader = nat

  /** Where a reader is. */
  datatype Mode =
    | Resting
    | Wanting(room: R.Room)
    | Copying(room: R.Room)
    | Visiting(ids: seq<R.ConnId>)
    | InShard(id: R.ConnId, rest: seq<R.ConnId>)

  /** `guards` says which bucket a thread has locked; a reader's locks follow from its mode. */
  datatype State = State(
    base: R.State,
    guards: map<Thread, nat>,
    readers: map<Reader, Mode>,
    bucket: R.Room -> nat)

  /** Whoever can hold or want a lock. */
  datatype Party = Writer(t: Thread) | Fan(r: Reader)

  datatype Step =
    | Plain(step: R.Step)
    | Guard(t: Thread)
    | Touch(t: Thread)
    | Ask(r: Reader, room: R.Room)
    | GuardRead(r: Reader)
    | CopyOut(r: Reader, ids: seq<R.ConnId>)
    | LockShard(r: Reader)
    | UnlockShard(r: Reader)
    | Finish(r: Reader)

  // ── who holds and who wants what ──

  /** The thread is about to touch the room map. */
  predicate Touching(pc: R.Pc)
  {
    pc.Joining? || pc.Emptying? || pc.Destroying?
  }

  predicate HoldsGuard(s: State, p: Party, bucket: nat)
  {
    match p
    case Writer(t) => t in s.guards && s.guards[t] == bucket
    case Fan(r) => r in s.readers && s.readers[r].Copying? && s.bucket(s.readers[r].room) == bucket
  }

  predicate HoldsShard(s: State, p: Party, shard: nat)
  {
    match p
    case Writer(t) => t in s.base.pcs && R.Holds(s.base.pcs[t], shard)
    case Fan(r) => r in s.readers && s.readers[r].InShard? && ShardOf(s.readers[r].id) == shard
  }

  function GuardWanted(s: State, p: Party): Option<nat>
  {
    match p
    case Writer(t) =>
      if t in s.base.pcs && Touching(s.base.pcs[t]) && t !in s.guards then Some(s.bucket(s.base.pcs[t].room)) else None
    case Fan(r) =>
      if r in s.readers && s.readers[r].Wanting? then Some(s.bucket(s.readers[r].room)) else None
  }

  function ShardWanted(s: State, p: Party): Option<nat>
  {
    if p.Fan? && p.r in s.readers && s.readers[p.r].Visiting? && s.readers[p.r].ids != []
    then Some(ShardOf(s.readers[p.r].ids[0]))
    else None
  }

  ghost predicate GuardFree(s: State, bucket: nat)
  {
    forall p: Party :: !HoldsGuard(s, p, bucket)
  }

  ghost predicate ShardFree(s: State, shard: nat)
  {
    forall p: Party :: !HoldsShard(s, p, shard)
  }

  /** A party in the middle of something. */
  predicate Busy(s: State, p: Party)
  {
    match p
    case Writer(t) => t in s.base.pcs && !s.base.pcs[t].Idle?
    case Fan(r) => r in s.readers && !s.readers[r].Resting?
  }

  // ── steps ──

  /** The shard a membership step runs under, if it takes one. */
  function ShardTaken(step: R.Step): Option<nat>
  {
    match step
    case Open(_, id) => Some(ShardOf(id))
    case JoinBegin(_, id, _) => Some(ShardOf(id))
    case LeaveBegin(_, id, _) => Some(ShardOf(id))
    case RemoveFull(_, id) => Some(ShardOf(id))
    case _ => None
  }

  predicate TouchesMap(step: R.Step)
  {
    step.JoinCommit? || step.RemoveMember? || step.RemoveIfEmpty?
  }

  function TouchOf(t: Thread, pc: R.Pc): R.Step
  {
    if pc.Joining? then R.JoinCommit(t) else if pc.Emptying? then R.RemoveMember(t) else R.RemoveIfEmpty(t)
  }

  ghost predicate Enabled(s: State, step: Step)
  {
    match step
    case Plain(b) =>
      R.Enabled(s.base, b) && !TouchesMap(b) && (ShardTaken(b).Some? ==> ShardFree(s, ShardTaken(b).value))
    case Guard(t) => GuardWanted(s, Writer(t)).Some? && GuardFree(s, GuardWanted(s, Writer(t)).value)
    case Touch(t) => t in s.guards && t in s.base.pcs && Touching(s.base.pcs[t])
    case Ask(r, _) => r in s.readers && s.readers[r].Resting?
    case GuardRead(r) => GuardWanted(s, Fan(r)).Some? && GuardFree(s, GuardWanted(s, Fan(r)).value)
    case CopyOut(r, ids) =>
      && r in s.readers && s.readers[r].Copying?
      && Distinct(ids) && Elements(ids) == R.Members(s.base, s.readers[r].room)
    case LockShard(r) => ShardWanted(s, Fan(r)).Some? && ShardFree(s, ShardWanted(s, Fan(r)).value)
    case UnlockShard(r) => r in s.readers && s.readers[r].InShard?
    case Finish(r) => r in s.readers && s.readers[r] == Visiting([])
  }

  function Reading(s: State, r: Reader, mode: Mode): State
  {
    s.(readers := s.readers[r := mode])
  }

  ghost function Next(s: State, step: Step): State
    requires Enabled(s, step)
  {
    match step
    case Plain(b) => s.(base := R.Next(s.base, b))
    case Guard(t) => s.(guards := s.guards[t := GuardWanted(s, Writer(t)).value])
    case Touch(t) => s.(base := R.Next(s.base, TouchOf(t, s.base.pcs[t])), guards := s.guards - {t})
    case Ask(r, room) => Reading(s, r, Wanting(room))
    case GuardRead(r) => Reading(s, r, Copying(s.readers[r].room))
    case CopyOut(r, ids) => Reading(s, r, Visiting(ids))
    case LockShard(r) => Reading(s, r, InShard(s.readers[r].ids[0], s.readers[r].ids[1..]))
    case UnlockShard(r) => Reading(s, r, Visiting(s.readers[r].rest))
    case Finish(r) => Reading(s, r, Resting)
  }

  ghost predicate Run(a: State, steps: seq<Step>, b: State)
    decreases |steps|
  {
    if steps == [] then a == b else Enabled(a, steps[0]) && Run(Next(a, steps[0]), steps[1..], b)
  }

  ghost predicate Init(s: State)
  {
    R.Init(s.base) && s.guards == map[] && forall r | r in s.readers :: s.readers[r].Resting?
  }

  /** The party whose step it is. */
  function Actor(step: Step): Party
  {
    match step
    case Plain(b) => Writer(b.t)
    case Guard(t) => Writer(t)
    case Touch(t) => Writer(t)
    case _ => Fan(step.r)
  }

  // ── the invariant ──

  /** A thread holds a guard only for the room it is about to touch. */
  ghost predicate GuardOk(s: State, t: Thread)
    requires t in s.guards
  {
    t in s.base.pcs && Touching(s.base.pcs[t]) && s.guards[t] == s.bucket(s.base.pcs[t].room)
  }

  ghost predicate OneGuardHolder(s: State)
  {
    forall p, q, k | HoldsGuard(s, p, k) && HoldsGuard(s, q, k) :: p == q
  }

  ghost predicate OneShardHolder(s: State)
  {
    forall p, q, k | HoldsShard(s, p, k) && HoldsShard(s, q, k) :: p == q
  }

  ghost predicate Inv(s: State)
  {
    && R.Inv(s.base)
    && (forall t | t in s.guards :: GuardOk(s, t))
    && OneGuardHolder(s)
    && OneShardHolder(s)
  }

  /** What a step does to the membership below. */
  function BaseStep(s: State, step: Step): seq<R.Step>
  {
    match step
    case Plain(b) => [b]
    case Touch(t) => if t in s.base.pcs then [TouchOf(t, s.base.pcs[t])] else []
    case _ => []
  }

  lemma StepIsBase(s: State, step: Step)
    requires Enabled(s, step)
    ensures R.Run(s.base, BaseStep(s, step), Next(s, step).base)
  {
    var steps, b := BaseStep(s, step), Next(s, step).base;
    if steps != [] {
      assert R.Enabled(s.base, steps[0]) && R.Next(s.base, steps[0]) == b;
      assert R.Run(b, steps[1..], b);
    }
  }

  lemma StepKeepsBase(s: State, step: Step)
    requires Inv(s) && Enabled(s, step)
    ensures R.Inv(Next(s, step).base)
  {
    StepIsBase(s, step);
    R.RunKeepsInv(s.base, BaseStep(s, step), Next(s, step).base);
  }

  lemma StepKeepsGuardOk(s: State, step: Step, t: Thread)
    requires Inv(s) && Enabled(s, step) && t in Next(s, step).guards
    ensures GuardOk(Next(s, step), t)
  {
    assert t in s.guards ==> GuardOk(s, t);
    if Writer(t) != Actor(step) {
      OthersStay(s, step, t);
    }
  }

  /** A step moves no thread but its own. */
  lemma OthersStay(s: State, step: Step, t: Thread)
    requires Enabled(s, step) && Writer(t) != Actor(step)
    ensures var s' := Next(s, step);
      && (t in s'.guards <==> t in s.guards) && (t in s.guards ==> s'.guards[t] == s.guards[t])
      && (t in s'.base.pcs <==> t in s.base.pcs) && (t in s.base.pcs ==> s'.base.pcs[t] == s.base.pcs[t])
  {
  }

  /** A guard held after a step was held before, or was free and is the one the step took. */
  lemma GuardBefore(s: State, step: Step, p: Party, k: nat)
    requires Inv(s) && Enabled(s, step) && HoldsGuard(Next(s, step), p, k)
    ensures HoldsGuard(s, p, k) || (GuardFree(s, k) && if p.Writer? then step == Guard(p.t) else step == GuardRead(p.r))
  {
  }

  /** So for shards. */
  lemma ShardBefore(s: State, step: Step, p: Party, k: nat)
    requires Inv(s) && Enabled(s, step) && HoldsShard(Next(s, step), p, k)
    ensures HoldsShard(s, p, k) || (ShardFree(s, k) && p == Actor(step))
  {
    if p != Actor(step) {
      if p.Writer? {
        OthersStay(s, step, p.t);
      }
    } else if step.Plain? {
      PlainShard(s, step.step, k);
    } else if step.Touch? {
      TouchShard(s, step.t, k);
    }
  }

  lemma PlainShard(s: State, b: R.Step, k: nat)
    requires Enabled(s, Plain(b)) && HoldsShard(Next(s, Plain(b)), Writer(b.t), k)
    ensures HoldsShard(s, Writer(b.t), k) || ShardFree(s, k)
  {
  }

  lemma TouchShard(s: State, t: Thread, k: nat)
    requires Enabled(s, Touch(t)) && HoldsShard(Next(s, Touch(t)), Writer(t), k)
    ensures HoldsShard(s, Writer(t), k)
  {
  }

  lemma StepKeepsOneGuardHolder(s: State, step: Step)
    requires Inv(s) && Enabled(s, step)
    ensures OneGuardHolder(Next(s, step))
  {
    var s' := Next(s, step);
    forall p, q, k | HoldsGuard(s', p, k) && HoldsGuard(s', q, k) ensures p == q {
      GuardBefore(s, step, p, k);
      GuardBefore(s, step, q, k);
    }
  }

  lemma StepKeepsOneShardHolder(s: State, step: Step)
    requires Inv(s) && Enabled(s, step)
    ensures OneShardHolder(Next(s, step))
  {
    var s' := Next(s, step);
    forall p, q, k | HoldsShard(s', p, k) && HoldsShard(s', q, k) ensures p == q {
      ShardBefore(s, step, p, k);
      ShardBefore(s, step, q, k);
    }
  }

  lemma StepKeepsInv(s: State, step: Step)
    requires Inv(s) && Enabled(s, step)
    ensures Inv(Next(s, step))
  {
    StepKeepsBase(s, step);
    forall t | t in Next(s, step).guards ensures GuardOk(Next(s, step), t) {
      StepKeepsGuardOk(s, step, t);
    }
    StepKeepsOneGuardHolder(s, step);
    StepKeepsOneShardHolder(s, step);
  }

  lemma {:induction false} RunKeepsInv(a: State, steps: seq<Step>, b: State)
    requires Inv(a) && Run(a, steps, b)
    ensures Inv(b)
    decreases |steps|
  {
    if steps != [] {
      StepKeepsInv(a, steps[0]);
      RunKeepsInv(Next(a, steps[0]), steps[1..], b);
    }
  }

  lemma InitInv(s: State)
    requires Init(s)
    ensures Inv(s)
  {
    R.InitInv(s.base);
  }

  // ── the membership below ──

  lemma {:induction false} BaseRunsJoin(a: R.State, xs: seq<R.Step>, b: R.State, ys: seq<R.Step>, c: R.State)
    requires R.Run(a, xs, b) && R.Run(b, ys, c)
    ensures R.Run(a, xs + ys, c)
    decreases |xs|
  {
    if xs == [] {
      assert xs + ys == ys;
    } else {
      BaseRunsJoin(R.Next(a, xs[0]), xs[1..], b, ys, c);
      assert (xs + ys)[1..] == xs[1..] + ys;
    }
  }

  /** Under the locks, membership still runs as in RoomSteps; so all that holds of every run there holds here. */
  lemma {:induction false} RunIsBaseRun(a: State, steps: seq<Step>, b: State) returns (base: seq<R.Step>)
    requires Run(a, steps, b)
    ensures R.Run(a.base, base, b.base)
    decreases |steps|
  {
    if steps == [] {
      base := [];
    } else {
      var mid := Next(a, steps[0]);
      StepIsBase(a, steps[0]);
      var rest := RunIsBaseRun(mid, steps[1..], b);
      BaseRunsJoin(a.base, BaseStep(a, steps[0]), mid.base, rest, b.base);
      base := BaseStep(a, steps[0]) + rest;
    }
  }

  // ── no deadlock ──

  /** `p` wants a lock that `q` holds. */
  predicate WaitsFor(s: State, p: Party, q: Party)
  {
    || (GuardWanted(s, p).Some? && HoldsGuard(s, q, GuardWanted(s, p).value))
    || (ShardWanted(s, p).Some? && HoldsShard(s, q, ShardWanted(s, p).value))
  }

  /** Shard before guard: a party that wants a shard holds nothing, one that wants a guard holds at most a shard. */
  function Order(s: State, p: Party): nat
  {
    if ShardWanted(s, p).Some? then 2 else if GuardWanted(s, p).Some? then 1 else 0
  }

  /** Whoever is waited for comes strictly earlier in the order, so no cycle of waits can close. */
  lemma WaitsGoDown(s: State, p: Party, q: Party)
    requires Inv(s) && WaitsFor(s, p, q)
    ensures Order(s, q) < Order(s, p)
    ensures forall k :: HoldsGuard(s, p, k) ==> !GuardWanted(s, p).Some? && !ShardWanted(s, p).Some?
  {
  }

  lemma WantedIsFree(s: State, p: Party)
    requires forall q :: !WaitsFor(s, p, q)
    ensures GuardWanted(s, p).Some? ==> GuardFree(s, GuardWanted(s, p).value)
    ensures ShardWanted(s, p).Some? ==> ShardFree(s, ShardWanted(s, p).value)
  {
    forall q: Party
      ensures GuardWanted(s, p).Some? ==> !HoldsGuard(s, q, GuardWanted(s, p).value)
      ensures ShardWanted(s, p).Some? ==> !HoldsShard(s, q, ShardWanted(s, p).value)
    {
      assert !WaitsFor(s, p, q);
    }
  }

  /** A busy party that waits for nobody has a step to take. */
  lemma UnblockedSteps(s: State, p: Party) returns (step: Step)
    requires Inv(s) && Busy(s, p) && forall q :: !WaitsFor(s, p, q)
    ensures Enabled(s, step) && Actor(step) == p
  {
    WantedIsFree(s, p);
    match p {
      case Writer(t) =>
        var pc := s.base.pcs[t];
        if Touching(pc) {
          step := if t in s.guards then Touch(t) else Guard(t);
          assert t !in s.guards ==> GuardWanted(s, p).Some?;
        } else if pc.rest == {} {
          step := Plain(R.CleanupDone(t));
        } else {
          var room :| room in pc.rest;
          step := Plain(R.NextRoom(t, room));
        }
      case Fan(r) =>
        match s.readers[r] {
          case Wanting(_) => step := GuardRead(r);
          case Copying(room) =>
            var ids := Listing(R.Members(s.base, room));
            step := CopyOut(r, ids);
          case Visiting(ids) => step := if ids == [] then Finish(r) else LockShard(r);
          case InShard(_, _) => step := UnlockShard(r);
        }
    }
  }

  lemma {:induction false} Listing(ids: set<R.ConnId>) returns (s: seq<R.ConnId>)
    ensures Distinct(s) && Elements(s) == ids
    decreases ids
  {
    if ids == {} {
      s := [];
    } else {
      var id :| id in ids;
      var rest := Listing(ids - {id});
      assert forall x :: x in rest <==> x in Elements(rest);
      s := [id] + rest;
    }
  }

  /** Following who waits for whom from any busy party leads to one that can step. */
  lemma {:induction false} SomeoneSteps(s: State, p: Party) returns (q: Party, step: Step)
    requires Inv(s) && Busy(s, p)
    ensures Busy(s, q) && Enabled(s, step) && Actor(step) == q
    decreases Order(s, p)
  {
    if next :| WaitsFor(s, p, next) {
      WaitsGoDown(s, p, next);
      HoldersAreBusy(s, p, next);
      q, step := SomeoneSteps(s, next);
    } else {
      q := p;
      step := UnblockedSteps(s, p);
    }
  }

  lemma HoldersAreBusy(s: State, p: Party, q: Party)
    requires Inv(s) && WaitsFor(s, p, q)
    ensures Busy(s, q)
  {
  }

  /**
   * Deadlock freedom: in every state of every run, each guard and each shard has at most one holder, every wait goes
   * down the lock order, and while any verb or fan-out is under way one of those under way can step.
   */
  lemma NeverDeadlocks(start: State, steps: seq<Step>, s: State)
    requires Init(start) && Run(start, steps, s)
    ensures OneGuardHolder(s) && OneShardHolder(s)
    ensures forall p, q :: WaitsFor(s, p, q) ==> Order(s, q) < Order(s, p)
    ensures (exists p :: Busy(s, p)) ==> exists q, step :: Busy(s, q) && Enabled(s, step) && Actor(step) == q
  {
    InitInv(start);
    RunKeepsInv(start, steps, s);
    forall p, q | WaitsFor(s, p, q) ensures Order(s, q) < Order(s, p) {
      WaitsGoDown(s, p, q);
    }
    if p :| Busy(s, p) {
      var q, step := SomeoneSteps(s, p);
    }
  }

  // ── every verb ends ──

  function AfterRoom(rest: set<R.Room>, locked: bool): nat
  {
    if locked then 0 else 1 + 5 * |rest|
  }

  /** The steps a party has left, the rest of its visit counted once the member list is known. */
  function Work(s: State, p: Party): (nat, nat)
  {
    match p
    case Writer(t) =>
      var held := if t in s.guards then 1 else 0;
      if t !in s.base.pcs then (0, 0)
      else (match s.base.pcs[t]
            case Idle => (0, 0)
            case Joining(_, _) => (0, 3 - held)
            case Cleaning(_, rest) => (0, 1 + 5 * |rest|)
            case Emptying(_, _, rest, locked) => (0, 4 - held + AfterRoom(rest, locked))
            case Destroying(_, _, rest, locked) => (0, 2 - held + AfterRoom(rest, locked)))
    case Fan(r) =>
      if r !in s.readers then (0, 0)
      else (match s.readers[r]
            case Resting => (0, 0)
            case Wanting(_) => (2, 1)
            case Copying(_) => (2, 0)
            case Visiting(ids) => (1, 2 * |ids|)
            case InShard(_, rest) => (1, 2 * |rest| + 1))
  }

  predicate Less(a: (nat, nat), b: (nat, nat))
  {
    a.0 < b.0 || (a.0 == b.0 && a.1 < b.1)
  }

  /** A party under way gets closer to its end with each step of its own, and no step of another sets it back. */
  lemma StepsFinishVerbs(s: State, step: Step, p: Party)
    requires Inv(s) && Enabled(s, step) && Busy(s, p)
    ensures if p == Actor(step) then Less(Work(Next(s, step), p), Work(s, p)) else Work(Next(s, step), p) == Work(s, p)
  {
    if p != Actor(step) {
      OthersWork(s, step, p);
    } else if step.Plain? {
      PlainWork(s, step.step);
    } else if step.Touch? {
      TouchWork(s, step.t);
    }
  }

  lemma OthersWork(s: State, step: Step, p: Party)
    requires Enabled(s, step) && p != Actor(step)
    ensures Work(Next(s, step), p) == Work(s, p)
  {
    if p.Writer? {
      OthersStay(s, step, p.t);
    }
  }

  lemma PlainWork(s: State, b: R.Step)
    requires Inv(s) && Enabled(s, Plain(b)) && Busy(s, Writer(b.t))
    ensures Less(Work(Next(s, Plain(b)), Writer(b.t)), Work(s, Writer(b.t)))
  {
    assert b.t !in s.guards by {
      assert b.t in s.guards ==> GuardOk(s, b.t);
    }
    if b.NextRoom? {
      var rest := s.base.pcs[b.t].rest;
      assert |rest - {b.room}| == |rest| - 1;
    }
  }

  lemma TouchWork(s: State, t: Thread)
    requires Inv(s) && Enabled(s, Touch(t))
    ensures Less(Work(Next(s, Touch(t)), Writer(t)), Work(s, Writer(t)))
  {
  }

  // ── what a fan-out visits ──

  /** Whom the reader has yet to visit. */
  function ToVisit(s: State, r: Reader): seq<R.ConnId>
  {
    if r !in s.readers then []
    else if s.readers[r].Visiting? then s.readers[r].ids
    else if s.readers[r].InShard? then s.readers[r].rest
    else []
  }

  /** The connection whose shard the reader locks in this step, if it does. */
  ghost function VisitIn(s: State, step: Step, r: Reader): seq<R.ConnId>
    requires Enabled(s, step)
  {
    var s' := Next(s, step);
    if step == LockShard(r) && s'.readers[r].InShard? then [s'.readers[r].id] else []
  }

  /** The connections whose shard the reader locks during the run, in order. */
  ghost function Visited(a: State, steps: seq<Step>, r: Reader): seq<R.ConnId>
    decreases |steps|
  {
    if steps == [] || !Enabled(a, steps[0]) then []
    else VisitIn(a, steps[0], r) + Visited(Next(a, steps[0]), steps[1..], r)
  }

  predicate Fanning(s: State, r: Reader)
  {
    r in s.readers && (s.readers[r].Visiting? || s.readers[r].InShard?)
  }

  lemma StepVisits(s: State, step: Step, r: Reader)
    requires Enabled(s, step) && Fanning(s, r) && step != Finish(r)
    ensures Fanning(Next(s, step), r)
    ensures ToVisit(s, r) == VisitIn(s, step, r) + ToVisit(Next(s, step), r)
  {
  }

  lemma {:induction false} RunVisits(a: State, steps: seq<Step>, b: State, r: Reader)
    requires Run(a, steps, b) && Fanning(a, r) && Finish(r) !in steps
    ensures Fanning(b, r) && ToVisit(a, r) == Visited(a, steps, r) + ToVisit(b, r)
    decreases |steps|
  {
    if steps != [] {
      StepVisits(a, steps[0], r);
      RunVisits(Next(a, steps[0]), steps[1..], b, r);
    }
  }

  /**
   * A fan-out that has copied a room's members out visits each of them once, in the order copied, holding that
   * connection's shard, whatever the room becomes meanwhile; when it can finish it has visited them all.
   */
  lemma FanVisitsMembers(a: State, r: Reader, ids: seq<R.ConnId>, steps: seq<Step>, b: State)
    requires Enabled(a, CopyOut(r, ids)) && Run(Next(a, CopyOut(r, ids)), steps, b) && Finish(r) !in steps
    ensures Distinct(ids) && Elements(ids) == R.Members(a.base, a.readers[r].room)
    ensures Visited(Next(a, CopyOut(r, ids)), steps, r) <= ids
    ensures Enabled(b, Finish(r)) ==> Visited(Next(a, CopyOut(r, ids)), steps, r) == ids
  {
    RunVisits(Next(a, CopyOut(r, ids)), steps, b, r);
  }
}
