/**
 * Interest table of one node (crates/mesh/src/interest.rs): which rooms and users
 * every origin hosts, kept by edges, snapshots and digests.
 */
module Interest {
  import opened Prelude
  import opened Ordering
  import opened Wire

  type NodeId = u16

  datatype Target = Room(name: Name) | User(name: Name)

  datatype Routing = ByInterest | Flood

  /** What one origin hosts, as of its update number `version`. */
  datatype OriginInterest = OriginInterest(version: nat, rooms: set<Name>, users: set<Name>) {
    predicate Hosts(t: Target)
    {
      match t
      case Room(r) => r in rooms
      case User(u) => u in users
    }

    function With(t: Target, hosting: bool): OriginInterest
    {
      match t
      case Room(r) => this.(rooms := if hosting then rooms + {r} else rooms - {r})
      case User(u) => this.(users := if hosting then users + {u} else users - {u})
    }
  }

  const NOTHING := OriginInterest(0, {}, {})

  datatype Edge = Edge(origin: NodeId, version: nat, add: bool, target: Target)

  datatype Snapshot = Snapshot(origin: NodeId, version: nat, rooms: seq<Name>, users: seq<Name>) {
    function Content(): OriginInterest
    {
      OriginInterest(version, Elements(rooms), Elements(users))
    }
  }

  datatype Counters = Counters(interestIn: nat, interestOut: nat, seqDrops: nat, digestRepairs: nat)

  // ── the content hash ──

  /** One hashed name: a tag byte (1 room, 2 user), the length cut to 16 bits, the bytes. */
  function PutTagged(x: (byte, Name)): seq<byte>
  {
    [x.0] + PutStr(x.1)
  }

  ghost function Tagged(tag: byte, names: set<Name>): (r: seq<(byte, Name)>)
    ensures forall x :: x in r <==> x.0 == tag && x.1 in names
  {
    NameLeqTotal();
    var sorted := Ascending(names, NameLeq);
    var r := seq(|sorted|, i requires 0 <= i < |sorted| => (tag, sorted[i]));
    assert forall n | n in names :: n in Elements(sorted);
    assert forall i | 0 <= i < |sorted| :: sorted[i] in Elements(sorted) && r[i] == (tag, sorted[i]);
    r
  }

  lemma TaggedDistinct(tag: byte, names: set<Name>)
    ensures Distinct(Tagged(tag, names))
  {
    NameLeqTotal();
    var sorted := Ascending(names, NameLeq);
    assert Tagged(tag, names) == seq(|sorted|, i requires 0 <= i < |sorted| => (tag, sorted[i]));
  }

  ghost function HashInput(o: OriginInterest): seq<byte>
  {
    PutAll(PutTagged, Tagged(1, o.rooms) + Tagged(2, o.users))
  }

  function FnvMix(h: bv64, b: byte): bv64
  {
    (h ^ (b as bv64)) * 0x0000_0100_0000_01b3
  }

  function Fnv1a64(data: seq<byte>): bv64
  {
    if data == [] then 0xcbf2_9ce4_8422_2325 else FnvMix(Fnv1a64(data[..|data| - 1]), data[|data| - 1])
  }

  ghost function Hash(o: OriginInterest): bv64
  {
    Fnv1a64(HashInput(o))
  }

  function ParseTagged(buf: seq<byte>): Option<seq<(byte, Name)>>
    decreases |buf|
  {
    if buf == [] then Some([])
    else
      match GetStr(buf[1..])
      case None => None
      case Some((name, rest)) =>
        if |rest| >= |buf| then None
        else
          match ParseTagged(rest)
          case None => None
          case Some(xs) => Some([(buf[0], name)] + xs)
  }

  lemma {:induction false} ParseTaggedPut(xs: seq<(byte, Name)>)
    requires forall x | x in xs :: |x.1| < 0x1_0000
    ensures ParseTagged(PutAll(PutTagged, xs)) == Some(xs)
  {
    if xs != [] {
      var rest := PutAll(PutTagged, xs[1..]);
      var buf := PutAll(PutTagged, xs);
      assert buf[1..] == PutStr(xs[0].1) + rest;
      GetStrPut(xs[0].1, rest);
      ParseTaggedPut(xs[1..]);
      assert xs == [xs[0]] + xs[1..];
    }
  }

  ghost predicate ShortNames(o: OriginInterest)
  {
    (forall n | n in o.rooms :: |n| < 0x1_0000) && (forall n | n in o.users :: |n| < 0x1_0000)
  }

  /**
   * The hashed bytes determine the set: rooms and users cannot be confused, and no two
   * different sets of names below 64 KiB share an encoding. Only FNV itself can collide.
   */
  lemma HashInputInjective(a: OriginInterest, b: OriginInterest)
    requires ShortNames(a) && ShortNames(b)
    requires HashInput(a) == HashInput(b)
    ensures a.rooms == b.rooms && a.users == b.users
  {
    var xs := Tagged(1, a.rooms) + Tagged(2, a.users);
    var ys := Tagged(1, b.rooms) + Tagged(2, b.users);
    ParseTaggedPut(xs);
    ParseTaggedPut(ys);
    assert xs == ys;
    forall n: Name
      ensures n in a.rooms <==> n in b.rooms
      ensures n in a.users <==> n in b.users
    {
      assert n in a.rooms <==> (1, n) in xs;
      assert n in b.rooms <==> (1, n) in ys;
      assert n in a.users <==> (2, n) in xs;
      assert n in b.users <==> (2, n) in ys;
    }
  }

  // ── the table ──

  datatype State = State(
    selfId: NodeId,
    local: OriginInterest,
    remote: map<NodeId, OriginInterest>,
    routing: Routing,
    counters: Counters)

  function Fresh(selfId: NodeId, routing: Routing): State
  {
    State(selfId, NOTHING, map[], routing, Counters(0, 0, 0, 0))
  }

  function Held(st: State, origin: NodeId): OriginInterest
  {
    if origin in st.remote then st.remote[origin] else NOTHING
  }

  /** Record a hosting transition; only a real 0-to-1 or 1-to-0 change yields an edge. */
  function LocalSet(st: State, t: Target, hosting: bool): (State, Option<Edge>)
  {
    if st.local.Hosts(t) == hosting then (st, None)
    else
      var local := st.local.With(t, hosting).(version := st.local.version + 1);
      (st.(local := local, counters := st.counters.(interestOut := st.counters.interestOut + 1)),
       Some(Edge(st.selfId, local.version, hosting, t)))
  }

  /** Apply a peer's edge; anything not strictly newer is dropped and counted. */
  function ApplyEdge(st: State, e: Edge): (State, bool)
  {
    if e.origin == st.selfId then (st, false)
    else
      var o := Held(st, e.origin);
      if e.version <= o.version then
        (st.(remote := st.remote[e.origin := o],
             counters := st.counters.(seqDrops := st.counters.seqDrops + 1)), false)
      else
        (st.(remote := st.remote[e.origin := o.With(e.target, e.add).(version := e.version)],
             counters := st.counters.(interestIn := st.counters.interestIn + 1)), true)
  }

  function ApplyEdges(st: State, es: seq<Edge>): State
    decreases |es|
  {
    if es == [] then st else ApplyEdges(ApplyEdge(st, es[0]).0, es[1..])
  }

  /** How many of the edges are not our own echo. */
  function Foreign(st: State, es: seq<Edge>): nat
  {
    if es == [] then 0 else (if es[0].origin == st.selfId then 0 else 1) + Foreign(st, es[1..])
  }

  /** The newest version among what is held and what the edges say about `origin`. */
  function Newest(held: nat, es: seq<Edge>, origin: NodeId): nat
    decreases |es|
  {
    if es == [] then held
    else Newest(if es[0].origin == origin && es[0].version > held then es[0].version else held, es[1..], origin)
  }

  /**
   * The sequence discipline over any stream of edges, in any order and with any repeats: the version held is the
   * newest seen, and every foreign edge is counted once, as applied or as dropped.
   */
  lemma {:induction false} EdgesAccounted(st: State, es: seq<Edge>, origin: NodeId)
    requires origin != st.selfId
    ensures var st' := ApplyEdges(st, es);
      && st'.selfId == st.selfId && st'.local == st.local
      && Held(st', origin).version == Newest(Held(st, origin).version, es, origin)
      && st'.counters.interestIn + st'.counters.seqDrops ==
        st.counters.interestIn + st.counters.seqDrops + Foreign(st, es)
    decreases |es|
  {
    if es != [] {
      EdgesAccounted(ApplyEdge(st, es[0]).0, es[1..], origin);
      ForeignSameSelf(st, ApplyEdge(st, es[0]).0, es[1..]);
    }
  }

  lemma {:induction false} ForeignSameSelf(a: State, b: State, es: seq<Edge>)
    requires a.selfId == b.selfId
    ensures Foreign(a, es) == Foreign(b, es)
    decreases |es|
  {
    if es != [] {
      ForeignSameSelf(a, b, es[1..]);
    }
  }

  /** A stale, repeated or reordered edge leaves what is held alone; a newer one changes exactly its own target. */
  lemma EdgeEffect(st: State, e: Edge, t: Target)
    requires e.origin != st.selfId
    ensures var (st', applied) := ApplyEdge(st, e);
      && (applied <==> e.version > Held(st, e.origin).version)
      && Held(st', e.origin).Hosts(t) == (if applied && t == e.target then e.add else Held(st, e.origin).Hosts(t))
      && st'.remote - {e.origin} == st.remote - {e.origin}
      && st'.counters == (if applied then st.counters.(interestIn := st.counters.interestIn + 1)
                          else st.counters.(seqDrops := st.counters.seqDrops + 1))
      && !ApplyEdge(st', e).1
  {
  }

  predicate Accepts(st: State, s: Snapshot)
  {
    s.origin != st.selfId && (s.origin in st.remote ==> s.version >= st.remote[s.origin].version)
  }

  /** Apply a snapshot that is not older than what is held; reports whether the entry changed. */
  function ApplySnapshot(st: State, s: Snapshot): (State, bool)
  {
    if !Accepts(st, s) then (st, false)
    else
      var changed := !(s.origin in st.remote && st.remote[s.origin] == s.Content());
      var repairs := st.counters.digestRepairs + if changed then 1 else 0;
      (st.(remote := st.remote[s.origin := s.Content()],
           counters := st.counters.(digestRepairs := repairs, interestIn := st.counters.interestIn + 1)),
       changed)
  }

  /**
   * A snapshot that is not older replaces the entry and only that entry; it counts as a repair exactly when the table
   * changed, and a second copy of it repairs nothing.
   */
  lemma SnapshotEffect(st: State, s: Snapshot)
    ensures var (st', changed) := ApplySnapshot(st, s);
      && (Accepts(st, s) ==> s.origin in st'.remote && st'.remote[s.origin] == s.Content())
      && st'.remote - {s.origin} == st.remote - {s.origin}
      && (changed <==> st'.remote != st.remote)
      && st'.counters.digestRepairs == st.counters.digestRepairs + (if changed then 1 else 0)
      && st'.counters.interestIn == st.counters.interestIn + (if Accepts(st, s) then 1 else 0)
      && st' == st.(remote := st'.remote, counters := st'.counters)
      && !ApplySnapshot(st', s).1
  {
    var (st', changed) := ApplySnapshot(st, s);
    if Accepts(st, s) && !changed {
      assert st'.remote == st.remote;
    }
  }

  function SweepOrigin(st: State, origin: NodeId): State
  {
    st.(remote := st.remote - {origin})
  }

  ghost function SnapshotOf(origin: NodeId, o: OriginInterest): (s: Snapshot)
    ensures s.origin == origin && s.Content() == o
  {
    NameLeqTotal();
    Snapshot(origin, o.version, Ascending(o.rooms, NameLeq), Ascending(o.users, NameLeq))
  }

  // ── anti-entropy ──

  /** A digest, collected by origin: the version last applied and the hash of the set. */
  type Digest = map<NodeId, (nat, bv64)>

  ghost function BuildDigest(st: State): Digest
  {
    (map id | id in st.remote :: (st.remote[id].version, Hash(st.remote[id])))
    [st.selfId := (st.local.version, Hash(st.local))]
  }

  /** Our own origin is answered on any difference; a remote origin only when we are strictly ahead. */
  ghost predicate AnswersSelf(st: State, peer: Digest)
  {
    if st.selfId in peer then peer[st.selfId] != (st.local.version, Hash(st.local))
    else st.local.rooms != {} || st.local.users != {} || st.local.version > 0
  }

  predicate AnswersRemote(st: State, peer: Digest, origin: NodeId)
  {
    origin in st.remote &&
    if origin in peer then st.remote[origin].version > peer[origin].0 else st.remote[origin].version > 0
  }

  ghost function RespondToDigest(st: State, peer: Digest): set<Snapshot>
  {
    (if AnswersSelf(st, peer) then {SnapshotOf(st.selfId, st.local)} else {})
    + (set id | id in st.remote && AnswersRemote(st, peer, id) :: SnapshotOf(id, st.remote[id]))
  }

  /** Apply a peer's answers in the order they arrive. */
  function ApplyAll(st: State, snaps: seq<Snapshot>): State
    decreases |snaps|
  {
    if snaps == [] then st else ApplyAll(ApplySnapshot(st, snaps[0]).0, snaps[1..])
  }

  // ── routing ──

  predicate IdLeq(a: NodeId, b: NodeId)
  {
    a <= b
  }

  /** The ids of a set in ascending order, as `sort_unstable` leaves them. */
  ghost function SortedIds(ids: set<NodeId>): (r: seq<NodeId>)
    ensures Elements(r) == ids && Distinct(r) && Sorted(r, IdLeq)
  {
    assert TotalOrder(IdLeq);
    Ascending(ids, IdLeq)
  }

  ghost function Routed(st: State, t: Target, alive: set<NodeId>): set<NodeId>
  {
    match st.routing
    case Flood => alive - {st.selfId}
    case ByInterest => set id | id in st.remote && id in alive && st.remote[id].Hosts(t)
  }

  /** Sweeping a dead origin stops routing to it, touches no other origin, and lets any snapshot of it back in. */
  lemma SweepEffect(st: State, dead: NodeId, other: NodeId, t: Target, alive: set<NodeId>, s: Snapshot)
    requires st.routing.ByInterest? && other != dead
    ensures var st' := SweepOrigin(st, dead);
      && dead !in Routed(st', t, alive)
      && Held(st', other) == Held(st, other)
      && (other in Routed(st', t, alive) <==> other in Routed(st, t, alive))
      && (s.origin == dead && dead != st.selfId ==> Accepts(st', s))
  {
  }

  ghost function InterestedPeers(st: State, t: Target, alive: set<NodeId>): seq<NodeId>
  {
    SortedIds(Routed(st, t, alive))
  }
}
