/**
 * A cluster of interest tables over a lossy wire.
 *
 * `sent` only grows: a message may be delivered late, twice, out of order, to any node, or never,
 * so every run below covers every pattern of loss, duplication and partition.
 */
module InterestCluster {
  import opened Prelude
  import opened Interest

  datatype Msg = EdgeMsg(edge: Edge) | SnapshotMsg(snap: Snapshot) | DigestMsg(digest: Digest)

  datatype Net = Net(nodes: map<NodeId, State>, sent: set<Msg>)

  datatype Step =
    | Transition(n: NodeId, target: Target, hosting: bool)
    | DeliverEdge(n: NodeId, edge: Edge)
    | DeliverSnapshot(n: NodeId, snap: Snapshot)
    | LinkUp(n: NodeId)
    | SendDigest(n: NodeId)
    | AnswerDigest(n: NodeId, digest: Digest)
    | Sweep(n: NodeId, origin: NodeId)
    | Reroute(n: NodeId, routing: Routing)

  ghost predicate Init(net: Net)
  {
    && net.sent == {}
    && forall n | n in net.nodes :: net.nodes[n] == Fresh(n, net.nodes[n].routing)
  }

  ghost predicate Enabled(net: Net, step: Step)
  {
    && step.n in net.nodes
    && match step
       case DeliverEdge(_, e) => EdgeMsg(e) in net.sent
       case DeliverSnapshot(_, s) => SnapshotMsg(s) in net.sent
       case AnswerDigest(_, d) => DigestMsg(d) in net.sent
       case _ => true
  }

  ghost function Next(net: Net, step: Step): Net
    requires Enabled(net, step)
  {
    var st := net.nodes[step.n];
    match step
    case Transition(n, t, h) =>
      var (st', edge) := LocalSet(st, t, h);
      Net(net.nodes[n := st'], if edge.Some? then net.sent + {EdgeMsg(edge.value)} else net.sent)
    case DeliverEdge(n, e) => net.(nodes := net.nodes[n := ApplyEdge(st, e).0])
    case DeliverSnapshot(n, s) => net.(nodes := net.nodes[n := ApplySnapshot(st, s).0])
    case LinkUp(n) => net.(sent := net.sent + {SnapshotMsg(SnapshotOf(n, st.local))})
    case SendDigest(n) => net.(sent := net.sent + {DigestMsg(BuildDigest(st))})
    case AnswerDigest(_, d) => net.(sent := net.sent + set s | s in RespondToDigest(st, d) :: SnapshotMsg(s))
    case Sweep(n, o) => net.(nodes := net.nodes[n := SweepOrigin(st, o)])
    case Reroute(n, r) => net.(nodes := net.nodes[n := st.(routing := r)])
  }

  /** `b` is reached from `a` by exactly these steps. */
  ghost predicate Run(a: Net, steps: seq<Step>, b: Net)
    decreases |steps|
  {
    if steps == [] then a == b
    else Enabled(a, steps[0]) && Run(Next(a, steps[0]), steps[1..], b)
  }

  // ── nothing held or in flight is ahead of its origin ──

  ghost predicate Behind(net: Net, origin: NodeId, version: nat)
  {
    origin in net.nodes && version <= net.nodes[origin].local.version
  }

  ghost predicate NodeOk(net: Net, n: NodeId)
    requires n in net.nodes
  {
    var st := net.nodes[n];
    && st.selfId == n
    && n !in st.remote
    && (st.local.version == 0 ==> st.local == NOTHING)
    && (forall o | o in st.remote :: Behind(net, o, st.remote[o].version))
  }

  ghost predicate MsgOk(net: Net, m: Msg)
  {
    match m
    case EdgeMsg(e) => Behind(net, e.origin, e.version)
    case SnapshotMsg(s) => Behind(net, s.origin, s.version)
    case DigestMsg(d) => true
  }

  ghost predicate Inv(net: Net)
  {
    (forall n | n in net.nodes :: NodeOk(net, n)) && (forall m | m in net.sent :: MsgOk(net, m))
  }

  /** No step lowers an origin's version. */
  lemma BehindPersists(net: Net, step: Step, o: NodeId, version: nat)
    requires Enabled(net, step) && Behind(net, o, version)
    ensures Behind(Next(net, step), o, version)
  {
  }

  lemma StepKeepsNode(net: Net, step: Step, n: NodeId)
    requires Inv(net) && Enabled(net, step) && n in net.nodes
    ensures NodeOk(Next(net, step), n)
  {
    assert NodeOk(net, step.n) && NodeOk(net, n);
    match step
    case DeliverEdge(_, e) => assert MsgOk(net, EdgeMsg(e));
    case DeliverSnapshot(_, s) => assert MsgOk(net, SnapshotMsg(s));
    case _ =>
    var st := Next(net, step).nodes[n];
    forall o | o in st.remote ensures Behind(Next(net, step), o, st.remote[o].version) {
      BehindPersists(net, step, o, st.remote[o].version);
    }
  }

  lemma OldMsgStaysOk(net: Net, step: Step, m: Msg)
    requires Inv(net) && Enabled(net, step) && m in net.sent
    ensures MsgOk(Next(net, step), m)
  {
    assert MsgOk(net, m);
    match m
    case EdgeMsg(e) => BehindPersists(net, step, e.origin, e.version);
    case SnapshotMsg(s) => BehindPersists(net, step, s.origin, s.version);
    case DigestMsg(_) =>
  }

  lemma AnswerIsOk(net: Net, n: NodeId, d: Digest, s: Snapshot)
    requires Inv(net) && n in net.nodes && s in RespondToDigest(net.nodes[n], d)
    ensures Behind(net, s.origin, s.version)
  {
    assert NodeOk(net, n);
  }

  lemma NewMsgIsOk(net: Net, step: Step, m: Msg)
    requires Inv(net) && Enabled(net, step) && m in Next(net, step).sent && m !in net.sent
    ensures MsgOk(Next(net, step), m)
  {
    assert NodeOk(net, step.n);
    if step.AnswerDigest? {
      AnswerIsOk(net, step.n, step.digest, m.snap);
    }
  }

  lemma StepKeepsInv(net: Net, step: Step)
    requires Inv(net) && Enabled(net, step)
    ensures Inv(Next(net, step))
  {
    forall n | n in Next(net, step).nodes ensures NodeOk(Next(net, step), n) {
      StepKeepsNode(net, step, n);
    }
    forall m | m in Next(net, step).sent ensures MsgOk(Next(net, step), m) {
      if m in net.sent {
        OldMsgStaysOk(net, step, m);
      } else {
        NewMsgIsOk(net, step, m);
      }
    }
  }

  lemma {:induction false} RunKeepsInv(a: Net, steps: seq<Step>, b: Net)
    requires Inv(a) && Run(a, steps, b)
    ensures Inv(b)
    decreases |steps|
  {
    if steps != [] {
      StepKeepsInv(a, steps[0]);
      RunKeepsInv(Next(a, steps[0]), steps[1..], b);
    }
  }

  lemma ReachableInv(a: Net, steps: seq<Step>, b: Net)
    requires Init(a) && Run(a, steps, b)
    ensures Inv(b)
  {
    RunKeepsInv(a, steps, b);
  }

  /**
   * In every run of a fresh cluster, whatever is lost, repeated, reordered, forwarded or swept, no version held in a
   * table or still in flight for an origin exceeds that origin's own, and no node holds an entry for itself.
   */
  lemma NothingAhead(a: Net, steps: seq<Step>, b: Net)
    requires Init(a) && Run(a, steps, b)
    ensures forall n, o | n in b.nodes && o in b.nodes[n].remote ::
      o != n && o in b.nodes && b.nodes[n].remote[o].version <= b.nodes[o].local.version
    ensures forall e | EdgeMsg(e) in b.sent :: e.origin in b.nodes && e.version <= b.nodes[e.origin].local.version
    ensures forall s | SnapshotMsg(s) in b.sent :: s.origin in b.nodes && s.version <= b.nodes[s.origin].local.version
  {
    ReachableInv(a, steps, b);
    forall n, o | n in b.nodes && o in b.nodes[n].remote
      ensures o != n && o in b.nodes && b.nodes[n].remote[o].version <= b.nodes[o].local.version
    {
      assert NodeOk(b, n) && Behind(b, o, b.nodes[n].remote[o].version);
    }
    forall e | EdgeMsg(e) in b.sent ensures e.origin in b.nodes && e.version <= b.nodes[e.origin].local.version {
      assert MsgOk(b, EdgeMsg(e));
    }
    forall s | SnapshotMsg(s) in b.sent ensures s.origin in b.nodes && s.version <= b.nodes[s.origin].local.version {
      assert MsgOk(b, SnapshotMsg(s));
    }
  }

  // ── when a table mirrors an origin ──

  /** Node `a` holds exactly what `o` hosts, at `o`'s own version. */
  ghost predicate Exact(net: Net, a: NodeId, o: NodeId)
    requires a in net.nodes && o in net.nodes
  {
    if o in net.nodes[a].remote then net.nodes[a].remote[o] == net.nodes[o].local
    else net.nodes[o].local.version == 0
  }

  ghost predicate Converged(net: Net)
  {
    forall a, o | a in net.nodes && o in net.nodes && a != o :: Exact(net, a, o)
  }

  /** `a` holds a different set for `o` at the same version, and the digest hash cannot tell. */
  ghost predicate Collides(net: Net, a: NodeId, o: NodeId)
    requires a in net.nodes && o in net.nodes
  {
    var held, truth := Held(net.nodes[a], o), net.nodes[o].local;
    o in net.nodes[a].remote && held.version == truth.version && Hash(held) == Hash(truth) && held != truth
  }

  ghost predicate CollisionFree(net: Net)
  {
    forall a, o | a in net.nodes && o in net.nodes && a != o :: !Collides(net, a, o)
  }

  /** With names below 64 KiB, a blind spot of the digest is a genuine FNV-1a collision. */
  lemma CollisionIsFnv(net: Net, a: NodeId, o: NodeId)
    requires a in net.nodes && o in net.nodes && Collides(net, a, o)
    requires ShortNames(Held(net.nodes[a], o)) && ShortNames(net.nodes[o].local)
    ensures HashInput(Held(net.nodes[a], o)) != HashInput(net.nodes[o].local)
    ensures Fnv1a64(HashInput(Held(net.nodes[a], o))) == Fnv1a64(HashInput(net.nodes[o].local))
  {
    if HashInput(Held(net.nodes[a], o)) == HashInput(net.nodes[o].local) {
      HashInputInjective(Held(net.nodes[a], o), net.nodes[o].local);
    }
  }

  /** An edge that reaches a mirror in order keeps it a mirror: the loss-free path needs no digest. */
  lemma EdgeTracks(net: Net, a: NodeId, o: NodeId, t: Target, hosting: bool)
    requires Inv(net) && a in net.nodes && o in net.nodes && a != o
    requires Exact(net, a, o) && net.nodes[o].local.Hosts(t) != hosting
    ensures var edge := LocalSet(net.nodes[o], t, hosting).1;
      edge.Some? &&
      var sent := Next(net, Transition(o, t, hosting));
      EdgeMsg(edge.value) in sent.sent &&
      !Exact(sent, a, o) &&
      Exact(Next(sent, DeliverEdge(a, edge.value)), a, o)
  {
    assert NodeOk(net, a) && NodeOk(net, o);
  }

  /** What was sent stays on the wire. */
  lemma {:induction false} SentGrows(a: Net, steps: seq<Step>, b: Net)
    requires Run(a, steps, b)
    ensures a.sent <= b.sent && a.nodes.Keys == b.nodes.Keys
    decreases |steps|
  {
    if steps != [] {
      SentGrows(Next(a, steps[0]), steps[1..], b);
    }
  }

  /**
   * The snapshot a node sends as a link comes up makes its reader exact whatever the reader held, hash collisions
   * included, if what the node hosts is still the same when the snapshot is read.
   */
  lemma LinkUpRepairs(net: Net, o: NodeId, steps: seq<Step>, late: Net, a: NodeId)
    requires Inv(net) && o in net.nodes && Run(Next(net, LinkUp(o)), steps, late)
    requires a in late.nodes && o in late.nodes && a != o && late.nodes[o].local == net.nodes[o].local
    ensures var read := DeliverSnapshot(a, SnapshotOf(o, net.nodes[o].local));
      Enabled(late, read) && Exact(Next(late, read), a, o)
  {
    var s := SnapshotOf(o, net.nodes[o].local);
    StepKeepsInv(net, LinkUp(o));
    RunKeepsInv(Next(net, LinkUp(o)), steps, late);
    SentGrows(Next(net, LinkUp(o)), steps, late);
    assert NodeOk(late, a) && NodeOk(late, o);
    assert o in late.nodes[a].remote ==> Behind(late, o, late.nodes[a].remote[o].version);
    assert SnapshotMsg(s) in late.sent && Accepts(late.nodes[a], s);
  }

  /** The step brings `n` news of `o`. */
  predicate Hears(step: Step, n: NodeId, o: NodeId)
  {
    || (step.DeliverEdge? && step.n == n && step.edge.origin == o)
    || (step.DeliverSnapshot? && step.n == n && step.snap.origin == o)
  }

  lemma {:induction false} UnheardStaysOut(a: Net, steps: seq<Step>, b: Net, n: NodeId, o: NodeId)
    requires Run(a, steps, b) && n in a.nodes && o !in a.nodes[n].remote
    requires forall step | step in steps :: !Hears(step, n, o)
    ensures n in b.nodes && o !in b.nodes[n].remote
    decreases |steps|
  {
    if steps != [] {
      assert !Hears(steps[0], n, o);
      UnheardStaysOut(Next(a, steps[0]), steps[1..], b, n, o);
    }
  }

  /** A swept origin is out of the table, and interest routing sends it nothing, until there is news of it. */
  lemma SweptUntilHeard(net: Net, n: NodeId, o: NodeId, steps: seq<Step>, b: Net, t: Target, alive: set<NodeId>)
    requires n in net.nodes && Run(Next(net, Sweep(n, o)), steps, b)
    requires forall step | step in steps :: !Hears(step, n, o)
    ensures n in b.nodes && o !in b.nodes[n].remote
    ensures b.nodes[n].routing.ByInterest? ==> o !in Routed(b.nodes[n], t, alive)
  {
    UnheardStaysOut(Next(net, Sweep(n, o)), steps, b, n, o);
  }

  lemma {:induction false} RoutingStays(a: Net, steps: seq<Step>, b: Net, n: NodeId)
    requires Run(a, steps, b) && n in a.nodes && forall step | step in steps :: !(step.Reroute? && step.n == n)
    ensures n in b.nodes && b.nodes[n].routing == a.nodes[n].routing && b.nodes[n].selfId == a.nodes[n].selfId
    decreases |steps|
  {
    if steps != [] {
      assert !(steps[0].Reroute? && steps[0].n == n);
      RoutingStays(Next(a, steps[0]), steps[1..], b, n);
    }
  }

  /** A node told to flood addresses every other alive node, hosts or not, until it is told otherwise. */
  lemma FloodsUntilRerouted(net: Net, n: NodeId, steps: seq<Step>, b: Net, t: Target, alive: set<NodeId>)
    requires Inv(net) && n in net.nodes && Run(Next(net, Reroute(n, Flood)), steps, b)
    requires forall step | step in steps :: !(step.Reroute? && step.n == n)
    ensures n in b.nodes && Routed(b.nodes[n], t, alive) == alive - {n}
  {
    assert NodeOk(net, n);
    RoutingStays(Next(net, Reroute(n, Flood)), steps, b, n);
  }

  ghost predicate OutCounted(net: Net)
  {
    forall n | n in net.nodes :: net.nodes[n].counters.interestOut == net.nodes[n].local.version
  }

  lemma {:induction false} RunKeepsOutCounted(a: Net, steps: seq<Step>, b: Net)
    requires OutCounted(a) && Run(a, steps, b)
    ensures OutCounted(b)
    decreases |steps|
  {
    if steps != [] {
      RunKeepsOutCounted(Next(a, steps[0]), steps[1..], b);
    }
  }

  /** In every run of a fresh cluster a node's version is the number of edges it has sent. */
  lemma VersionCountsEdges(a: Net, steps: seq<Step>, b: Net)
    requires Init(a) && Run(a, steps, b)
    ensures forall n | n in b.nodes :: b.nodes[n].counters.interestOut == b.nodes[n].local.version
  {
    RunKeepsOutCounted(a, steps, b);
  }

  // ── one digest exchange ──

  /** Node `a` sends its digest to `b` and applies the answers in whatever order they arrive. */
  datatype Exchange = Exchange(a: NodeId, b: NodeId, answers: seq<Snapshot>)

  ghost predicate ExchangeOk(net: Net, x: Exchange)
  {
    && x.a in net.nodes && x.b in net.nodes && x.a != x.b
    && Elements(x.answers) == RespondToDigest(net.nodes[x.b], BuildDigest(net.nodes[x.a]))
  }

  ghost function AfterExchange(net: Net, x: Exchange): Net
    requires ExchangeOk(net, x)
  {
    net.(nodes := net.nodes[x.a := ApplyAll(net.nodes[x.a], x.answers)])
  }

  /** Effect of a batch of answers on one origin's entry, when all answers about it agree. */
  lemma {:induction false} ApplyAllEntry(st: State, snaps: seq<Snapshot>, o: NodeId, s: Snapshot)
    requires o != st.selfId && s.origin == o
    requires forall x | x in snaps && x.origin == o :: x == s
    ensures ApplyAll(st, snaps).selfId == st.selfId && ApplyAll(st, snaps).local == st.local
    ensures ApplyAll(st, snaps).routing == st.routing
    ensures var st' := ApplyAll(st, snaps);
      if s in snaps && Accepts(st, s) then o in st'.remote && st'.remote[o] == s.Content()
      else (o in st'.remote <==> o in st.remote) && Held(st', o) == Held(st, o)
    decreases |snaps|
  {
    if snaps != [] {
      ApplyAllEntry(ApplySnapshot(st, snaps[0]).0, snaps[1..], o, s);
      assert s in snaps <==> s == snaps[0] || s in snaps[1..];
    }
  }

  lemma {:induction false} ApplyAllFrame(st: State, snaps: seq<Snapshot>)
    requires st.selfId !in st.remote
    ensures var st' := ApplyAll(st, snaps);
      st'.selfId == st.selfId && st'.local == st.local && st'.routing == st.routing && st.selfId !in st'.remote
    decreases |snaps|
  {
    if snaps != [] {
      ApplyAllFrame(ApplySnapshot(st, snaps[0]).0, snaps[1..]);
    }
  }

  /** What `b` would send about `o`. */
  ghost function AnswerAbout(net: Net, b: NodeId, o: NodeId): Snapshot
    requires b in net.nodes
  {
    SnapshotOf(o, if o == b then net.nodes[b].local else Held(net.nodes[b], o))
  }

  lemma AnswersAgree(net: Net, x: Exchange, o: NodeId, s: Snapshot)
    requires Inv(net) && ExchangeOk(net, x)
    requires s in x.answers && s.origin == o
    ensures s == AnswerAbout(net, x.b, o)
    ensures if o == x.b then AnswersSelf(net.nodes[x.b], BuildDigest(net.nodes[x.a]))
            else AnswersRemote(net.nodes[x.b], BuildDigest(net.nodes[x.a]), o)
  {
    assert s in Elements(x.answers);
    assert NodeOk(net, x.b);
  }

  /** The entry `a` holds for `o` after the exchange. */
  lemma ExchangeEntry(net: Net, x: Exchange, o: NodeId)
    requires Inv(net) && ExchangeOk(net, x) && o != x.a
    ensures var st, st', s := net.nodes[x.a], AfterExchange(net, x).nodes[x.a], AnswerAbout(net, x.b, o);
      && st'.selfId == st.selfId && st'.local == st.local && st'.routing == st.routing
      && if s in x.answers && Accepts(st, s) then o in st'.remote && st'.remote[o] == s.Content()
         else (o in st'.remote <==> o in st.remote) && Held(st', o) == Held(st, o)
  {
    assert NodeOk(net, x.a);
    forall s | s in x.answers && s.origin == o ensures s == AnswerAbout(net, x.b, o) {
      AnswersAgree(net, x, o, s);
    }
    ApplyAllEntry(net.nodes[x.a], x.answers, o, AnswerAbout(net, x.b, o));
  }

  /**
   * Forwarding: about every origin but the two themselves, the asker ends with the answerer's entry exactly when that
   * is at a higher version, and keeps its own otherwise.
   */
  lemma ExchangeForwards(net: Net, x: Exchange, o: NodeId)
    requires Inv(net) && ExchangeOk(net, x) && o != x.a && o != x.b
    ensures var a, b, a' := net.nodes[x.a], net.nodes[x.b], AfterExchange(net, x).nodes[x.a];
      if Held(b, o).version > Held(a, o).version then o in a'.remote && Held(a', o) == Held(b, o)
      else (o in a'.remote <==> o in a.remote) && Held(a', o) == Held(a, o)
  {
    assert NodeOk(net, x.a) && NodeOk(net, x.b);
    ExchangeEntry(net, x, o);
    var a, b, s := net.nodes[x.a], net.nodes[x.b], AnswerAbout(net, x.b, o);
    var digest := BuildDigest(a);
    assert o in digest <==> o in a.remote;
    if Held(b, o).version > Held(a, o).version {
      assert AnswersRemote(b, digest, o) && s in RespondToDigest(b, digest);
      assert s in Elements(x.answers);
    } else if s in x.answers {
      AnswersAgree(net, x, o, s);
    }
  }

  /** No answer to a digest is about the asker: it lists itself, and nobody is ahead of it. */
  lemma NoEcho(net: Net, x: Exchange, s: Snapshot)
    requires Inv(net) && ExchangeOk(net, x) && s in x.answers
    ensures s.origin != x.a
  {
    assert s in Elements(x.answers);
    assert NodeOk(net, x.a) && NodeOk(net, x.b);
    assert s.origin in net.nodes[x.b].remote ==> Behind(net, s.origin, net.nodes[x.b].remote[s.origin].version);
  }

  /** One exchange with the origin makes the entry exact, unless the hashes already collide. */
  lemma ExchangeRepairs(net: Net, x: Exchange)
    requires Inv(net) && ExchangeOk(net, x)
    ensures Exact(AfterExchange(net, x), x.a, x.b) <==> !Collides(net, x.a, x.b)
  {
    assert NodeOk(net, x.a) && NodeOk(net, x.b);
    ExchangeEntry(net, x, x.b);
    var a, b := net.nodes[x.a], net.nodes[x.b];
    var s := AnswerAbout(net, x.b, x.b);
    var digest := BuildDigest(a);
    assert x.b in digest <==> x.b in a.remote;
    assert AnswersSelf(b, digest) <==> s in RespondToDigest(b, digest);
    assert s in x.answers <==> s in Elements(x.answers);
  }

  lemma ExchangeKeepsInv(net: Net, x: Exchange)
    requires Inv(net) && ExchangeOk(net, x)
    ensures Inv(AfterExchange(net, x))
  {
    var net' := AfterExchange(net, x);
    assert NodeOk(net, x.a) && NodeOk(net, x.b);
    ApplyAllFrame(net.nodes[x.a], x.answers);
    forall o | o in net'.nodes[x.a].remote ensures Behind(net', o, net'.nodes[x.a].remote[o].version) {
      ExchangeEntry(net, x, o);
      if AnswerAbout(net, x.b, o) in x.answers {
        AnswersAgree(net, x, o, AnswerAbout(net, x.b, o));
      }
    }
    forall n | n in net'.nodes ensures NodeOk(net', n) {
      assert NodeOk(net, n);
    }
    forall m | m in net'.sent ensures MsgOk(net', m) {
      assert MsgOk(net, m);
    }
  }

  /** An entry at the origin's own version is never touched by forwarded snapshots. */
  lemma ExchangeLeavesCurrent(net: Net, x: Exchange, o: NodeId)
    requires Inv(net) && ExchangeOk(net, x)
    requires o in net.nodes && o != x.a && o != x.b
    requires Held(net.nodes[x.a], o).version == net.nodes[o].local.version
    ensures Held(AfterExchange(net, x).nodes[x.a], o) == Held(net.nodes[x.a], o)
    ensures o in AfterExchange(net, x).nodes[x.a].remote <==> o in net.nodes[x.a].remote
  {
    ExchangeEntry(net, x, o);
    assert NodeOk(net, x.b) && NodeOk(net, x.a);
    if AnswerAbout(net, x.b, o) in x.answers {
      AnswersAgree(net, x, o, AnswerAbout(net, x.b, o));
    }
  }

  lemma ExchangeKeepsExact(net: Net, x: Exchange, a: NodeId, o: NodeId)
    requires Inv(net) && ExchangeOk(net, x)
    requires a in net.nodes && o in net.nodes && a != o && Exact(net, a, o)
    ensures Exact(AfterExchange(net, x), a, o)
  {
    if a == x.a {
      if o == x.b {
        ExchangeRepairs(net, x);
      } else {
        ExchangeLeavesCurrent(net, x, o);
      }
      ApplyAllFrame(net.nodes[x.a], x.answers) by { assert NodeOk(net, x.a); }
    } else {
      ApplyAllFrame(net.nodes[x.a], x.answers) by { assert NodeOk(net, x.a); }
    }
  }

  lemma ExchangeKeepsCollision(net: Net, x: Exchange, a: NodeId, o: NodeId)
    requires Inv(net) && ExchangeOk(net, x)
    requires a in net.nodes && o in net.nodes && a != o && Collides(net, a, o)
    ensures Collides(AfterExchange(net, x), a, o)
  {
    assert NodeOk(net, a);
    ApplyAllFrame(net.nodes[x.a], x.answers) by { assert NodeOk(net, x.a); }
    if a == x.a && o != x.b {
      ExchangeLeavesCurrent(net, x, o);
    } else if a == x.a {
      ExchangeEntry(net, x, o);
      if AnswerAbout(net, x.b, o) in x.answers {
        AnswersAgree(net, x, o, AnswerAbout(net, x.b, o));
        assert false;
      }
    }
  }

  /** A collision after an exchange was there before, at the asker or at the node that answered. */
  lemma ExchangeAddsNoCollision(net: Net, x: Exchange, a: NodeId, o: NodeId)
    requires Inv(net) && ExchangeOk(net, x)
    requires a in net.nodes && o in net.nodes && a != o && Collides(AfterExchange(net, x), a, o)
    ensures Collides(net, a, o) || (o != x.b && Collides(net, x.b, o))
  {
    ApplyAllFrame(net.nodes[x.a], x.answers) by { assert NodeOk(net, x.a); }
    if a == x.a {
      ExchangeEntry(net, x, o);
      if AnswerAbout(net, x.b, o) in x.answers {
        AnswersAgree(net, x, o, AnswerAbout(net, x.b, o));
      }
    }
  }

  // ── an exchange is a run of protocol steps ──

  lemma {:induction false} RunSnoc(a: Net, steps: seq<Step>, b: Net, step: Step)
    requires Run(a, steps, b) && Enabled(b, step)
    ensures Run(a, steps + [step], Next(b, step))
    decreases |steps|
  {
    if steps != [] {
      RunSnoc(Next(a, steps[0]), steps[1..], b, step);
      assert (steps + [step])[1..] == steps[1..] + [step];
    }
  }

  /** The asker receives the answers one by one. */
  lemma {:induction false} DeliverEach(a: Net, steps: seq<Step>, b: Net, n: NodeId, snaps: seq<Snapshot>)
    returns (steps': seq<Step>, b': Net)
    requires Run(a, steps, b) && n in b.nodes && forall s | s in snaps :: SnapshotMsg(s) in b.sent
    ensures Run(a, steps', b') && b'.sent == b.sent
    ensures b'.nodes == b.nodes[n := ApplyAll(b.nodes[n], snaps)]
    decreases |snaps|
  {
    if snaps == [] {
      assert b.nodes == b.nodes[n := b.nodes[n]];
      return steps, b;
    }
    var step := DeliverSnapshot(n, snaps[0]);
    RunSnoc(a, steps, b, step);
    steps', b' := DeliverEach(a, steps + [step], Next(b, step), n, snaps[1..]);
    assert b.nodes[n := Next(b, step).nodes[n]][n := b'.nodes[n]] == b.nodes[n := b'.nodes[n]];
  }

  /** Sending a digest, answering it and applying the answers does what one exchange is defined to do. */
  lemma ExchangeIsRun(net: Net, x: Exchange) returns (steps: seq<Step>, net': Net)
    requires ExchangeOk(net, x)
    ensures Run(net, steps, net') && net'.nodes == AfterExchange(net, x).nodes && net.sent <= net'.sent
  {
    var digest := BuildDigest(net.nodes[x.a]);
    var asked := Next(net, SendDigest(x.a));
    assert Run(net, [], net);
    RunSnoc(net, [], net, SendDigest(x.a));
    RunSnoc(net, [] + [SendDigest(x.a)], asked, AnswerDigest(x.b, digest));
    var answered := Next(asked, AnswerDigest(x.b, digest));
    forall s | s in x.answers ensures SnapshotMsg(s) in answered.sent {
      assert s in Elements(x.answers);
    }
    steps, net' := DeliverEach(net, [] + [SendDigest(x.a)] + [AnswerDigest(x.b, digest)], answered, x.a, x.answers);
  }

  // ── a settling pass ──

  ghost predicate Pass(a: Net, xs: seq<Exchange>, b: Net)
    decreases |xs|
  {
    if xs == [] then a == b
    else ExchangeOk(a, xs[0]) && Pass(AfterExchange(a, xs[0]), xs[1..], b)
  }

  /** Every ordered pair exchanged digests at least once. */
  ghost predicate CoversAllPairs(net: Net, xs: seq<Exchange>)
  {
    forall a, b | a in net.nodes && b in net.nodes && a != b :: exists x :: x in xs && x.a == a && x.b == b
  }

  /** Digests change tables, never what a node hosts. */
  ghost predicate SameLocals(a: Net, b: Net)
  {
    && a.nodes.Keys == b.nodes.Keys
    && forall n | n in a.nodes :: b.nodes[n].local == a.nodes[n].local && b.nodes[n].routing == a.nodes[n].routing
  }

  lemma ExchangeKeepsLocals(net: Net, x: Exchange)
    requires Inv(net) && ExchangeOk(net, x)
    ensures SameLocals(net, AfterExchange(net, x))
  {
    ApplyAllFrame(net.nodes[x.a], x.answers) by { assert NodeOk(net, x.a); }
  }

  lemma {:induction false} PassKeepsInv(a: Net, xs: seq<Exchange>, b: Net)
    requires Inv(a) && Pass(a, xs, b)
    ensures Inv(b) && SameLocals(a, b)
    decreases |xs|
  {
    if xs != [] {
      ExchangeKeepsInv(a, xs[0]);
      ExchangeKeepsLocals(a, xs[0]);
      PassKeepsInv(AfterExchange(a, xs[0]), xs[1..], b);
    }
  }

  /** During a pass an exact entry stays exact and a blind spot stays blind. */
  lemma {:induction false} PassKeepsEntry(a: Net, xs: seq<Exchange>, b: Net, n: NodeId, o: NodeId)
    requires Inv(a) && Pass(a, xs, b) && n in a.nodes && o in a.nodes && n != o
    ensures n in b.nodes && o in b.nodes
    ensures Exact(a, n, o) ==> Exact(b, n, o)
    ensures Collides(a, n, o) ==> Collides(b, n, o)
    decreases |xs|
  {
    if xs != [] {
      ExchangeKeepsInv(a, xs[0]);
      if Exact(a, n, o) {
        ExchangeKeepsExact(a, xs[0], n, o);
      }
      if Collides(a, n, o) {
        ExchangeKeepsCollision(a, xs[0], n, o);
      }
      PassKeepsEntry(AfterExchange(a, xs[0]), xs[1..], b, n, o);
    }
  }

  /** Every pair that exchanged during a collision-free pass ends exact. */
  lemma {:induction false} PassRepairs(a: Net, xs: seq<Exchange>, b: Net, n: NodeId, o: NodeId)
    requires Inv(a) && CollisionFree(a) && Pass(a, xs, b)
    requires exists x :: x in xs && x.a == n && x.b == o
    ensures n in b.nodes && o in b.nodes && n != o && Exact(b, n, o)
    decreases |xs|
  {
    var mid := AfterExchange(a, xs[0]);
    ExchangeKeepsInv(a, xs[0]);
    if xs[0].a == n && xs[0].b == o {
      ExchangeRepairs(a, xs[0]);
      PassKeepsEntry(mid, xs[1..], b, n, o);
    } else {
      forall p, q | p in mid.nodes && q in mid.nodes && p != q ensures !Collides(mid, p, q) {
        if Collides(mid, p, q) {
          ExchangeAddsNoCollision(a, xs[0], p, q);
        }
      }
      PassRepairs(mid, xs[1..], b, n, o);
    }
  }

  /**
   * Convergence. From any state the protocol can be in, one digest exchange per ordered pair, in any order
   * and with answers applied in any order, makes every table equal to what its origins host,
   * exactly when no table holds a wrong set that its origin's digest hash cannot distinguish.
   */
  lemma PassConverges(a: Net, xs: seq<Exchange>, b: Net)
    requires Inv(a) && Pass(a, xs, b) && CoversAllPairs(a, xs)
    ensures Converged(b) <==> CollisionFree(a)
  {
    PassKeepsInv(a, xs, b);
    if CollisionFree(a) {
      forall n, o | n in b.nodes && o in b.nodes && n != o ensures Exact(b, n, o) {
        PassRepairs(a, xs, b, n, o);
      }
    } else {
      var n, o :| n in a.nodes && o in a.nodes && n != o && Collides(a, n, o);
      PassKeepsEntry(a, xs, b, n, o);
      assert !Exact(b, n, o);
    }
  }

  // ── routing equals flood filtered by hosting ──

  /** The alive peers that really host the target. */
  ghost function Hosts(net: Net, a: NodeId, t: Target, alive: set<NodeId>): set<NodeId>
  {
    set o | o in alive && o in net.nodes && o != a && net.nodes[o].local.Hosts(t)
  }

  lemma RoutedAreHosts(net: Net, a: NodeId, t: Target, alive: set<NodeId>)
    requires Inv(net) && Converged(net) && a in net.nodes && net.nodes[a].routing.ByInterest?
    ensures Routed(net.nodes[a], t, alive) == Hosts(net, a, t, alive)
  {
    assert NodeOk(net, a);
    var st := net.nodes[a];
    forall o: NodeId
      ensures o in st.remote && o in alive && st.remote[o].Hosts(t) <==> o in Hosts(net, a, t, alive)
    {
      if o in net.nodes && o != a {
        assert Exact(net, a, o) && NodeOk(net, o);
      }
    }
  }

  /** In a converged cluster a relay goes to the alive hosts, in ascending order, each once. */
  lemma RoutesToHosts(net: Net, a: NodeId, t: Target, alive: set<NodeId>)
    requires Inv(net) && Converged(net) && a in net.nodes && net.nodes[a].routing.ByInterest?
    ensures InterestedPeers(net.nodes[a], t, alive) == SortedIds(Hosts(net, a, t, alive))
  {
    RoutedAreHosts(net, a, t, alive);
  }

  /** Interest routing against the flood lever: it skips only peers that do not host the target. */
  lemma NeverUnderDelivers(net: Net, a: NodeId, t: Target, alive: set<NodeId>)
    requires Inv(net) && Converged(net) && a in net.nodes && net.nodes[a].routing.ByInterest?
    requires alive <= net.nodes.Keys
    ensures var flooded := InterestedPeers(net.nodes[a].(routing := Flood), t, alive);
      forall p :: p in InterestedPeers(net.nodes[a], t, alive) <==> p in flooded && net.nodes[p].local.Hosts(t)
  {
    RoutedAreHosts(net, a, t, alive);
    assert NodeOk(net, a);
    forall p: NodeId, ids: set<NodeId> ensures p in SortedIds(ids) <==> p in ids {
      assert p in SortedIds(ids) <==> p in Elements(SortedIds(ids));
    }
  }

  lemma SameLocalsSameHosts(a: Net, b: Net, n: NodeId, t: Target, alive: set<NodeId>)
    requires SameLocals(a, b)
    ensures Hosts(a, n, t, alive) == Hosts(b, n, t, alive)
  {
    assert forall o :: o in Hosts(a, n, t, alive) <==> o in Hosts(b, n, t, alive);
  }

  /** End to end: any run from a fresh cluster, then one collision-free pass, then any routing decision. */
  lemma ChurnThenPassRoutesToHosts(start: Net, steps: seq<Step>, a: Net, xs: seq<Exchange>, b: Net,
    n: NodeId, t: Target, alive: set<NodeId>)
    requires Init(start) && Run(start, steps, a)
    requires Pass(a, xs, b) && CoversAllPairs(a, xs) && CollisionFree(a)
    requires n in a.nodes && a.nodes[n].routing.ByInterest?
    ensures n in b.nodes && InterestedPeers(b.nodes[n], t, alive) == SortedIds(Hosts(a, n, t, alive))
  {
    assert Inv(a) by { ReachableInv(start, steps, a); }
    assert Inv(b) && SameLocals(a, b) by { PassKeepsInv(a, xs, b); }
    assert Converged(b) by { PassConverges(a, xs, b); }
    SameLocalsSameHosts(a, b, n, t, alive);
    RoutesToHosts(b, n, t, alive);
  }

  // ── what a converged cluster survives ──

  /**
   * A delayed snapshot is accepted at an equal version, so a converged cluster stays converged under its
   * delivery exactly when it is about the receiver, older than the origin, or true.
   */
  lemma DelayedSnapshotStability(net: Net, n: NodeId, s: Snapshot)
    requires Inv(net) && Converged(net) && Enabled(net, DeliverSnapshot(n, s))
    ensures Converged(Next(net, DeliverSnapshot(n, s))) <==>
      s.origin == n || s.version < net.nodes[s.origin].local.version || s.Content() == net.nodes[s.origin].local
  {
    var net' := Next(net, DeliverSnapshot(n, s));
    assert MsgOk(net, SnapshotMsg(s)) && NodeOk(net, n);
    forall a, o | a in net.nodes && o in net.nodes && a != o && (a != n || o != s.origin)
      ensures Exact(net', a, o)
    {
      assert Exact(net, a, o);
    }
    if s.origin != n {
      assert Exact(net, n, s.origin) && NodeOk(net, s.origin);
      assert Converged(net') <==> Exact(net', n, s.origin);
    }
  }

  /** Everything else the wire or the node can do without a hosting change or a sweep is harmless. */
  lemma ConvergedIsStable(net: Net, step: Step)
    requires Inv(net) && Converged(net) && Enabled(net, step)
    requires step.DeliverEdge? || step.LinkUp? || step.SendDigest? || step.AnswerDigest? || step.Reroute?
    ensures Converged(Next(net, step))
  {
    var net' := Next(net, step);
    assert NodeOk(net, step.n);
    if step.DeliverEdge? {
      assert MsgOk(net, EdgeMsg(step.edge));
    }
    forall a, o | a in net.nodes && o in net.nodes && a != o ensures Exact(net', a, o) {
      assert Exact(net, a, o) && NodeOk(net, o);
    }
  }

  /** Every snapshot in flight is outdated or says what its origin hosts. */
  ghost predicate Truthful(net: Net)
  {
    forall s | SnapshotMsg(s) in net.sent :: s.origin in net.nodes && TrueSnapshot(net, s)
  }

  ghost predicate TrueSnapshot(net: Net, s: Snapshot)
    requires s.origin in net.nodes
  {
    s.version < net.nodes[s.origin].local.version || s.Content() == net.nodes[s.origin].local
  }

  lemma StepKeepsLocals(net: Net, step: Step)
    requires Enabled(net, step) && !step.Transition?
    ensures Next(net, step).nodes.Keys == net.nodes.Keys
    ensures forall n | n in net.nodes :: Next(net, step).nodes[n].local == net.nodes[n].local
  {
  }

  /** Converged nodes answer digests with the truth only. */
  lemma ConvergedAnswersTrue(net: Net, n: NodeId, digest: Digest, s: Snapshot)
    requires Inv(net) && Converged(net) && n in net.nodes && s in RespondToDigest(net.nodes[n], digest)
    ensures s.origin in net.nodes && s.Content() == net.nodes[s.origin].local
  {
    assert NodeOk(net, n);
    if s.origin != n {
      assert Behind(net, s.origin, net.nodes[n].remote[s.origin].version);
      assert Exact(net, n, s.origin);
    }
  }

  lemma QuietStepKeepsTruth(net: Net, step: Step, s: Snapshot)
    requires Inv(net) && Converged(net) && Truthful(net) && Enabled(net, step) && !step.Transition?
    requires SnapshotMsg(s) in Next(net, step).sent
    ensures s.origin in net.nodes && TrueSnapshot(Next(net, step), s)
  {
    StepKeepsLocals(net, step);
    if SnapshotMsg(s) !in net.sent {
      match step
      case AnswerDigest(n, d) => ConvergedAnswersTrue(net, n, d, s);
      case _ =>
    }
  }

  lemma QuietStep(net: Net, step: Step)
    requires Inv(net) && Converged(net) && Truthful(net) && Enabled(net, step) && !step.Transition? && !step.Sweep?
    ensures Converged(Next(net, step)) && Truthful(Next(net, step))
  {
    StepKeepsLocals(net, step);
    forall s | SnapshotMsg(s) in Next(net, step).sent
      ensures s.origin in net.nodes && TrueSnapshot(Next(net, step), s)
    {
      QuietStepKeepsTruth(net, step, s);
    }
    if step.DeliverSnapshot? {
      DelayedSnapshotStability(net, step.n, step.snap);
    } else {
      ConvergedIsStable(net, step);
    }
  }

  /**
   * A converged cluster with only outdated or true snapshots in flight stays converged for as long as nothing is hosted
   * anew or swept.
   */
  lemma {:induction false} QuietRunStaysConverged(a: Net, steps: seq<Step>, b: Net)
    requires Inv(a) && Converged(a) && Truthful(a) && Run(a, steps, b)
    requires forall i | 0 <= i < |steps| :: !steps[i].Transition? && !steps[i].Sweep?
    ensures Converged(b) && Truthful(b)
    decreases |steps|
  {
    if steps != [] {
      StepKeepsInv(a, steps[0]);
      QuietStep(a, steps[0]);
      QuietRunStaysConverged(Next(a, steps[0]), steps[1..], b);
    }
  }
}
