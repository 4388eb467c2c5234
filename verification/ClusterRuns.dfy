/**
 * Whole runs of the cluster: engine verbs in flight on every node, over the interest mesh
 * (crates/core/src/engine.rs, crates/mesh/src/node.rs).
 */
module ClusterRuns {
  import opened Prelude
  import opened Wire
  import opened Engine
  import E = EngineSteps
  import V = EngineVerbs
  import I = Interest
  import M = InterestCluster

  type NodeId = I.NodeId

  type Tasks = map<E.Key, E.Task>

  /** Every node, its verbs in flight, and all interest messages ever sent. */
  datatype Cluster = Cluster(nodes: map<NodeId, Node>, tasks: map<NodeId, Tasks>, sent: set<M.Msg>)

  /** The interest tables of the cluster, as the mesh sees them. */
  function Mesh(c: Cluster): M.Net
  {
    M.Net(map n | n in c.nodes :: c.nodes[n].interest, c.sent)
  }

  /** One node with its verbs in flight. */
  function BusyAt(c: Cluster, n: NodeId): E.Busy
    requires n in c.nodes
  {
    E.Busy(c.nodes[n], if n in c.tasks then c.tasks[n] else map[])
  }

  function EdgeMsgs(edges: seq<I.Edge>): set<M.Msg>
  {
    set e | e in edges :: M.EdgeMsg(e)
  }

  /** Node `n` has moved on to `b`, having sent `edges`. */
  function After(c: Cluster, n: NodeId, b: E.Busy, edges: seq<I.Edge>): Cluster
  {
    Cluster(c.nodes[n := b.node], c.tasks[n := b.tasks], c.sent + EdgeMsgs(edges))
  }

  /** The same engines over changed interest tables. */
  ghost function Over(c: Cluster, net: M.Net): Cluster
  {
    Cluster(
      map n | n in c.nodes :: if n in net.nodes then c.nodes[n].(interest := net.nodes[n]) else c.nodes[n],
      c.tasks, net.sent)
  }

  datatype Step = EngineStep(n: NodeId, engine: E.Step) | MeshStep(mesh: M.Step)

  ghost predicate Enabled(c: Cluster, s: Step)
  {
    match s
    case EngineStep(n, step) => n in c.nodes && E.Enabled(BusyAt(c, n), step)
    case MeshStep(step) => !step.Transition? && M.Enabled(Mesh(c), step)
  }

  ghost function Next(c: Cluster, s: Step): Cluster
    requires Enabled(c, s)
  {
    match s
    case EngineStep(n, step) =>
      var (b, edges) := E.Next(BusyAt(c, n), step);
      After(c, n, b, edges)
    case MeshStep(step) => Over(c, M.Next(Mesh(c), step))
  }

  /** No verb is in flight anywhere. */
  ghost predicate Quiet(c: Cluster)
  {
    c.tasks.Keys == c.nodes.Keys && forall n | n in c.tasks :: c.tasks[n] == map[]
  }

  ghost predicate Init(c: Cluster)
  {
    && c.sent == {} && Quiet(c)
    && forall n | n in c.nodes ::
      c.nodes[n] == Node(map[], map[], map[], map[], map[], I.Fresh(n, c.nodes[n].interest.routing))
  }

  ghost predicate Run(a: Cluster, steps: seq<Step>, b: Cluster)
    decreases |steps|
  {
    if steps == [] then a == b else Enabled(a, steps[0]) && Run(Next(a, steps[0]), steps[1..], b)
  }

  // ── the invariant ──

  /** Indexes mirror the entries on every node, and nothing on the mesh is ahead of its origin. */
  ghost predicate Inv(c: Cluster)
  {
    M.Inv(Mesh(c)) && forall n | n in c.nodes :: E.IndexesHold(BusyAt(c, n))
  }

  /** A net in which `n` has moved on to `st`, having sent `edges`. */
  function Moved(net: M.Net, n: NodeId, st: I.State, edges: seq<I.Edge>): M.Net
  {
    M.Net(net.nodes[n := st], net.sent + EdgeMsgs(edges))
  }

  lemma AdvertiseKeepsMesh(net: M.Net, n: NodeId, t: I.Target, hosting: bool)
    requires M.Inv(net) && n in net.nodes
    ensures var (st, edges) := Advertise(net.nodes[n], t, hosting); M.Inv(Moved(net, n, st, edges))
  {
    var (st, edges) := Advertise(net.nodes[n], t, hosting);
    M.StepKeepsInv(net, M.Transition(n, t, hosting));
    var edge := I.LocalSet(net.nodes[n], t, hosting).1;
    assert EdgeMsgs(edges) == if edge.Some? then {M.EdgeMsg(edge.value)} else {};
    assert Moved(net, n, st, edges) == M.Next(net, M.Transition(n, t, hosting));
  }

  lemma NotMoved(net: M.Net, n: NodeId)
    requires n in net.nodes
    ensures Moved(net, n, net.nodes[n], []) == net
  {
    assert net.nodes[n := net.nodes[n]] == net.nodes;
  }

  lemma MeshAfter(c: Cluster, n: NodeId, b: E.Busy, edges: seq<I.Edge>)
    requires n in c.nodes
    ensures Mesh(After(c, n, b, edges)) == Moved(Mesh(c), n, b.node.interest, edges)
  {
    assert Mesh(After(c, n, b, edges)).nodes == Mesh(c).nodes[n := b.node.interest];
  }

  /** A step advertises or withdraws one name at most. */
  lemma EngineStepInterest(b: E.Busy, step: E.Step)
    requires E.Enabled(b, step)
    ensures var (b', edges) := E.Next(b, step);
      match E.Sets(b, step)
      case None => b'.node.interest == b.node.interest && edges == []
      case Some((t, hosting)) => (b'.node.interest, edges) == Advertise(b.node.interest, t, hosting)
  {
  }

  lemma EngineStepKeepsMesh(c: Cluster, n: NodeId, step: E.Step)
    requires M.Inv(Mesh(c)) && n in c.nodes && E.Enabled(BusyAt(c, n), step)
    ensures M.Inv(Mesh(Next(c, EngineStep(n, step))))
  {
    var b := BusyAt(c, n);
    var (b', edges) := E.Next(b, step);
    EngineStepInterest(b, step);
    MeshAfter(c, n, b', edges);
    match E.Sets(b, step)
    case None => NotMoved(Mesh(c), n);
    case Some((t, hosting)) => AdvertiseKeepsMesh(Mesh(c), n, t, hosting);
  }

  lemma OverMesh(c: Cluster, net: M.Net)
    requires net.nodes.Keys == c.nodes.Keys
    ensures Mesh(Over(c, net)) == net
  {
    assert Mesh(Over(c, net)).nodes == net.nodes;
  }

  /** The indexes do not depend on the interest table. */
  lemma SameIndexes(b: E.Busy, st: I.State)
    requires E.IndexesHold(b)
    ensures E.IndexesHold(b.(node := b.node.(interest := st)))
  {
    var b' := b.(node := b.node.(interest := st));
    forall id ensures E.OwnOk(b', id) {
      assert E.OwnOk(b, id);
    }
    forall r, id ensures E.RoomOk(b', r, id) && E.UserOk(b', r, id) {
      assert E.RoomOk(b, r, id) && E.UserOk(b, r, id);
    }
  }

  lemma OverKeepsInv(c: Cluster, net: M.Net)
    requires Inv(c) && M.Inv(net) && net.nodes.Keys == c.nodes.Keys
    ensures Inv(Over(c, net)) && Mesh(Over(c, net)) == net
  {
    OverMesh(c, net);
    forall n | n in c.nodes ensures E.IndexesHold(BusyAt(Over(c, net), n)) {
      SameIndexes(BusyAt(c, n), net.nodes[n]);
    }
  }

  lemma StepKeepsInv(c: Cluster, s: Step)
    requires Inv(c) && Enabled(c, s)
    ensures Inv(Next(c, s))
  {
    match s
    case EngineStep(n, step) => EngineStepKeepsInv(c, n, step);
    case MeshStep(step) => MeshStepKeepsInv(c, step);
  }

  lemma MeshStepKeepsInv(c: Cluster, step: M.Step)
    requires Inv(c) && Enabled(c, MeshStep(step))
    ensures Inv(Next(c, MeshStep(step)))
  {
    M.StepKeepsInv(Mesh(c), step);
    M.StepKeepsLocals(Mesh(c), step);
    OverKeepsInv(c, M.Next(Mesh(c), step));
  }

  lemma EngineStepKeepsInv(c: Cluster, n: NodeId, step: E.Step)
    requires Inv(c) && Enabled(c, EngineStep(n, step))
    ensures Inv(Next(c, EngineStep(n, step)))
  {
    var (b, edges) := E.Next(BusyAt(c, n), step);
    EngineStepKeepsMesh(c, n, step);
    E.StepKeepsIndexes(BusyAt(c, n), step);
    AfterKeepsIndexes(c, n, b, edges);
  }

  lemma AfterKeepsIndexes(c: Cluster, n: NodeId, b: E.Busy, edges: seq<I.Edge>)
    requires n in c.nodes && E.IndexesHold(b) && forall m | m in c.nodes :: E.IndexesHold(BusyAt(c, m))
    ensures forall m | m in After(c, n, b, edges).nodes :: E.IndexesHold(BusyAt(After(c, n, b, edges), m))
  {
    forall m | m in c.nodes ensures E.IndexesHold(BusyAt(After(c, n, b, edges), m)) {
      assert BusyAt(After(c, n, b, edges), m) == if m == n then b else BusyAt(c, m);
    }
  }

  lemma {:induction false} RunKeepsInv(a: Cluster, steps: seq<Step>, b: Cluster)
    requires Inv(a) && Run(a, steps, b)
    ensures Inv(b)
    decreases |steps|
  {
    if steps != [] {
      StepKeepsInv(a, steps[0]);
      RunKeepsInv(Next(a, steps[0]), steps[1..], b);
    }
  }

  lemma InitInv(c: Cluster)
    requires Init(c)
    ensures Inv(c)
  {
    forall n | n in c.nodes ensures M.NodeOk(Mesh(c), n) && E.IndexesHold(BusyAt(c, n)) {
      FreshHolds(BusyAt(c, n));
    }
  }

  lemma FreshHolds(b: E.Busy)
    requires b.tasks == map[] && b.node == Node(map[], map[], map[], map[], map[], b.node.interest)
    ensures E.IndexesHold(b)
  {
  }

  // ── what is advertised, over every run ──

  /** Whether `t` was lost at `n` since its last arrival, and overstayed there since its last departure. */
  ghost function History(a: Cluster, steps: seq<Step>, n: NodeId, t: I.Target, lost: bool, over: bool): (bool, bool)
    decreases |steps|
  {
    if steps == [] || !Enabled(a, steps[0]) then (lost, over)
    else
      var (lost', over') := HistoryAfter(a, steps[0], n, t, lost, over);
      History(Next(a, steps[0]), steps[1..], n, t, lost', over')
  }

  ghost function HistoryAfter(c: Cluster, s: Step, n: NodeId, t: I.Target, lost: bool, over: bool): (bool, bool)
    requires Enabled(c, s)
  {
    if s.EngineStep? && s.n == n
    then (E.LostAfter(BusyAt(c, n), s.engine, t, lost), E.OverAfter(BusyAt(c, n), s.engine, t, over))
    else (lost, over)
  }

  /** Mesh traffic and other nodes' verbs leave what `n` hosts, advertises and has in flight alone. */
  lemma Elsewhere(c: Cluster, s: Step, n: NodeId)
    requires Enabled(c, s) && n in c.nodes && !(s.EngineStep? && s.n == n)
    ensures n in Next(c, s).nodes && BusyAt(Next(c, s), n).tasks == BusyAt(c, n).tasks
    ensures var n0, n1 := c.nodes[n], Next(c, s).nodes[n];
      n1 == n0.(interest := n1.interest) && n1.interest.local == n0.interest.local
  {
    if s.MeshStep? {
      M.StepKeepsLocals(Mesh(c), s.mesh);
    }
  }

  lemma SameView(b: E.Busy, b': E.Busy, t: I.Target, lost: bool, over: bool)
    requires b'.tasks == b.tasks && b'.node == b.node.(interest := b'.node.interest)
    requires b'.node.interest.local == b.node.interest.local && E.Tracks(b, t, lost, over)
    ensures E.Tracks(b', t, lost, over)
  {
    assert E.Arriving(b', t) <==> E.Arriving(b, t);
    assert E.Departing(b', t) <==> E.Departing(b, t);
  }

  lemma {:induction false} RunTracks(a: Cluster, steps: seq<Step>, c: Cluster, n: NodeId, t: I.Target,
    lost: bool, over: bool)
    requires Inv(a) && Run(a, steps, c) && n in a.nodes && E.Tracks(BusyAt(a, n), t, lost, over)
    ensures n in c.nodes
    ensures var (lost', over') := History(a, steps, n, t, lost, over); E.Tracks(BusyAt(c, n), t, lost', over')
    decreases |steps|
  {
    if steps != [] {
      var (lost1, over1) := HistoryAfter(a, steps[0], n, t, lost, over);
      StepKeepsInv(a, steps[0]);
      StepTracksAt(a, steps[0], n, t, lost, over);
      RunTracks(Next(a, steps[0]), steps[1..], c, n, t, lost1, over1);
    }
  }

  lemma StepTracksAt(c: Cluster, s: Step, n: NodeId, t: I.Target, lost: bool, over: bool)
    requires Inv(c) && Enabled(c, s) && n in c.nodes && E.Tracks(BusyAt(c, n), t, lost, over)
    ensures n in Next(c, s).nodes
    ensures var (lost', over') := HistoryAfter(c, s, n, t, lost, over); E.Tracks(BusyAt(Next(c, s), n), t, lost', over')
  {
    if s.EngineStep? && s.n == n {
      E.StepTracks(BusyAt(c, n), s.engine, t, lost, over);
      assert BusyAt(Next(c, s), n) == E.Next(BusyAt(c, n), s.engine).0;
    } else {
      Elsewhere(c, s, n);
      SameView(BusyAt(c, n), BusyAt(Next(c, s), n), t, lost, over);
    }
  }

  /**
   * Exactly when the advertisement is right, for every run and every room or user. A name with members and no arrival
   * in flight is advertised if and only if no step since its last arrival lost it. A name without members and no
   * departure in flight is advertised if and only if a step since its last departure overstayed.
   */
  lemma AdvertisedExactly(start: Cluster, steps: seq<Step>, c: Cluster, n: NodeId, t: I.Target)
    requires Init(start) && Run(start, steps, c) && n in start.nodes
    ensures n in c.nodes
    ensures var b, (lost, over) := BusyAt(c, n), History(start, steps, n, t, false, false);
      && (E.Here(b.node, t) != {} && !E.Arriving(b, t) ==> (E.Hosts(b.node, t) <==> !lost))
      && (E.Here(b.node, t) == {} && !E.Departing(b, t) ==> (E.Hosts(b.node, t) <==> over))
  {
    InitInv(start);
    RunTracks(start, steps, c, n, t, false, false);
  }

  /** Both indexes mirror the entries up to the verbs in flight, and exactly once there are none. */
  lemma IndexesMirror(start: Cluster, steps: seq<Step>, c: Cluster, n: NodeId, name: Name, id: u64)
    requires Init(start) && Run(start, steps, c) && n in c.nodes
    ensures E.RoomOk(BusyAt(c, n), name, id) && E.UserOk(BusyAt(c, n), name, id)
    ensures BusyAt(c, n).tasks == map[] ==> IndexesOk(c.nodes[n])
  {
    InitInv(start);
    RunKeepsInv(start, steps, c);
    assert E.IndexesHold(BusyAt(c, n));
    if BusyAt(c, n).tasks == map[] {
      E.QuietIndexes(BusyAt(c, n));
    }
  }

  // ── windows kept apart ──

  /** No arrival at `t` on node `n` overlaps another arrival or a departure. */
  ghost predicate OrderlyOn(a: Cluster, steps: seq<Step>, n: NodeId, t: I.Target)
    decreases |steps|
  {
    steps == [] ||
    (&& Enabled(a, steps[0])
     && (steps[0].EngineStep? && steps[0].n == n ==> E.OrderlyStep(BusyAt(a, n), steps[0].engine, t))
     && OrderlyOn(Next(a, steps[0]), steps[1..], n, t))
  }

  lemma SameApart(b: E.Busy, b': E.Busy, t: I.Target)
    requires b'.tasks == b.tasks && b'.node == b.node.(interest := b'.node.interest)
    requires b'.node.interest.local == b.node.interest.local && E.Apart(b, t)
    ensures E.Apart(b', t)
  {
    assert E.Arriving(b', t) <==> E.Arriving(b, t);
    assert E.Departing(b', t) <==> E.Departing(b, t);
    forall k ensures E.ArrivalOk(b', t, k) && E.WithdrawalOk(b', t, k) {
      assert E.ArrivalOk(b, t, k) && E.WithdrawalOk(b, t, k);
      assert E.ArrivingBut(b', t, Some(k)) <==> E.ArrivingBut(b, t, Some(k));
    }
  }

  lemma {:induction false} OrderlyLosesNothing(a: Cluster, steps: seq<Step>, c: Cluster, n: NodeId,
    t: I.Target, over: bool)
    requires Inv(a) && Run(a, steps, c) && n in a.nodes && OrderlyOn(a, steps, n, t) && E.Apart(BusyAt(a, n), t)
    ensures n in c.nodes && E.Apart(BusyAt(c, n), t) && !History(a, steps, n, t, false, over).0
    decreases |steps|
  {
    if steps != [] {
      StepKeepsInv(a, steps[0]);
      OrderlyStepLosesNothing(a, steps[0], n, t, over);
      OrderlyLosesNothing(Next(a, steps[0]), steps[1..], c, n, t, HistoryAfter(a, steps[0], n, t, false, over).1);
    }
  }

  lemma OrderlyStepLosesNothing(c: Cluster, s: Step, n: NodeId, t: I.Target, over: bool)
    requires Inv(c) && Enabled(c, s) && n in c.nodes && E.Apart(BusyAt(c, n), t)
    requires s.EngineStep? && s.n == n ==> E.OrderlyStep(BusyAt(c, n), s.engine, t)
    ensures n in Next(c, s).nodes && E.Apart(BusyAt(Next(c, s), n), t) && !HistoryAfter(c, s, n, t, false, over).0
  {
    if s.EngineStep? && s.n == n {
      E.StepKeepsApart(BusyAt(c, n), s.engine, t);
      E.ApartLosesNothing(BusyAt(c, n), s.engine, t);
      assert BusyAt(Next(c, s), n) == E.Next(BusyAt(c, n), s.engine).0;
    } else {
      Elsewhere(c, s, n);
      SameApart(BusyAt(c, n), BusyAt(Next(c, s), n), t);
    }
  }

  lemma FreshIsApart(b: E.Busy, t: I.Target)
    requires b.tasks == map[] && E.Here(b.node, t) == {}
    ensures E.Apart(b, t)
  {
  }

  /**
   * If no arrival at a name overlaps another arrival at it or a departure from it, then over every run of engines and
   * mesh a node that has members of it advertises it or is about to.
   */
  lemma HostedStaysAdvertised(start: Cluster, steps: seq<Step>, c: Cluster, n: NodeId, t: I.Target)
    requires Init(start) && Run(start, steps, c) && n in start.nodes && OrderlyOn(start, steps, n, t)
    ensures n in c.nodes && !History(start, steps, n, t, false, false).0
    ensures E.Here(c.nodes[n], t) != {} ==> E.Hosts(c.nodes[n], t) || E.Arriving(BusyAt(c, n), t)
  {
    InitInv(start);
    FreshIsApart(BusyAt(start, n), t);
    OrderlyLosesNothing(start, steps, c, n, t, false);
  }

  // ── verbs run without interruption ──

  datatype Whole = WholeVerb(n: NodeId, verb: Verb) | WholeMesh(mesh: M.Step)

  ghost predicate WholeEnabled(c: Cluster, w: Whole)
  {
    match w
    case WholeVerb(n, verb) =>
      n in c.nodes && VerbOk(c.nodes[n], verb) && (verb.Disconnect? ==> Distinct(verb.order))
    case WholeMesh(step) => Enabled(c, MeshStep(step))
  }

  ghost function WholeNext(c: Cluster, w: Whole): Cluster
    requires WholeEnabled(c, w)
  {
    match w
    case WholeVerb(n, verb) =>
      var (node, edges) := Apply(c.nodes[n], verb);
      After(c, n, E.Busy(node, map[]), edges)
    case WholeMesh(step) => Next(c, MeshStep(step))
  }

  ghost predicate WholeRun(a: Cluster, ws: seq<Whole>, b: Cluster)
    decreases |ws|
  {
    if ws == [] then a == b else WholeEnabled(a, ws[0]) && WholeRun(WholeNext(a, ws[0]), ws[1..], b)
  }

  function Lifted(n: NodeId, steps: seq<E.Step>): seq<Step>
  {
    seq(|steps|, i requires 0 <= i < |steps| => EngineStep(n, steps[i]))
  }

  lemma AfterTwice(c: Cluster, n: NodeId, b1: E.Busy, e1: seq<I.Edge>, b2: E.Busy, e2: seq<I.Edge>)
    ensures After(After(c, n, b1, e1), n, b2, e2) == After(c, n, b2, e1 + e2)
  {
    assert EdgeMsgs(e1 + e2) == EdgeMsgs(e1) + EdgeMsgs(e2);
    assert c.nodes[n := b1.node][n := b2.node] == c.nodes[n := b2.node];
    assert c.tasks[n := b1.tasks][n := b2.tasks] == c.tasks[n := b2.tasks];
  }

  lemma AfterNothing(c: Cluster, n: NodeId)
    requires n in c.nodes && n in c.tasks
    ensures After(c, n, BusyAt(c, n), []) == c
  {
    assert c.nodes[n := c.nodes[n]] == c.nodes && c.tasks[n := c.tasks[n]] == c.tasks;
  }

  /** What one node does is a run of the cluster. */
  lemma {:induction false} NodeRunLifts(c: Cluster, n: NodeId, steps: seq<E.Step>, b: E.Busy, edges: seq<I.Edge>)
    requires n in c.nodes && n in c.tasks && E.Run(BusyAt(c, n), steps, b, edges)
    ensures Run(c, Lifted(n, steps), After(c, n, b, edges))
    decreases |steps|
  {
    if steps == [] {
      AfterNothing(c, n);
    } else {
      var (b1, sent) := E.Next(BusyAt(c, n), steps[0]);
      var next := After(c, n, b1, sent);
      NodeRunLifts(next, n, steps[1..], b, edges[|sent|..]);
      AfterTwice(c, n, b1, sent, b, edges[|sent|..]);
      assert sent + edges[|sent|..] == edges;
      assert Lifted(n, steps) == [EngineStep(n, steps[0])] + Lifted(n, steps[1..]);
      RunCons(c, EngineStep(n, steps[0]), Lifted(n, steps[1..]), After(c, n, b, edges));
    }
  }

  lemma {:induction false} OrderlyLifts(c: Cluster, n: NodeId, steps: seq<E.Step>, m: NodeId, t: I.Target)
    requires n in c.nodes && n in c.tasks && E.OrderlyRun(BusyAt(c, n), steps, t)
    ensures OrderlyOn(c, Lifted(n, steps), m, t)
    decreases |steps|
  {
    if steps != [] {
      var (b1, sent) := E.Next(BusyAt(c, n), steps[0]);
      OrderlyLifts(After(c, n, b1, sent), n, steps[1..], m, t);
      assert Lifted(n, steps)[1..] == Lifted(n, steps[1..]);
    }
  }

  lemma RunCons(a: Cluster, s: Step, rest: seq<Step>, b: Cluster)
    requires Enabled(a, s) && Run(Next(a, s), rest, b)
    ensures Run(a, [s] + rest, b)
  {
    assert ([s] + rest)[0] == s && ([s] + rest)[1..] == rest;
  }

  lemma OrderlyCons(a: Cluster, s: Step, rest: seq<Step>, n: NodeId, t: I.Target)
    requires Enabled(a, s) && OrderlyOn(Next(a, s), rest, n, t)
    requires s.EngineStep? && s.n == n ==> E.OrderlyStep(BusyAt(a, n), s.engine, t)
    ensures OrderlyOn(a, [s] + rest, n, t)
  {
    assert ([s] + rest)[0] == s && ([s] + rest)[1..] == rest;
  }

  lemma {:induction false} RunsJoin(a: Cluster, xs: seq<Step>, b: Cluster, ys: seq<Step>, c: Cluster)
    requires Run(a, xs, b) && Run(b, ys, c)
    ensures Run(a, xs + ys, c)
    decreases |xs|
  {
    if xs == [] {
      assert xs + ys == ys;
    } else {
      RunsJoin(Next(a, xs[0]), xs[1..], b, ys, c);
      RunCons(a, xs[0], xs[1..] + ys, c);
      E.Reassemble([xs[0]], xs, ys);
    }
  }

  lemma {:induction false} OrderlyJoins(a: Cluster, xs: seq<Step>, b: Cluster, ys: seq<Step>, n: NodeId, t: I.Target)
    requires Run(a, xs, b) && OrderlyOn(a, xs, n, t) && OrderlyOn(b, ys, n, t)
    ensures OrderlyOn(a, xs + ys, n, t)
    decreases |xs|
  {
    if xs == [] {
      assert xs + ys == ys;
    } else {
      OrderlyJoins(Next(a, xs[0]), xs[1..], b, ys, n, t);
      OrderlyCons(a, xs[0], xs[1..] + ys, n, t);
      E.Reassemble([xs[0]], xs, ys);
    }
  }

  lemma QuietIsOk(c: Cluster, n: NodeId)
    requires Inv(c) && Quiet(c) && n in c.nodes
    ensures BusyAt(c, n) == E.Busy(c.nodes[n], map[]) && IndexesOk(c.nodes[n])
  {
    E.QuietIndexes(BusyAt(c, n));
  }

  /** One whole verb, or one step of the mesh, as an orderly run. */
  lemma WholeIsRun(c: Cluster, w: Whole) returns (steps: seq<Step>)
    requires Inv(c) && Quiet(c) && WholeEnabled(c, w)
    ensures Run(c, steps, WholeNext(c, w)) && Quiet(WholeNext(c, w))
    ensures forall m, t :: OrderlyOn(c, steps, m, t)
  {
    match w
    case WholeVerb(n, verb) => steps := WholeVerbIsRun(c, n, verb);
    case WholeMesh(step) => steps := WholeMeshIsRun(c, step);
  }

  lemma WholeVerbIsRun(c: Cluster, n: NodeId, verb: Verb) returns (steps: seq<Step>)
    requires Inv(c) && Quiet(c) && WholeEnabled(c, WholeVerb(n, verb))
    ensures Run(c, steps, WholeNext(c, WholeVerb(n, verb))) && Quiet(WholeNext(c, WholeVerb(n, verb)))
    ensures forall m, t :: OrderlyOn(c, steps, m, t)
  {
    QuietIsOk(c, n);
    var own := V.VerbIsRun(c.nodes[n], verb);
    var (node, edges) := Apply(c.nodes[n], verb);
    NodeRunLifts(c, n, own, E.Busy(node, map[]), edges);
    QuietAfter(c, n, node, edges);
    steps := Lifted(n, own);
    forall m, t ensures OrderlyOn(c, steps, m, t) {
      OrderlyLifts(c, n, own, m, t);
    }
  }

  lemma QuietAfter(c: Cluster, n: NodeId, node: Node, edges: seq<I.Edge>)
    requires Quiet(c) && n in c.nodes
    ensures Quiet(After(c, n, E.Busy(node, map[]), edges))
  {
  }

  lemma WholeMeshIsRun(c: Cluster, step: M.Step) returns (steps: seq<Step>)
    requires Quiet(c) && Enabled(c, MeshStep(step))
    ensures Run(c, steps, Next(c, MeshStep(step))) && Quiet(Next(c, MeshStep(step)))
    ensures forall m, t :: OrderlyOn(c, steps, m, t)
  {
    var next := Next(c, MeshStep(step));
    steps := [MeshStep(step)] + [];
    assert Run(next, [], next);
    RunCons(c, MeshStep(step), [], next);
    forall m, t ensures OrderlyOn(c, steps, m, t) {
      OrderlyCons(c, MeshStep(step), [], m, t);
    }
  }

  /** Verbs that are never interrupted are a run in which no windows overlap on any name. */
  lemma {:induction false} WholeRunIsRun(a: Cluster, ws: seq<Whole>, c: Cluster) returns (steps: seq<Step>)
    requires Inv(a) && Quiet(a) && WholeRun(a, ws, c)
    ensures Run(a, steps, c) && Quiet(c) && forall n, t :: OrderlyOn(a, steps, n, t)
    decreases |ws|
  {
    if ws == [] {
      steps := [];
    } else {
      var next := WholeNext(a, ws[0]);
      var first := WholeIsRun(a, ws[0]);
      RunKeepsInv(a, first, next);
      var rest := WholeRunIsRun(next, ws[1..], c);
      RunsJoin(a, first, next, rest, c);
      steps := first + rest;
      forall n, t ensures OrderlyOn(a, steps, n, t) {
        OrderlyJoins(a, first, next, rest, n, t);
      }
    }
  }

  /** Both indexes mirror the entries, hosted rooms are advertised, and exactly the present users are. */
  ghost predicate NodeSound(n: Node)
  {
    && (forall r | r in n.rooms :: n.rooms[r] != {} && r in n.interest.local.rooms)
    && (forall u :: u in n.users <==> u in n.interest.local.users)
    && (forall r, id :: id in At(n.rooms, r) <==> id in n.entries && r in n.entries[id])
  }

  lemma OkIsSound(n: Node)
    requires IndexesOk(n) && Advertised(n)
    ensures NodeSound(n)
  {
    forall r, id ensures id in At(n.rooms, r) <==> id in n.entries && r in n.entries[id] {
      assert RoomSide(n, r, id);
    }
  }

  lemma WholeStepKeepsAdvertised(c: Cluster, w: Whole, n: NodeId)
    requires Inv(c) && Quiet(c) && WholeEnabled(c, w) && n in c.nodes && Advertised(c.nodes[n])
    ensures n in WholeNext(c, w).nodes && Advertised(WholeNext(c, w).nodes[n])
  {
    match w
    case WholeVerb(m, verb) =>
      if m == n {
        QuietIsOk(c, n);
        VerbKeeps(c.nodes[n], verb);
      }
    case WholeMesh(step) => M.StepKeepsLocals(Mesh(c), step);
  }

  lemma {:induction false} WholeRunKeepsAdvertised(a: Cluster, ws: seq<Whole>, c: Cluster, n: NodeId)
    requires Inv(a) && Quiet(a) && WholeRun(a, ws, c) && n in a.nodes && Advertised(a.nodes[n])
    ensures n in c.nodes && Advertised(c.nodes[n])
    decreases |ws|
  {
    if ws != [] {
      WholeStepKeepsAdvertised(a, ws[0], n);
      var first := WholeIsRun(a, ws[0]);
      RunKeepsInv(a, first, WholeNext(a, ws[0]));
      WholeRunKeepsAdvertised(WholeNext(a, ws[0]), ws[1..], c, n);
    }
  }

  /** With verbs that are never interrupted every node stays sound, whatever the mesh does. */
  lemma WholeVerbsStaySound(start: Cluster, ws: seq<Whole>, c: Cluster, n: NodeId)
    requires Init(start) && WholeRun(start, ws, c) && n in start.nodes
    ensures n in c.nodes && NodeSound(c.nodes[n])
  {
    InitInv(start);
    WholeRunKeepsAdvertised(start, ws, c, n);
    var steps := WholeRunIsRun(start, ws, c);
    RunKeepsInv(start, steps, c);
    QuietIsOk(c, n);
    OkIsSound(c.nodes[n]);
  }
}
