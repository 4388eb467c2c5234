/**
 * One broadcast across the cluster: local fan-out plus one hop over every link chosen
 * (crates/core/src/engine.rs, crates/core/src/cluster.rs, crates/mesh/src/node.rs).
 */
module ClusterDelivery {
  import opened Prelude
  import opened Wire
  import opened Fanout
  import opened Relay
  import opened Engine
  import opened RelayHop
  import opened ClusterRuns
  import E = EngineSteps
  import F = Frame
  import H = Handshake
  import I = Interest
  import M = InterestCluster
  import Mailbox
  import S = RelaySend

  // ── one broadcast ──

  datatype Command =
    Command(target: RelayTarget, payload: seq<byte>, isBinary: bool, except: seq<u64>, remoteExcept: seq<NodeConnId>)
  {
    function Payload(): Mailbox.Outbound
    {
      Mailbox.Outbound(payload, isBinary)
    }
  }

  function Excepts(a: NodeId, cmd: Command): seq<NodeConnId>
  {
    NodeExcepts(a, cmd.except) + cmd.remoteExcept
  }

  function FrameOf(a: NodeId, cmd: Command): F.Frame
  {
    RelayFrame(cmd.target, Excepts(a, cmd), cmd.payload, cmd.isBinary)
  }

  /** Each node's links, whom the sender believes alive, what else its links carry, and the order of every fan-out. */
  datatype Setting = Setting(
    links: map<NodeId, map<NodeId, S.LinkHandle>>,
    alive: set<NodeId>,
    traffic: map<NodeId, Traffic>,
    order: Orders)
  {
    function Handles(a: NodeId): S.Links
      requires a in links
    {
      S.Links(links[a], S.Report(0, 0, 0, 0))
    }

    /** The end of the link from `a` that `p` reads. */
    function ReaderAt(p: NodeId, a: NodeId): Reader
      requires p in links && a in links[p]
    {
      Reader(p, links[p][a].negotiated, order)
    }
  }

  /** The links of `a` lead to other nodes, and both ends of each came out of one handshake. */
  ghost predicate Wired(c: Cluster, w: Setting, a: NodeId)
  {
    && a in w.links && Listings(w.order)
    && forall p | p in w.links[a] ::
      && p in c.nodes && p != a && p in w.links && a in w.links[p] && p in w.traffic
      && TwoEnds(w.links[a][p].negotiated, w.links[p][a].negotiated)
  }

  function QueuesAfter(w: Setting, a: NodeId, peers: seq<NodeId>, fr: F.Frame): map<NodeId, S.LinkHandle>
    requires a in w.links
  {
    S.SendAll(w.Handles(a), peers, fr.kind, F.Encode(fr)).links
  }

  /** Every link of `a` carries only frames its peer will take, besides `fr`, and its writer catches up. */
  ghost predicate Carries(c: Cluster, w: Setting, a: NodeId, peers: seq<NodeId>, fr: F.Frame)
    requires Wired(c, w, a)
  {
    forall p | p in w.links[a] ::
      && p in QueuesAfter(w, a, peers, fr)
      && TrafficOk(w.traffic[p], w.links[a][p].queue, QueuesAfter(w, a, peers, fr)[p].queue,
                   w.links[p][a].negotiated.maxFrame)
  }

  /** One frame from `a` to the listed peers, and every peer of `a` reading its link dry. */
  ghost function Relayed(c: Cluster, w: Setting, a: NodeId, peers: seq<NodeId>, fr: F.Frame): map<NodeId, Node>
    requires Wired(c, w, a) && Carries(c, w, a, peers, fr)
  {
    map n | n in c.nodes ::
      if n in w.links[a]
      then Received(c.nodes[n], w.ReaderAt(n, a), QueuesAfter(w, a, peers, fr)[n].queue, w.traffic[n].events)
      else c.nodes[n]
  }

  /** Does the frame enter the queue to `n`? */
  predicate Queued(w: Setting, a: NodeId, peers: seq<NodeId>, fr: F.Frame, n: NodeId)
    requires a in w.links
  {
    n in peers && S.Reachable(w.Handles(a), n, fr.kind, F.Encode(fr))
  }

  /** Node `n` once it has handled what was queued to it before. */
  function Earlier(c: Cluster, w: Setting, a: NodeId, n: NodeId): Node
    requires n in c.nodes && n in w.links && a in w.links[n] && n in w.traffic
  {
    OnRaws(c.nodes[n], w.ReaderAt(n, a), Map(F.RawOf, w.traffic[n].before))
  }

  /** And the frames that follow. */
  function Later(node: Node, w: Setting, a: NodeId, n: NodeId): Node
    requires n in w.links && a in w.links[n] && n in w.traffic
  {
    OnRaws(node, w.ReaderAt(n, a), Map(F.RawOf, w.traffic[n].later))
  }

  /** A linked node handles the frame exactly once if it was queued and not too long, between its other frames. */
  lemma RelayedAt(c: Cluster, w: Setting, a: NodeId, peers: seq<NodeId>, fr: F.Frame, n: NodeId)
    requires Wired(c, w, a) && Carries(c, w, a, peers, fr) && Distinct(peers) && n in w.links[a]
    requires 2 + |fr.body| < 0x1_0000_0000
    ensures var mid, queued := Earlier(c, w, a, n), Queued(w, a, peers, fr, n);
      Relayed(c, w, a, peers, fr)[n] ==
        if queued && 2 + |fr.body| > w.links[a][n].negotiated.maxFrame then mid
        else Later(if queued then OnRaw(mid, w.ReaderAt(n, a), F.RawOf(fr)) else mid, w, a, n)
  {
    var rd, t := w.ReaderAt(n, a), w.traffic[n];
    var before, after := w.links[a][n].queue, QueuesAfter(w, a, peers, fr)[n].queue;
    assert TrafficOk(t, before, after, rd.link.maxFrame);
    EndsMatch(w.links[a][n].negotiated, rd.link, fr.kind);
    QueueAfter(w.Handles(a), peers, fr.kind, F.Encode(fr), n);
    OneHop(c.nodes[n], rd, before, after, t, fr, Queued(w, a, peers, fr, n));
  }

  // ── who the relay goes to ──

  /** Interest names of rooms and users; a broadcast to all has none. */
  function AsTarget(t: RelayTarget): I.Target
    requires !t.AllTarget?
  {
    if t.RoomTarget? then I.Room(t.name) else I.User(t.name)
  }

  /** Rooms and users are routed by interest among the peers alive, a broadcast to all goes over every link. */
  ghost function PeersFor(c: Cluster, w: Setting, a: NodeId, t: RelayTarget): seq<NodeId>
    requires a in c.nodes && a in w.links
  {
    if t.AllTarget? then I.SortedIds(w.links[a].Keys) else I.InterestedPeers(c.nodes[a].interest, AsTarget(t), w.alive)
  }

  /** The sender relays to `n`: over every link for a broadcast to all, else to the peers alive that advertise it. */
  predicate Within(c: Cluster, w: Setting, a: NodeId, t: RelayTarget, n: NodeId)
    requires a in c.nodes && n in c.nodes && a in w.links
  {
    if t.AllTarget? then n in w.links[a]
    else n in w.alive && (c.nodes[a].interest.routing.ByInterest? ==> E.Hosts(c.nodes[n], AsTarget(t)))
  }

  /** Room and user targets are routed by interest only once the tables have settled. */
  ghost predicate Settled(c: Cluster, a: NodeId, t: RelayTarget)
    requires a in c.nodes
  {
    c.nodes[a].interest.routing.ByInterest? ==> t.AllTarget? || M.Converged(Mesh(c))
  }

  /**
   * With converged tables interest routing picks exactly the peers alive that advertise the target; flooding picks all
   * alive and a broadcast to all every link, converged or not. None is picked twice, and never the sender.
   */
  lemma PeersCover(c: Cluster, w: Setting, a: NodeId, t: RelayTarget, n: NodeId)
    requires M.Inv(Mesh(c)) && a in c.nodes && n in c.nodes && n != a && Wired(c, w, a) && Settled(c, a, t)
    ensures var peers := PeersFor(c, w, a, t);
      Distinct(peers) && a !in peers && (n in peers <==> Within(c, w, a, t, n))
  {
    var peers := PeersFor(c, w, a, t);
    assert M.NodeOk(Mesh(c), a) && M.NodeOk(Mesh(c), n);
    assert forall p :: p in peers <==> p in Elements(peers);
    if !t.AllTarget? && c.nodes[a].interest.routing.ByInterest? {
      M.RoutedAreHosts(Mesh(c), a, AsTarget(t), w.alive);
      assert Mesh(c).nodes[n] == c.nodes[n].interest;
    }
  }

  // ── exactly once ──

  /**
   * Who a target means at a node, read off the connections themselves: those whose entry holds the room, those that
   * belong to the user and are past their bind, or all of them.
   */
  predicate Means(b: E.Busy, t: RelayTarget, id: u64)
  {
    && id in b.node.conns
    && match t
       case RoomTarget(name) => id in b.node.entries && name in b.node.entries[id]
       case UserTarget(name) => id in b.node.owner && b.node.owner[id] == name && !E.IsBinding(b, id)
       case AllTarget => true
  }

  /** The indexes that fan-out walks list exactly those, among the connections there are. */
  lemma RecipientsAreMeant(b: E.Busy, t: RelayTarget, id: u64)
    requires E.IndexesHold(b) && id in b.node.conns
    ensures id in Recipients(b.node, t) <==> Means(b, t, id)
  {
    assert E.OwnOk(b, id);
    match t
    case RoomTarget(name) => assert E.RoomOk(b, name, id);
    case UserTarget(name) => assert E.UserOk(b, name, id);
    case AllTarget =>
  }

  /** Who should get the payload at `n`: those the target means, minus the exceptions that name them. */
  function Addressed(c: Cluster, a: NodeId, cmd: Command, n: NodeId): set<u64>
    requires n in c.nodes
  {
    set id | id in c.nodes[n].conns && Means(BusyAt(c, n), cmd.target, id) &&
      if n == a then id !in cmd.except else NodeConnId(n, id) !in cmd.remoteExcept
  }

  /** At a peer the sender's own exceptions name nobody, and reading other frames first moves nobody. */
  lemma PeerAddressed(c: Cluster, a: NodeId, cmd: Command, n: NodeId, node: Node)
    requires n in c.nodes && n != a && E.IndexesHold(BusyAt(c, n)) && SameMembers(c.nodes[n], node)
    ensures Pushed(node, AddressedBy(node, n, cmd.target, Excepts(a, cmd)), cmd.Payload()) ==
      Pushed(node, Addressed(c, a, cmd, n), cmd.Payload())
  {
    assert Recipients(node, cmd.target) == Recipients(c.nodes[n], cmd.target);
    var listed := AddressedBy(node, n, cmd.target, Excepts(a, cmd));
    forall id | id in node.conns ensures id in listed <==> id in Addressed(c, a, cmd, n) {
      RecipientsAreMeant(BusyAt(c, n), cmd.target, id);
    }
    PushToSame(node.conns, listed, Addressed(c, a, cmd, n), cmd.Payload());
  }

  /** One push of the payload to each connection in `who`. */
  function Pushed(n: Node, who: set<u64>, f: Mailbox.Outbound): Node
  {
    n.(conns := PushTo(n.conns, who, f))
  }

  /** Local fan-out first, then one frame to every peer chosen. */
  ghost function Broadcast(c: Cluster, w: Setting, a: NodeId, cmd: Command): Cluster
    requires a in c.nodes && Wired(c, w, a) && Carries(c, w, a, PeersFor(c, w, a, cmd.target), FrameOf(a, cmd))
  {
    var local := FanOutAt(c.nodes[a], w.order, cmd.target, cmd.Payload(), cmd.except);
    c.(nodes := Relayed(c, w, a, PeersFor(c, w, a, cmd.target), FrameOf(a, cmd))[a := local])
  }

  lemma LocalPushes(c: Cluster, w: Setting, a: NodeId, cmd: Command)
    requires a in c.nodes && E.IndexesHold(BusyAt(c, a)) && Listings(w.order)
    ensures FanOutAt(c.nodes[a], w.order, cmd.target, cmd.Payload(), cmd.except) ==
      Pushed(c.nodes[a], Addressed(c, a, cmd, a), cmd.Payload())
  {
    var n, t, f := c.nodes[a], cmd.target, cmd.Payload();
    FanOutIsPushTo(n.conns, w.order(n, t), f, Elements(cmd.except), NO_REPORT);
    var listed := Recipients(n, t) - Elements(cmd.except);
    forall id | id in n.conns ensures id in listed <==> id in Addressed(c, a, cmd, a) {
      RecipientsAreMeant(BusyAt(c, a), t, id);
    }
    PushToSame(n.conns, listed, Addressed(c, a, cmd, a), f);
  }

  /** The node `n` reads the relay: one push to each connection addressed there. */
  lemma PeerPushes(c: Cluster, w: Setting, a: NodeId, cmd: Command, n: NodeId)
    requires Wired(c, w, a) && n in w.links[a] && Fits(cmd.target, Excepts(a, cmd))
    requires H.MayEmit(w.links[a][n].negotiated, KindOf(cmd.target)) && E.IndexesHold(BusyAt(c, n))
    ensures var mid := Earlier(c, w, a, n);
      OnRaw(mid, w.ReaderAt(n, a), F.RawOf(FrameOf(a, cmd))) == Pushed(mid, Addressed(c, a, cmd, n), cmd.Payload())
  {
    var mid, rd := Earlier(c, w, a, n), w.ReaderAt(n, a);
    ReadingKeepsMembers(c.nodes[n], rd, Map(F.RawOf, w.traffic[n].before));
    PeerAddressed(c, a, cmd, n, mid);
    RelayRead(mid, rd, w.links[a][n].negotiated, cmd.target, Excepts(a, cmd), cmd.payload, cmd.isBinary);
  }

  predicate TooLong(w: Setting, a: NodeId, cmd: Command, n: NodeId)
    requires a in w.links && n in w.links[a]
  {
    2 + |FrameOf(a, cmd).body| > w.links[a][n].negotiated.maxFrame
  }

  /** Does the relay get from `a` to `n`: relayed to, link up, feature negotiated, room in the queue? */
  predicate Reached(c: Cluster, w: Setting, a: NodeId, cmd: Command, n: NodeId)
    requires a in c.nodes && n in c.nodes && a in w.links
  {
    Within(c, w, a, cmd.target, n) && S.Reachable(w.Handles(a), n, KindOf(cmd.target), F.Encode(FrameOf(a, cmd)))
  }

  /** What a broadcast leaves at node `n`. */
  ghost predicate OnceAt(c: Cluster, w: Setting, a: NodeId, cmd: Command, n: NodeId, node: Node)
    requires a in c.nodes && n in c.nodes && Wired(c, w, a)
  {
    var who, f := Addressed(c, a, cmd, n), cmd.Payload();
    if n == a then node == Pushed(c.nodes[a], who, f)
    else if n !in w.links[a] then node == c.nodes[n]
    else
      var mid := Earlier(c, w, a, n);
      if Reached(c, w, a, cmd, n) && TooLong(w, a, cmd, n) then node == mid
      else node == Later(if Reached(c, w, a, cmd, n) then Pushed(mid, who, f) else mid, w, a, n)
  }

  /**
   * Exactly once, through the links. One broadcast pushes one copy to each addressed connection of the sender and of
   * every peer it reaches, between the frames the link carries before and after, and none to any other connection. A
   * peer that is not alive, does not advertise the target, has no link, lacks the feature or has a full queue gets
   * none, and neither does a peer whose negotiated maximum the frame exceeds: its link ends there. This for any order
   * of fan-out and any batching.
   */
  lemma ExactlyOnce(c: Cluster, w: Setting, a: NodeId, cmd: Command, n: NodeId)
    requires Inv(c) && a in c.nodes && n in c.nodes && Wired(c, w, a) && Settled(c, a, cmd.target)
    requires Carries(c, w, a, PeersFor(c, w, a, cmd.target), FrameOf(a, cmd))
    requires Fits(cmd.target, Excepts(a, cmd)) && 2 + |FrameOf(a, cmd).body| < 0x1_0000_0000
    ensures n in Broadcast(c, w, a, cmd).nodes && OnceAt(c, w, a, cmd, n, Broadcast(c, w, a, cmd).nodes[n])
  {
    if n == a {
      LocalPushes(c, w, a, cmd);
    } else if n in w.links[a] {
      PeersCover(c, w, a, cmd.target, n);
      PeerGetsOnce(c, w, a, cmd, n);
    }
  }

  lemma PeerGetsOnce(c: Cluster, w: Setting, a: NodeId, cmd: Command, n: NodeId)
    requires a in c.nodes && n in c.nodes && n != a && Wired(c, w, a) && n in w.links[a]
    requires E.IndexesHold(BusyAt(c, n))
    requires Carries(c, w, a, PeersFor(c, w, a, cmd.target), FrameOf(a, cmd))
    requires Fits(cmd.target, Excepts(a, cmd)) && 2 + |FrameOf(a, cmd).body| < 0x1_0000_0000
    requires var peers := PeersFor(c, w, a, cmd.target);
      Distinct(peers) && (n in peers <==> Within(c, w, a, cmd.target, n))
    ensures OnceAt(c, w, a, cmd, n, Relayed(c, w, a, PeersFor(c, w, a, cmd.target), FrameOf(a, cmd))[n])
  {
    var peers, fr := PeersFor(c, w, a, cmd.target), FrameOf(a, cmd);
    RelayedAt(c, w, a, peers, fr, n);
    if Queued(w, a, peers, fr, n) {
      PeerPushes(c, w, a, cmd, n);
    }
  }

  /**
   * A message to one connection goes over the link to its owner alone: one push there if that link takes it, and
   * nothing but the links' other frames anywhere else.
   */
  lemma SocketOnce(c: Cluster, w: Setting, a: NodeId, to: NodeConnId, payload: seq<byte>, isBinary: bool, n: NodeId)
    requires a in c.nodes && n in c.nodes && to.node != a && Wired(c, w, a)
    requires Carries(c, w, a, [to.node], SocketFrame(to.local, payload, isBinary)) && 10 + |payload| < 0x1_0000_0000
    ensures var fr := SocketFrame(to.local, payload, isBinary);
      var after, f := Relayed(c, w, a, [to.node], fr)[n], Mailbox.Outbound(payload, isBinary);
      if n !in w.links[a] then after == c.nodes[n]
      else
        var mid, queued := Earlier(c, w, a, n), Queued(w, a, [to.node], fr, n);
        if n == to.node && queued && 10 + |payload| > w.links[a][n].negotiated.maxFrame then after == mid
        else after == Later(if n == to.node && queued then Pushed(mid, {to.local}, f) else mid, w, a, n)
  {
    if n in w.links[a] {
      RelayedAt(c, w, a, [to.node], SocketFrame(to.local, payload, isBinary), n);
      if Queued(w, a, [to.node], SocketFrame(to.local, payload, isBinary), n) {
        SocketRead(Earlier(c, w, a, n), w.ReaderAt(n, a), w.links[a][n].negotiated, to.local, payload, isBinary);
      }
    }
  }

  // ── one connection ──

  /** The mailbox is open and the frame does not overflow it. */
  predicate HasRoom(h: Handle, f: Mailbox.Outbound)
  {
    !h.box.closed && !Mailbox.Overflows(h.box, f)
  }

  /** Connection `id` gets one push of the payload if it is in `who`, and is untouched otherwise. */
  ghost predicate DeliveredOnce(before: Node, after: Node, who: set<u64>, f: Mailbox.Outbound, id: u64)
    requires id in before.conns
  {
    id in after.conns &&
    var h, h' := before.conns[id], after.conns[id];
    if id !in who then h' == h
    else h' == PushHandle(h, f).0 && (HasRoom(h, f) ==> h'.box.items == h.box.items + [f])
  }

  /** Every node where the target means somebody advertises it, or need not. */
  ghost predicate AllAdvertise(c: Cluster, a: NodeId, t: RelayTarget)
    requires a in c.nodes
  {
    c.nodes[a].interest.routing.ByInterest? && !t.AllTarget? ==>
      forall n, id | n in c.nodes && Means(BusyAt(c, n), t, id) :: E.Hosts(c.nodes[n], AsTarget(t))
  }

  /** Every other node is alive and linked, and the links carry nothing else and have room for this. */
  ghost predicate Healthy(c: Cluster, w: Setting, a: NodeId, cmd: Command)
    requires a in c.nodes && Wired(c, w, a)
  {
    forall n | n in c.nodes && n != a ::
      && n in w.alive && n in w.links[a] && !TooLong(w, a, cmd, n)
      && S.Reachable(w.Handles(a), n, KindOf(cmd.target), F.Encode(FrameOf(a, cmd)))
      && w.traffic[n].before == [] && w.traffic[n].later == []
  }

  lemma HealthyPush(c: Cluster, w: Setting, a: NodeId, cmd: Command, n: NodeId, node: Node)
    requires a in c.nodes && n in c.nodes && n != a && Wired(c, w, a) && Healthy(c, w, a, cmd)
    requires AllAdvertise(c, a, cmd.target) && OnceAt(c, w, a, cmd, n, node)
    ensures node == Pushed(c.nodes[n], Addressed(c, a, cmd, n), cmd.Payload())
  {
    assert n in w.alive && n in w.links[a] && !TooLong(w, a, cmd, n);
    assert Map(F.RawOf, w.traffic[n].before) == [] && Map(F.RawOf, w.traffic[n].later) == [];
    if Addressed(c, a, cmd, n) == {} {
      PushToNobody(c.nodes[n], Addressed(c, a, cmd, n), cmd.Payload());
    } else {
      var id :| id in Addressed(c, a, cmd, n);
      assert Means(BusyAt(c, n), cmd.target, id);
      assert Reached(c, w, a, cmd, n);
    }
  }

  lemma PushedOnce(n: Node, who: set<u64>, f: Mailbox.Outbound, id: u64)
    requires id in n.conns
    ensures DeliveredOnce(n, Pushed(n, who, f), who, f, id)
  {
  }

  /**
   * With every link healthy and every host advertising, each connection of the cluster gets the payload once if it is
   * addressed, else nothing.
   */
  lemma HealthyDelivers(c: Cluster, w: Setting, a: NodeId, cmd: Command, n: NodeId, id: u64)
    requires Inv(c) && a in c.nodes && n in c.nodes && Wired(c, w, a) && Settled(c, a, cmd.target)
    requires Carries(c, w, a, PeersFor(c, w, a, cmd.target), FrameOf(a, cmd))
    requires Healthy(c, w, a, cmd) && AllAdvertise(c, a, cmd.target)
    requires Fits(cmd.target, Excepts(a, cmd)) && 2 + |FrameOf(a, cmd).body| < 0x1_0000_0000
    requires id in c.nodes[n].conns
    ensures n in Broadcast(c, w, a, cmd).nodes
    ensures DeliveredOnce(c.nodes[n], Broadcast(c, w, a, cmd).nodes[n], Addressed(c, a, cmd, n), cmd.Payload(), id)
  {
    var who, f := Addressed(c, a, cmd, n), cmd.Payload();
    assert Broadcast(c, w, a, cmd).nodes[n] == Pushed(c.nodes[n], who, f) by {
      ExactlyOnce(c, w, a, cmd, n);
      if n != a {
        HealthyPush(c, w, a, cmd, n, Broadcast(c, w, a, cmd).nodes[n]);
      }
    }
    PushedOnce(c.nodes[n], who, f, id);
  }

  // ── after any run ──

  lemma SettledOver(c: Cluster, net: M.Net)
    requires Inv(c) && M.Inv(net) && M.SameLocals(Mesh(c), net) && M.Converged(net)
    ensures net.nodes.Keys == c.nodes.Keys && Inv(Over(c, net)) && M.Converged(Mesh(Over(c, net)))
    ensures forall n | n in c.nodes :: Over(c, net).nodes[n].interest.local == c.nodes[n].interest.local
  {
    assert Mesh(c).nodes.Keys == c.nodes.Keys;
    forall n | n in net.nodes ensures net.nodes[n].local == c.nodes[n].interest.local {
      assert Mesh(c).nodes[n] == c.nodes[n].interest;
    }
    OverKeepsInv(c, net);
  }

  /** A digest pass settles the tables and leaves the engines, and what they advertise, as they were. */
  lemma PassSettles(c: Cluster, mesh: M.Net, xs: seq<M.Exchange>, net: M.Net)
    requires Inv(c) && mesh == Mesh(c)
    requires M.Pass(mesh, xs, net) && M.CoversAllPairs(mesh, xs) && M.CollisionFree(mesh)
    ensures net.nodes.Keys == c.nodes.Keys && Inv(Over(c, net)) && M.Converged(Mesh(Over(c, net)))
    ensures forall n | n in c.nodes :: Over(c, net).nodes[n].interest.local == c.nodes[n].interest.local
  {
    M.PassKeepsInv(mesh, xs, net);
    M.PassConverges(mesh, xs, net);
    SettledOver(c, net);
  }

  /**
   * End to end: from a fresh cluster, after any run of interleaved engine verbs, losses, partitions and sweeps, one
   * collision-free digest pass makes every broadcast that follows exactly-once through whatever links there are. A
   * room or user with members at `n` and no arrival in flight is advertised there, and so reached by interest routing,
   * if and only if the run did not lose it since its last arrival.
   */
  lemma ChurnThenPassDelivers(start: Cluster, steps: seq<Step>, c: Cluster, xs: seq<M.Exchange>, net: M.Net,
    c': Cluster, w: Setting, a: NodeId, cmd: Command, n: NodeId)
    requires Init(start) && Run(start, steps, c) && c' == Over(c, net)
    requires M.Pass(Mesh(c), xs, net) && M.CoversAllPairs(Mesh(c), xs) && M.CollisionFree(Mesh(c))
    requires a in c'.nodes && n in c'.nodes && n in start.nodes && Wired(c', w, a)
    requires Carries(c', w, a, PeersFor(c', w, a, cmd.target), FrameOf(a, cmd))
    requires Fits(cmd.target, Excepts(a, cmd)) && 2 + |FrameOf(a, cmd).body| < 0x1_0000_0000
    ensures net.nodes.Keys == c.nodes.Keys && n in Broadcast(c', w, a, cmd).nodes
    ensures OnceAt(c', w, a, cmd, n, Broadcast(c', w, a, cmd).nodes[n])
    ensures !cmd.target.AllTarget? ==> AdvertisedUnlessLost(start, steps, c, c', n, AsTarget(cmd.target))
  {
    RunThenPass(start, steps, c, xs, net);
    ExactlyOnce(c', w, a, cmd, n);
    if !cmd.target.AllTarget? {
      AdvertisedAfterPass(start, steps, c, net, n, AsTarget(cmd.target));
    }
  }

  lemma AdvertisedAfterPass(start: Cluster, steps: seq<Step>, c: Cluster, net: M.Net, n: NodeId, t: I.Target)
    requires Init(start) && Run(start, steps, c) && n in start.nodes && n in c.nodes && n in net.nodes
    requires Over(c, net).nodes[n].interest.local == c.nodes[n].interest.local
    ensures AdvertisedUnlessLost(start, steps, c, Over(c, net), n, t)
  {
    AdvertisedExactly(start, steps, c, n, t);
  }

  /** With members at `n` and no arrival in flight, `t` is advertised there exactly if the run did not lose it. */
  ghost predicate AdvertisedUnlessLost(start: Cluster, steps: seq<Step>, c: Cluster, c': Cluster,
    n: NodeId, t: I.Target)
    requires n in c.nodes && n in c'.nodes
  {
    E.Here(c'.nodes[n], t) != {} && !E.Arriving(BusyAt(c, n), t) ==>
      (E.Hosts(c'.nodes[n], t) <==> !History(start, steps, n, t, false, false).0)
  }

  lemma RunThenPass(start: Cluster, steps: seq<Step>, c: Cluster, xs: seq<M.Exchange>, net: M.Net)
    requires Init(start) && Run(start, steps, c)
    requires M.Pass(Mesh(c), xs, net) && M.CoversAllPairs(Mesh(c), xs) && M.CollisionFree(Mesh(c))
    ensures net.nodes.Keys == c.nodes.Keys && Inv(Over(c, net)) && M.Converged(Mesh(Over(c, net)))
    ensures forall n | n in c.nodes :: Over(c, net).nodes[n].interest.local == c.nodes[n].interest.local
  {
    InitInv(start);
    RunKeepsInv(start, steps, c);
    PassSettles(c, Mesh(c), xs, net);
  }

  /** No arrival at the target overlapped another arrival or a departure on any node, and none is in flight now. */
  ghost predicate OrderlyFor(start: Cluster, steps: seq<Step>, c: Cluster, t: RelayTarget)
  {
    t.AllTarget? || forall m | m in c.nodes :: OrderlyAt(start, steps, c, m, AsTarget(t))
  }

  ghost predicate OrderlyAt(start: Cluster, steps: seq<Step>, c: Cluster, m: NodeId, t: I.Target)
    requires m in c.nodes
  {
    m in start.nodes && OrderlyOn(start, steps, m, t) && !E.Arriving(BusyAt(c, m), t)
  }

  lemma OrderlyHosts(start: Cluster, steps: seq<Step>, c: Cluster, m: NodeId, t: I.Target, id: u64)
    requires Init(start) && Run(start, steps, c) && m in c.nodes
    requires OrderlyAt(start, steps, c, m, t) && id in E.Here(c.nodes[m], t)
    ensures E.Hosts(c.nodes[m], t)
  {
    HostedStaysAdvertised(start, steps, c, m, t);
  }

  lemma OverHosts(c: Cluster, net: M.Net, m: NodeId, t: I.Target)
    requires m in c.nodes && m in net.nodes && Over(c, net).nodes[m].interest.local == c.nodes[m].interest.local
    ensures E.Hosts(Over(c, net).nodes[m], t) == E.Hosts(c.nodes[m], t)
    ensures E.Here(Over(c, net).nodes[m], t) == E.Here(c.nodes[m], t)
  {
  }

  lemma MeantIsHere(b: E.Busy, t: RelayTarget, id: u64)
    requires E.IndexesHold(b) && !t.AllTarget? && Means(b, t, id)
    ensures id in E.Here(b.node, AsTarget(t))
  {
    RecipientsAreMeant(b, t, id);
  }

  lemma OrderlyAllAdvertise(start: Cluster, steps: seq<Step>, c: Cluster, net: M.Net, a: NodeId, t: RelayTarget)
    requires Init(start) && Run(start, steps, c) && net.nodes.Keys == c.nodes.Keys && a in c.nodes && Inv(Over(c, net))
    requires forall m | m in c.nodes :: Over(c, net).nodes[m].interest.local == c.nodes[m].interest.local
    requires OrderlyFor(start, steps, c, t)
    ensures AllAdvertise(Over(c, net), a, t)
  {
    if !t.AllTarget? {
      var c' := Over(c, net);
      forall m, id | m in c'.nodes && Means(BusyAt(c', m), t, id) ensures E.Hosts(c'.nodes[m], AsTarget(t)) {
        assert E.IndexesHold(BusyAt(c', m));
        MeantIsHere(BusyAt(c', m), t, id);
        OverHosts(c, net, m, AsTarget(t));
        OrderlyHosts(start, steps, c, m, AsTarget(t), id);
      }
    }
  }

  /**
   * And if in that run no arrival at the target overlapped another arrival or a departure, and none is in flight now,
   * then with healthy links every connection of the cluster gets the payload once if it is addressed, else nothing.
   */
  lemma OrderlyChurnDelivers(start: Cluster, steps: seq<Step>, c: Cluster, xs: seq<M.Exchange>, net: M.Net,
    c': Cluster, w: Setting, a: NodeId, cmd: Command, n: NodeId, id: u64)
    requires Init(start) && Run(start, steps, c) && c' == Over(c, net) && OrderlyFor(start, steps, c, cmd.target)
    requires M.Pass(Mesh(c), xs, net) && M.CoversAllPairs(Mesh(c), xs) && M.CollisionFree(Mesh(c))
    requires a in c'.nodes && n in c'.nodes && Wired(c', w, a) && Healthy(c', w, a, cmd)
    requires Carries(c', w, a, PeersFor(c', w, a, cmd.target), FrameOf(a, cmd)) && id in c'.nodes[n].conns
    requires Fits(cmd.target, Excepts(a, cmd)) && 2 + |FrameOf(a, cmd).body| < 0x1_0000_0000
    ensures n in Broadcast(c', w, a, cmd).nodes
    ensures DeliveredOnce(c'.nodes[n], Broadcast(c', w, a, cmd).nodes[n], Addressed(c', a, cmd, n), cmd.Payload(), id)
  {
    assert Inv(c') && Settled(c', a, cmd.target) && AllAdvertise(c', a, cmd.target) by {
      RunThenPass(start, steps, c, xs, net);
      OrderlyAllAdvertise(start, steps, c, net, a, cmd.target);
    }
    HealthyDelivers(c', w, a, cmd, n, id);
  }
}
