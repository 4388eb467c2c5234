/**
 * One hop between two nodes: sender suppression and the bounded queue, the coalescing writer, the framed reader, and
 * the dispatch of each frame into local fan-out (crates/mesh/src/link.rs, crates/mesh/src/node.rs,
 * crates/core/src/cluster.rs).
 */
module RelayHop {
  import opened Prelude
  import opened Wire
  import opened Fanout
  import opened Relay
  import opened Engine
  import A = HandshakeAgreement
  import C = Coalescing
  import Codec = InterestCodec
  import F = Frame
  import H = Handshake
  import I = Interest
  import MC = MembershipCodec
  import MS = MembershipSync
  import Mailbox
  import Q = PeerQueue
  import S = RelaySend

  type NodeId = I.NodeId

  // ── local fan-out ──

  function Recipients(n: Node, t: RelayTarget): set<u64>
  {
    match t
    case RoomTarget(name) => At(n.rooms, name)
    case UserTarget(name) => At(n.users, name)
    case AllTarget => n.conns.Keys
  }

  /** In which order a node walks the recipients of a target. */
  type Orders = (Node, RelayTarget) -> seq<u64>

  /** Any order will do, without repeats. */
  ghost predicate Listings(order: Orders)
  {
    forall n, t :: Distinct(order(n, t)) && Elements(order(n, t)) == Recipients(n, t)
  }

  function FanOutAt(n: Node, order: Orders, t: RelayTarget, f: Mailbox.Outbound, except: seq<u64>): Node
  {
    n.(conns := FanOut(Fan(n.conns, NO_REPORT), order(n, t), f, Elements(except)).conns)
  }

  /** The recipients at node `self` that no exception names. */
  function AddressedBy(n: Node, self: NodeId, t: RelayTarget, es: seq<NodeConnId>): set<u64>
  {
    set id | id in Recipients(n, t) && NodeConnId(self, id) !in es
  }

  function PushTo(conns: map<u64, Handle>, who: set<u64>, f: Mailbox.Outbound): map<u64, Handle>
  {
    map id | id in conns :: if id in who then PushHandle(conns[id], f).0 else conns[id]
  }

  /** Fan-out over the recipients in any order comes to one push each. */
  lemma FanOutIsPushTo(conns: map<u64, Handle>, ids: seq<u64>, f: Mailbox.Outbound, except: set<u64>, r: Report)
    requires Distinct(ids)
    ensures FanOut(Fan(conns, r), ids, f, except).conns == PushTo(conns, Elements(ids) - except, f)
  {
    var s := Fan(conns, r);
    var out := FanOut(s, ids, f, except).conns;
    FanOutKeys(s, ids, f, except);
    forall id | id in conns ensures out[id] == PushTo(conns, Elements(ids) - except, f)[id] {
      if id in ids && id !in except {
        FanOutOnce(s, ids, f, except, id);
      } else {
        FanOutFrame(s, ids, f, except, id);
      }
    }
  }

  lemma PushToSame(conns: map<u64, Handle>, a: set<u64>, b: set<u64>, f: Mailbox.Outbound)
    requires forall id | id in conns :: id in a <==> id in b
    ensures PushTo(conns, a, f) == PushTo(conns, b, f)
  {
  }

  /** Pushes to nobody change nothing. */
  lemma PushToNobody(n: Node, who: set<u64>, f: Mailbox.Outbound)
    requires who !! n.conns.Keys
    ensures n.(conns := PushTo(n.conns, who, f)) == n
  {
    assert PushTo(n.conns, who, f) == n.conns;
  }

  // ── what a node does with a frame it reads ──

  /** The receiving end of a link: which node, what the link negotiated, and the order of its fan-outs. */
  datatype Reader = Reader(self: NodeId, link: H.Negotiated, order: Orders)

  function ApplyUpdate(st: I.State, u: Codec.Update): I.State
  {
    match u
    case EdgeUpdate(e) => I.ApplyEdge(st, e).0
    case SnapshotUpdate(s) => I.ApplySnapshot(st, s).0
  }

  function OnInterest(n: Node, body: seq<byte>): Node
  {
    match Codec.Decode(body)
    case None => n
    case Some(u) => n.(interest := ApplyUpdate(n.interest, u))
  }

  /** A message to one connection, named by its local id. */
  function OnSocket(n: Node, f: F.Frame): Node
  {
    match GetU64(f.body)
    case None => n
    case Some((id, payload)) =>
      if id !in n.conns then n
      else n.(conns := n.conns[id := PushHandle(n.conns[id], Mailbox.Outbound(payload, f.flags % 2 == 1)).0])
  }

  /** A relayed broadcast: fan out locally, minus the exceptions that name this node. */
  function OnRelay(n: Node, rd: Reader, f: F.Frame): Node
  {
    match Understand(f)
    case None => n
    case Some(r) =>
      FanOutAt(n, rd.order, r.target, Mailbox.Outbound(r.payload, r.isBinary), ExceptsFor(rd.self, r.excepts))
  }

  /** A frame of a known kind; pings, digests and membership leave the engine and its interest alone. */
  function OnFrame(n: Node, rd: Reader, f: F.Frame): Node
  {
    match f.kind
    case Interest => OnInterest(n, f.body)
    case RelayRoom | RelayUser | RelayAll => OnRelay(n, rd, f)
    case RelaySocket => OnSocket(n, f)
    case _ => n
  }

  /** The dispatch: a kind that is unknown, or was not negotiated, is skipped. */
  function OnRaw(n: Node, rd: Reader, raw: F.Raw): Node
  {
    if H.CountedUnknown(rd.link, raw.kind) || F.FromByte(raw.kind).None? then n
    else OnFrame(n, rd, F.Frame(F.FromByte(raw.kind).value, raw.flags, raw.body))
  }

  function OnRaws(n: Node, rd: Reader, raws: seq<F.Raw>): Node
    decreases |raws|
  {
    if raws == [] then n else OnRaws(OnRaw(n, rd, raws[0]), rd, raws[1..])
  }

  lemma {:induction false} OnRawsAppend(n: Node, rd: Reader, a: seq<F.Raw>, b: seq<F.Raw>)
    ensures OnRaws(n, rd, a + b) == OnRaws(OnRaws(n, rd, a), rd, b)
    decreases |a|
  {
    if a == [] {
      assert a + b == b;
    } else {
      OnRawsAppend(OnRaw(n, rd, a[0]), rd, a[1..], b);
      assert (a + b)[1..] == a[1..] + b;
    }
  }

  /** The same connections in the same rooms under the same users. */
  predicate SameMembers(a: Node, b: Node)
  {
    && a.conns.Keys == b.conns.Keys && a.entries == b.entries && a.rooms == b.rooms
    && a.owner == b.owner && a.users == b.users
  }

  lemma FanOutKeepsMembers(n: Node, order: Orders, t: RelayTarget, f: Mailbox.Outbound, except: seq<u64>)
    ensures SameMembers(n, FanOutAt(n, order, t, f, except))
  {
    FanOutKeys(Fan(n.conns, NO_REPORT), order(n, t), f, Elements(except));
  }

  lemma OnRelayKeepsMembers(n: Node, rd: Reader, f: F.Frame)
    ensures SameMembers(n, OnRelay(n, rd, f))
  {
    var r := Understand(f);
    if r.Some? {
      var out, except := Mailbox.Outbound(r.value.payload, r.value.isBinary), ExceptsFor(rd.self, r.value.excepts);
      FanOutKeepsMembers(n, rd.order, r.value.target, out, except);
      assert OnRelay(n, rd, f) == FanOutAt(n, rd.order, r.value.target, out, except);
    }
  }

  lemma OnFrameKeepsMembers(n: Node, rd: Reader, f: F.Frame)
    ensures SameMembers(n, OnFrame(n, rd, f))
  {
    if f.kind.RelayRoom? || f.kind.RelayUser? || f.kind.RelayAll? {
      OnRelayKeepsMembers(n, rd, f);
    }
  }

  /** No frame read off a link moves a connection in or out of a room. */
  lemma {:induction false} ReadingKeepsMembers(n: Node, rd: Reader, raws: seq<F.Raw>)
    ensures SameMembers(n, OnRaws(n, rd, raws))
    decreases |raws|
  {
    if raws != [] {
      var raw := raws[0];
      if F.FromByte(raw.kind).Some? {
        OnFrameKeepsMembers(n, rd, F.Frame(F.FromByte(raw.kind).value, raw.flags, raw.body));
      }
      assert SameMembers(n, OnRaw(n, rd, raw));
      ReadingKeepsMembers(OnRaw(n, rd, raws[0]), rd, raws[1..]);
    }
  }

  // ── what it queues in return ──

  /**
   * A frame that reading `raw` may queue in return: a pong, an answer to a membership message, or a snapshot for a
   * digest. The membership table and the digest are not part of the node here; any will do.
   */
  ghost predicate Answered(n: Node, rd: Reader, raw: F.Raw, fr: F.Frame)
  {
    !H.CountedUnknown(rd.link, raw.kind) && F.FromByte(raw.kind).Some? &&
    match F.FromByte(raw.kind).value
    case Ping => raw.flags % 2 == 0 && fr == F.Frame(F.Ping, 1, [])
    case Membership => MC.Decode(raw.body).Some? &&
      exists t, answer :: MS.Answers(MC.Decode(raw.body).value, t, Some(answer)) &&
        fr == F.Frame(F.Membership, 0, MC.Encode(answer))
    case InterestDigest => Codec.DecodeDigest(raw.body).Some? && H.MayEmit(rd.link, F.Interest) &&
      exists digest, s :: s in I.RespondToDigest(n.interest, digest) &&
        fr == F.Frame(F.Interest, 0, Codec.Encode(Codec.SnapshotUpdate(s)))
    case _ => false
  }

  /** A frame that reading a whole stream may queue in return. */
  ghost predicate AnsweredWhile(n: Node, rd: Reader, raws: seq<F.Raw>, fr: F.Frame)
    decreases |raws|
  {
    raws != [] && (Answered(n, rd, raws[0], fr) || AnsweredWhile(OnRaw(n, rd, raws[0]), rd, raws[1..], fr))
  }

  predicate IsRelay(kind: F.FrameKind)
  {
    kind.RelayRoom? || kind.RelayUser? || kind.RelayAll? || kind.RelaySocket?
  }

  /** Whatever a node reads, relays included, nothing it queues in return is a relay: no relay is sent on. */
  lemma {:induction false} NeverSentOn(n: Node, rd: Reader, raws: seq<F.Raw>, fr: F.Frame)
    requires AnsweredWhile(n, rd, raws, fr)
    ensures !IsRelay(fr.kind)
    decreases |raws|
  {
    if !Answered(n, rd, raws[0], fr) {
      NeverSentOn(OnRaw(n, rd, raws[0]), rd, raws[1..], fr);
    }
  }

  // ── from the sender's queue to the reader ──

  /** What the two ends of one link negotiated, in either role. */
  ghost predicate TwoEnds(a: H.Negotiated, b: H.Negotiated)
  {
    exists role: H.Role, ca: H.Config, cb: H.Config ::
      a == A.Agreed(role, ca, cb) && b == A.Agreed(H.Peer(role), cb, ca)
  }

  lemma EndsMatch(a: H.Negotiated, b: H.Negotiated, kind: F.FrameKind)
    requires TwoEnds(a, b)
    ensures a.maxFrame == b.maxFrame && a.features == b.features
    ensures H.MayEmit(a, kind) ==> !H.CountedUnknown(b, F.KindByte(kind))
  {
    var role: H.Role, ca: H.Config, cb: H.Config :| a == A.Agreed(role, ca, cb) && b == A.Agreed(H.Peer(role), cb, ca);
    A.BitInBoth(ca.features, cb.features);
  }

  /**
   * A link around one send: the frames queued before it, the pushes and writer wakeups after it, and the frames those
   * pushes added.
   */
  datatype Traffic = Traffic(before: seq<F.Frame>, events: seq<Q.Event>, later: seq<F.Frame>)

  function PipeOf(q: Q.Queue): Q.Pipe
  {
    Q.Pipe(q, [], 0, q.items, |q.items| + q.drops)
  }

  /** Every other frame is within the negotiated maximum, and the writer empties the queue. */
  ghost predicate TrafficOk(t: Traffic, before: Q.Queue, after: Q.Queue, max: u32)
  {
    var end := Q.Run(PipeOf(after), t.events);
    && Q.QueueOk(before) && before.items == Map(F.Encode, t.before) && F.AllWithin(t.before, max)
    && end.queue.items == [] && end.accepted == after.items + Map(F.Encode, t.later) && F.AllWithin(t.later, max)
  }

  /** The peer after it has read everything the writer wrote. */
  function Received(n: Node, rd: Reader, q: Q.Queue, events: seq<Q.Event>): Node
  {
    OnRaws(n, rd, F.ReadStream(Q.Run(PipeOf(q), events).wire, rd.link.maxFrame).0)
  }

  /** Left to itself the writer empties any queue, in at most as many wakeups as there are frames. */
  lemma {:induction false} WriterCatchesUp(p: Q.Pipe, cap: nat) returns (events: seq<Q.Event>)
    ensures |events| <= |p.queue.items| && forall e | e in events :: e == Q.Wakeup(cap)
    ensures var end := Q.Run(p, events); end.queue.items == [] && end.accepted == p.accepted
    decreases |p.queue.items|
  {
    if p.queue.items == [] {
      events := [];
    } else {
      var next := Q.Step(p, Q.Wakeup(cap));
      var rest := WriterCatchesUp(next, cap);
      events := [Q.Wakeup(cap)] + rest;
      assert events[1..] == rest;
    }
  }

  lemma DrainedWire(q: Q.Queue, events: seq<Q.Event>, fs: seq<F.Frame>)
    requires Q.QueueOk(q)
    requires var end := Q.Run(PipeOf(q), events); end.queue.items == [] && end.accepted == Map(F.Encode, fs)
    ensures Q.Run(PipeOf(q), events).wire == F.Bytes(fs)
  {
    var p, end := PipeOf(q), Q.Run(PipeOf(q), events);
    assert p.accepted[0..] == p.accepted && p.accepted[..0] == [];
    Q.RunKeepsOk(p, events);
    C.BytesOfPrefix(fs, |fs|);
    assert end.accepted[..end.written] == Map(F.Encode, fs)[..|fs|] && fs[..|fs|] == fs;
  }

  lemma MapAppend<T, U>(f: T -> U, a: seq<T>, b: seq<T>)
    ensures Map(f, a + b) == Map(f, a) + Map(f, b)
  {
  }

  /** What the peer reads: everything in order, or, when the new frame is too long, what came before it. */
  lemma HopReads(before: seq<F.Frame>, frame: seq<F.Frame>, later: seq<F.Frame>, max: u32)
    requires F.AllWithin(before, max) && F.AllWithin(later, max) && |frame| <= 1
    requires frame != [] ==> 2 + |frame[0].body| < 0x1_0000_0000
    ensures F.ReadStream(F.Bytes(before + frame + later), max).0 ==
      Map(F.RawOf, if F.AllWithin(frame, max) then before + frame + later else before)
  {
    var fs := before + frame + later;
    if F.AllWithin(frame, max) {
      assert F.AllWithin(fs, max);
      F.ReadStreamBytes(fs, max);
    } else {
      var k := |before|;
      assert fs[k] == frame[0] && fs[..k] == before;
      F.ReadStreamOversize(fs, k, max);
    }
  }

  lemma HopWire(after: Q.Queue, t: Traffic, frame: seq<F.Frame>)
    requires Q.QueueOk(after) && after.items == Map(F.Encode, t.before + frame)
    requires var end := Q.Run(PipeOf(after), t.events);
      end.queue.items == [] && end.accepted == after.items + Map(F.Encode, t.later)
    ensures Q.Run(PipeOf(after), t.events).wire == F.Bytes(t.before + frame + t.later)
  {
    MapAppend(F.Encode, t.before + frame, t.later);
    DrainedWire(after, t.events, t.before + frame + t.later);
  }

  /**
   * One hop. Whatever the link carried before and carries after, and however the writer batches it, the peer ends as if
   * it had handled the earlier frames, then this one exactly once if it was queued, then the later ones; a frame beyond
   * the negotiated maximum ends the link instead.
   */
  lemma OneHop(n: Node, rd: Reader, before: Q.Queue, after: Q.Queue, t: Traffic, fr: F.Frame, queued: bool)
    requires TrafficOk(t, before, after, rd.link.maxFrame) && 2 + |fr.body| < 0x1_0000_0000
    requires Q.QueueOk(after) && after.items == (if queued then before.items + [F.Encode(fr)] else before.items)
    ensures var mid := OnRaws(n, rd, Map(F.RawOf, t.before));
      Received(n, rd, after, t.events) ==
        if queued && 2 + |fr.body| > rd.link.maxFrame then mid
        else OnRaws(if queued then OnRaw(mid, rd, F.RawOf(fr)) else mid, rd, Map(F.RawOf, t.later))
  {
    var frame := if queued then [fr] else [];
    var max := rd.link.maxFrame;
    assert t.before + [] == t.before;
    MapAppend(F.Encode, t.before, frame);
    HopWire(after, t, frame);
    HopReads(t.before, frame, t.later, max);
    assert F.AllWithin(frame, max) <==> !queued || 2 + |fr.body| <= max;
    if F.AllWithin(frame, max) {
      var b, x, l := Map(F.RawOf, t.before), Map(F.RawOf, frame), Map(F.RawOf, t.later);
      MapAppend(F.RawOf, t.before, frame);
      MapAppend(F.RawOf, t.before + frame, t.later);
      OnRawsAppend(n, rd, b + x, l);
      OnRawsAppend(n, rd, b, x);
    }
  }

  // ── sending to a list of peers ──

  /** The peer's queue after the relay loop: the frame appended once if the peer is listed and reachable. */
  lemma QueueAfter(s: S.Links, peers: seq<NodeId>, kind: F.FrameKind, frame: seq<byte>, p: NodeId)
    requires Distinct(peers) && p in s.links && Q.QueueOk(s.links[p].queue)
    ensures var s' := S.SendAll(s, peers, kind, frame);
      && p in s'.links && s'.links[p].negotiated == s.links[p].negotiated && Q.QueueOk(s'.links[p].queue)
      && s'.links[p].queue.items == if p in peers && S.Reachable(s, p, kind, frame)
         then s.links[p].queue.items + [frame] else s.links[p].queue.items
  {
    if p in peers {
      S.EachPeerOnce(s, peers, kind, frame, p);
      Q.PushKeepsOk(s.links[p].queue, frame);
    } else {
      S.OtherLinksUntouched(s, peers, kind, frame, p);
    }
  }

  lemma KnownByte(kind: F.FrameKind)
    ensures F.FromByte(F.KindByte(kind)) == Some(kind)
  {
  }

  /** A relay the peer reads is understood as it was meant and pushed once to each of its addressed connections. */
  lemma RelayRead(n: Node, rd: Reader, sender: H.Negotiated,
    t: RelayTarget, es: seq<NodeConnId>, payload: seq<byte>, isBinary: bool)
    requires Listings(rd.order) && TwoEnds(sender, rd.link) && H.MayEmit(sender, KindOf(t)) && Fits(t, es)
    ensures OnRaw(n, rd, F.RawOf(RelayFrame(t, es, payload, isBinary))) ==
      n.(conns := PushTo(n.conns, AddressedBy(n, rd.self, t, es), Mailbox.Outbound(payload, isBinary)))
  {
    var fr, f := RelayFrame(t, es, payload, isBinary), Mailbox.Outbound(payload, isBinary);
    EndsMatch(sender, rd.link, KindOf(t));
    UnderstandRelay(t, es, payload, isBinary);
    KnownByte(fr.kind);
    assert OnRaw(n, rd, F.RawOf(fr)) == OnRelay(n, rd, fr);
    var except := Elements(ExceptsFor(rd.self, es));
    FanOutIsPushTo(n.conns, rd.order(n, t), f, except, NO_REPORT);
    PushToSame(n.conns, Recipients(n, t) - except, AddressedBy(n, rd.self, t, es), f);
  }

  /** An interest update the peer reads off the wire is applied to its table as it was sent, and to nothing else. */
  lemma InterestRead(n: Node, rd: Reader, sender: H.Negotiated, u: Codec.Update)
    requires TwoEnds(sender, rd.link) && H.MayEmit(sender, F.Interest) && Codec.Encodable(u)
    ensures var n' := OnRaw(n, rd, F.RawOf(F.Frame(F.Interest, 0, Codec.Encode(u))));
      && n' == n.(interest := n'.interest)
      && (u.EdgeUpdate? ==> n'.interest == I.ApplyEdge(n.interest, u.edge).0)
      && (u.SnapshotUpdate? ==> n'.interest == I.ApplySnapshot(n.interest, u.snap).0)
  {
    EndsMatch(sender, rd.link, F.Interest);
    KnownByte(F.Interest);
    Codec.RoundTripIff(u);
  }

  /** What a reader has no use for: unknown kinds, kinds the link did not negotiate, and link upkeep. */
  predicate Idle(link: H.Negotiated, raw: F.Raw)
  {
    match F.FromByte(raw.kind)
    case None => true
    case Some(kind) =>
      if kind == F.Interest then link.features & 1 == 0
      else if IsRelay(kind) then link.features & 2 == 0
      else true
  }

  /** A stream of such frames changes nobody's mailbox and no table. */
  lemma {:induction false} IdleStream(n: Node, rd: Reader, raws: seq<F.Raw>)
    requires forall raw | raw in raws :: Idle(rd.link, raw)
    ensures OnRaws(n, rd, raws) == n
    decreases |raws|
  {
    if raws != [] {
      assert Idle(rd.link, raws[0]) && OnRaw(n, rd, raws[0]) == n;
      IdleStream(n, rd, raws[1..]);
    }
  }

  /** A message to one connection of one node. */
  function SocketFrame(id: u64, payload: seq<byte>, isBinary: bool): F.Frame
  {
    F.Frame(F.RelaySocket, if isBinary then 1 else 0, Le(id, 8) + payload)
  }

  /** A socket message the peer reads is pushed once to the connection it names, if that is still there. */
  lemma SocketRead(n: Node, rd: Reader, sender: H.Negotiated, id: u64, payload: seq<byte>, isBinary: bool)
    requires TwoEnds(sender, rd.link) && H.MayEmit(sender, F.RelaySocket)
    ensures OnRaw(n, rd, F.RawOf(SocketFrame(id, payload, isBinary))) ==
      n.(conns := PushTo(n.conns, {id}, Mailbox.Outbound(payload, isBinary)))
  {
    var fr, f := SocketFrame(id, payload, isBinary), Mailbox.Outbound(payload, isBinary);
    EndsMatch(sender, rd.link, F.RelaySocket);
    KnownByte(F.RelaySocket);
    Get64(id, payload);
    assert OnRaw(n, rd, F.RawOf(fr)) == OnSocket(n, fr);
    if id in n.conns {
      assert PushTo(n.conns, {id}, f) == n.conns[id := PushHandle(n.conns[id], f).0];
    } else {
      PushToNobody(n, {id}, f);
    }
  }
}
