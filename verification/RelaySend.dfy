/** Sending one relay frame to a list of peers (crates/mesh/src/node.rs). */
module RelaySend {
  import opened Prelude
  import opened Wire
  import F = Frame
  import H = Handshake
  import Q = PeerQueue

  type NodeId = u16

  /** A live link: what it negotiated and its outbound queue. */
  datatype LinkHandle = LinkHandle(negotiated: H.Negotiated, queue: Q.Queue)

  datatype Report = Report(sent: nat, dropped: nat, suppressed: nat, noLink: nat)

  datatype Links = Links(links: map<NodeId, LinkHandle>, report: Report)

  /** Sender suppression first, then the bounded queue. */
  function SendOne(s: Links, peer: NodeId, kind: F.FrameKind, frame: seq<byte>): Links
  {
    var r := s.report;
    if peer !in s.links then s.(report := r.(noLink := r.noLink + 1))
    else if !H.MayEmit(s.links[peer].negotiated, kind) then s.(report := r.(suppressed := r.suppressed + 1))
    else
      var (q, outcome) := Q.Push(s.links[peer].queue, frame);
      Links(s.links[peer := s.links[peer].(queue := q)],
            if outcome.Enqueued? then r.(sent := r.sent + 1) else r.(dropped := r.dropped + 1))
  }

  function SendAll(s: Links, peers: seq<NodeId>, kind: F.FrameKind, frame: seq<byte>): Links
    decreases |peers|
  {
    if peers == [] then s else SendAll(SendOne(s, peers[0], kind, frame), peers[1..], kind, frame)
  }

  predicate Reachable(s: Links, peer: NodeId, kind: F.FrameKind, frame: seq<byte>)
  {
    peer in s.links && H.MayEmit(s.links[peer].negotiated, kind) &&
      s.links[peer].queue.bytes + |frame| <= s.links[peer].queue.hwm
  }

  /** Every peer is tallied exactly once. */
  lemma {:induction false} ReportCoversPeers(s: Links, peers: seq<NodeId>, kind: F.FrameKind, frame: seq<byte>)
    ensures var r, r' := s.report, SendAll(s, peers, kind, frame).report;
      r'.sent + r'.dropped + r'.suppressed + r'.noLink == r.sent + r.dropped + r.suppressed + r.noLink + |peers|
    decreases |peers|
  {
    if peers != [] {
      ReportCoversPeers(SendOne(s, peers[0], kind, frame), peers[1..], kind, frame);
    }
  }

  lemma {:induction false} OtherLinksUntouched(s: Links, peers: seq<NodeId>, kind: F.FrameKind,
    frame: seq<byte>, n: NodeId)
    requires n !in peers
    ensures var s' := SendAll(s, peers, kind, frame);
      s'.links.Keys == s.links.Keys && (n in s.links ==> s'.links[n] == s.links[n])
    decreases |peers|
  {
    if peers != [] {
      OtherLinksUntouched(SendOne(s, peers[0], kind, frame), peers[1..], kind, frame, n);
    }
  }

  /** A peer with a link, the feature and room gets the frame appended to its queue, once; any other at most a drop. */
  lemma {:induction false} EachPeerOnce(s: Links, peers: seq<NodeId>, kind: F.FrameKind, frame: seq<byte>, n: NodeId)
    requires Distinct(peers) && n in peers && n in s.links
    ensures var s' := SendAll(s, peers, kind, frame);
      && n in s'.links
      && s'.links[n].negotiated == s.links[n].negotiated
      && s'.links[n].queue ==
        (if H.MayEmit(s.links[n].negotiated, kind) then Q.Push(s.links[n].queue, frame).0 else s.links[n].queue)
      && s'.links[n].queue.items ==
        (if Reachable(s, n, kind, frame) then s.links[n].queue.items + [frame] else s.links[n].queue.items)
    decreases |peers|
  {
    var s1 := SendOne(s, peers[0], kind, frame);
    if peers[0] == n {
      assert n !in peers[1..];
      OtherLinksUntouched(s1, peers[1..], kind, frame, n);
    } else {
      EachPeerOnce(s1, peers[1..], kind, frame, n);
    }
  }

  /** With every peer reachable nothing is dropped, suppressed or unreachable: all frames are sent. */
  lemma {:induction false} AllReachableAllSent(s: Links, peers: seq<NodeId>, kind: F.FrameKind, frame: seq<byte>)
    requires Distinct(peers) && forall p | p in peers :: Reachable(s, p, kind, frame)
    ensures SendAll(s, peers, kind, frame).report == s.report.(sent := s.report.sent + |peers|)
    decreases |peers|
  {
    if peers != [] {
      assert Reachable(s, peers[0], kind, frame) && peers[0] !in peers[1..];
      forall p | p in peers[1..] ensures Reachable(SendOne(s, peers[0], kind, frame), p, kind, frame) {
        assert Reachable(s, p, kind, frame);
      }
      AllReachableAllSent(SendOne(s, peers[0], kind, frame), peers[1..], kind, frame);
    }
  }

  // ── what the report means ──

  /** The peers whose link carries frames of this kind. */
  function Carrying(s: Links, kind: F.FrameKind): set<NodeId>
  {
    set p | p in s.links && H.MayEmit(s.links[p].negotiated, kind)
  }

  /** Those of them whose queue has room for the frame. */
  function Roomy(s: Links, kind: F.FrameKind, frame: seq<byte>): set<NodeId>
  {
    set p | p in s.links && Reachable(s, p, kind, frame)
  }

  lemma SendOneCounts(s: Links, peer: NodeId, kind: F.FrameKind, frame: seq<byte>)
    ensures var r, r' := s.report, SendOne(s, peer, kind, frame).report;
      && r'.sent == r.sent + (if peer in Roomy(s, kind, frame) then 1 else 0)
      && r'.noLink == r.noLink + (if peer !in s.links.Keys then 1 else 0)
      && r'.suppressed == r.suppressed + (if peer in s.links.Keys - Carrying(s, kind) then 1 else 0)
  {
  }

  /** A send to one peer decides about no other. */
  lemma OthersStay(s: Links, peer: NodeId, kind: F.FrameKind, frame: seq<byte>, other: NodeId)
    requires other != peer
    ensures var s' := SendOne(s, peer, kind, frame);
      && s'.links.Keys == s.links.Keys
      && (other in Carrying(s', kind) <==> other in Carrying(s, kind))
      && (other in Roomy(s', kind, frame) <==> other in Roomy(s, kind, frame))
  {
  }

  lemma OneMore(first: NodeId, rest: set<NodeId>, which: set<NodeId>, which': set<NodeId>)
    requires first !in rest && forall p | p in rest :: p in which' <==> p in which
    ensures |({first} + rest) * which| == |rest * which'| + (if first in which then 1 else 0)
    ensures |({first} + rest) - which| == |rest - which'| + (if first in which then 0 else 1)
  {
    assert ({first} + rest) * which == if first in which then {first} + rest * which' else rest * which';
    assert ({first} + rest) - which == if first in which then rest - which' else {first} + (rest - which');
  }

  lemma FirstAndRest(peers: seq<NodeId>)
    requires Distinct(peers) && peers != []
    ensures Elements(peers) == {peers[0]} + Elements(peers[1..]) && peers[0] !in Elements(peers[1..])
  {
    assert peers == [peers[0]] + peers[1..];
  }

  /**
   * The report of one send: the peers it reached, those without a link, those whose link has not negotiated the frame;
   * the rest, whose queue had no room, were dropped.
   */
  lemma {:induction false} ReportMeans(s: Links, peers: seq<NodeId>, kind: F.FrameKind, frame: seq<byte>)
    requires Distinct(peers)
    ensures var r, r', to := s.report, SendAll(s, peers, kind, frame).report, Elements(peers);
      && r'.sent == r.sent + |to * Roomy(s, kind, frame)|
      && r'.noLink == r.noLink + |to - s.links.Keys|
      && r'.suppressed == r.suppressed + |to * (s.links.Keys - Carrying(s, kind))|
      && r'.sent + r'.dropped + r'.suppressed + r'.noLink == r.sent + r.dropped + r.suppressed + r.noLink + |peers|
    decreases |peers|
  {
    ReportCoversPeers(s, peers, kind, frame);
    if peers != [] {
      var s1, first := SendOne(s, peers[0], kind, frame), peers[0];
      ReportMeans(s1, peers[1..], kind, frame);
      SendOneCounts(s, first, kind, frame);
      FirstAndRest(peers);
      var rest := Elements(peers[1..]);
      forall p | p in rest
        ensures p in s1.links.Keys <==> p in s.links.Keys
        ensures p in Carrying(s1, kind) <==> p in Carrying(s, kind)
        ensures p in Roomy(s1, kind, frame) <==> p in Roomy(s, kind, frame)
      {
        OthersStay(s, first, kind, frame, p);
      }
      OneMore(first, rest, Roomy(s, kind, frame), Roomy(s1, kind, frame));
      OneMore(first, rest, s.links.Keys, s1.links.Keys);
      OneMore(first, rest, s.links.Keys - Carrying(s, kind), s1.links.Keys - Carrying(s1, kind));
    }
  }

  /** The send loop. */
  method Relay(links: map<NodeId, LinkHandle>, peers: seq<NodeId>, kind: F.FrameKind, frame: seq<byte>)
    returns (s: Links)
    ensures s == SendAll(Links(links, Report(0, 0, 0, 0)), peers, kind, frame)
    ensures s.report.sent + s.report.dropped + s.report.suppressed + s.report.noLink == |peers|
  {
    s := Links(links, Report(0, 0, 0, 0));
    for i := 0 to |peers|
      invariant SendAll(Links(links, Report(0, 0, 0, 0)), peers, kind, frame) == SendAll(s, peers[i..], kind, frame)
    {
      assert peers[i..][1..] == peers[i + 1..];
      var r := s.report;
      if peers[i] !in s.links {
        s := s.(report := r.(noLink := r.noLink + 1));
      } else if !H.MayEmit(s.links[peers[i]].negotiated, kind) {
        s := s.(report := r.(suppressed := r.suppressed + 1));
      } else {
        var (q, outcome) := Q.Push(s.links[peers[i]].queue, frame);
        s := s.(links := s.links[peers[i] := s.links[peers[i]].(queue := q)]);
        match outcome {
          case Enqueued => s := s.(report := r.(sent := r.sent + 1));
          case Dropped => s := s.(report := r.(dropped := r.dropped + 1));
        }
      }
    }
    ReportCoversPeers(Links(links, Report(0, 0, 0, 0)), peers, kind, frame);
  }
}
