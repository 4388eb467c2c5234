/** Two runs that show why the convergence results of InterestCluster carry the conditions they do. */
module InterestLimits {
  import opened Prelude
  import opened Wire
  import opened Interest
  import opened InterestCluster

  // ── two room names with one FNV-1a hash ──

  /** The bytes of "AIktRuEzYdE". */
  predicate IsX(r: seq<byte>)
  {
    r == [65, 73, 107, 116, 82, 117, 69, 122, 89, 100, 69]
  }

  /** The bytes of "saY5_V6AP-B". */
  predicate IsY(r: seq<byte>)
  {
    r == [115, 97, 89, 53, 95, 86, 54, 65, 80, 45, 66]
  }

  lemma FnvStep(data: seq<byte>, b: byte)
    ensures Fnv1a64(data + [b]) == FnvMix(Fnv1a64(data), b)
  {
    assert (data + [b])[..|data|] == data;
  }

  lemma HashX5(d: seq<byte>)
    requires d == [1, 11, 0, 65, 73, 107, 116, 82, 117, 69, 122, 89, 100, 69]
    ensures Fnv1a64(d[..5]) == 0xb8fe_6384_f986_1809
  {
    FnvStep(d[..0], 1);
    assert d[..1] == d[..0] + [1];
    assert FnvMix(0xcbf2_9ce4_8422_2325, 1) == 0xaf63_bc4c_8601_b62c;
    FnvStep(d[..1], 11);
    assert d[..2] == d[..1] + [11];
    assert FnvMix(0xaf63_bc4c_8601_b62c, 11) == 0x082f_1d07_b4e8_8445;
    FnvStep(d[..2], 0);
    assert d[..3] == d[..2] + [0];
    assert FnvMix(0x082f_1d07_b4e8_8445, 0) == 0xd092_9918_6718_c13f;
    FnvStep(d[..3], 65);
    assert d[..4] == d[..3] + [65];
    assert FnvMix(0xd092_9918_6718_c13f, 65) == 0x81db_a277_2f10_c91a;
    FnvStep(d[..4], 73);
    assert d[..5] == d[..4] + [73];
    assert FnvMix(0x81db_a277_2f10_c91a, 73) == 0xb8fe_6384_f986_1809;
  }

  lemma HashX10(d: seq<byte>)
    requires d == [1, 11, 0, 65, 73, 107, 116, 82, 117, 69, 122, 89, 100, 69] &&
      Fnv1a64(d[..5]) == 0xb8fe_6384_f986_1809
    ensures Fnv1a64(d[..10]) == 0x90ca_4aa0_a49d_43da
  {
    FnvStep(d[..5], 107);
    assert d[..6] == d[..5] + [107];
    assert FnvMix(0xb8fe_6384_f986_1809, 107) == 0xde5b_7cf3_fedb_6e86;
    FnvStep(d[..6], 116);
    assert d[..7] == d[..6] + [116];
    assert FnvMix(0xde5b_7cf3_fedb_6e86, 116) == 0xb0e4_449a_0edd_8536;
    FnvStep(d[..7], 82);
    assert d[..8] == d[..7] + [82];
    assert FnvMix(0xb0e4_449a_0edd_8536, 82) == 0x7165_f5c7_4269_a8ec;
    FnvStep(d[..8], 117);
    assert d[..9] == d[..8] + [117];
    assert FnvMix(0x7165_f5c7_4269_a8ec, 117) == 0x19e9_3a95_d989_7bfb;
    FnvStep(d[..9], 69);
    assert d[..10] == d[..9] + [69];
    assert FnvMix(0x19e9_3a95_d989_7bfb, 69) == 0x90ca_4aa0_a49d_43da;
  }

  lemma HashX14(d: seq<byte>)
    requires d == [1, 11, 0, 65, 73, 107, 116, 82, 117, 69, 122, 89, 100, 69] &&
      Fnv1a64(d[..10]) == 0x90ca_4aa0_a49d_43da
    ensures Fnv1a64(d[..14]) == 0xe25a_1a26_bb34_8d58
  {
    FnvStep(d[..10], 122);
    assert d[..11] == d[..10] + [122];
    assert FnvMix(0x90ca_4aa0_a49d_43da, 122) == 0xa500_6ef7_b739_e8e0;
    FnvStep(d[..11], 89);
    assert d[..12] == d[..11] + [89];
    assert FnvMix(0xa500_6ef7_b739_e8e0, 89) == 0x99a5_47ec_5766_725b;
    FnvStep(d[..12], 100);
    assert d[..13] == d[..12] + [100];
    assert FnvMix(0x99a5_47ec_5766_725b, 100) == 0x7a4b_7598_8314_210d;
    FnvStep(d[..13], 69);
    assert d[..14] == d[..13] + [69];
    assert FnvMix(0x7a4b_7598_8314_210d, 69) == 0xe25a_1a26_bb34_8d58;
  }

  lemma HashOfX(d: seq<byte>)
    requires d == [1, 11, 0, 65, 73, 107, 116, 82, 117, 69, 122, 89, 100, 69]
    ensures Fnv1a64(d) == 0xe25a_1a26_bb34_8d58
  {
    HashX5(d);
    HashX10(d);
    HashX14(d);
    assert d[..14] == d;
  }

  lemma BytesX(r: seq<byte>)
    requires IsX(r)
    ensures [1, 11, 0] + r == [1, 11, 0, 65, 73, 107, 116, 82, 117, 69, 122, 89, 100, 69]
  {
  }

  lemma HashY5(d: seq<byte>)
    requires d == [1, 11, 0, 115, 97, 89, 53, 95, 86, 54, 65, 80, 45, 66]
    ensures Fnv1a64(d[..5]) == 0xb854_5f84_f8f5_913f
  {
    FnvStep(d[..0], 1);
    assert d[..1] == d[..0] + [1];
    assert FnvMix(0xcbf2_9ce4_8422_2325, 1) == 0xaf63_bc4c_8601_b62c;
    FnvStep(d[..1], 11);
    assert d[..2] == d[..1] + [11];
    assert FnvMix(0xaf63_bc4c_8601_b62c, 11) == 0x082f_1d07_b4e8_8445;
    FnvStep(d[..2], 0);
    assert d[..3] == d[..2] + [0];
    assert FnvMix(0x082f_1d07_b4e8_8445, 0) == 0xd092_9918_6718_c13f;
    FnvStep(d[..3], 115);
    assert d[..4] == d[..3] + [115];
    assert FnvMix(0xd092_9918_6718_c13f, 115) == 0x81db_7077_2f10_7424;
    FnvStep(d[..4], 97);
    assert d[..5] == d[..4] + [97];
    assert FnvMix(0x81db_7077_2f10_7424, 97) == 0xb854_5f84_f8f5_913f;
  }

  lemma HashY10(d: seq<byte>)
    requires d == [1, 11, 0, 115, 97, 89, 53, 95, 86, 54, 65, 80, 45, 66] && Fnv1a64(d[..5]) == 0xb854_5f84_f8f5_913f
    ensures Fnv1a64(d[..10]) == 0xd270_6db5_5479_817a
  {
    FnvStep(d[..5], 89);
    assert d[..6] == d[..5] + [89];
    assert FnvMix(0xb854_5f84_f8f5_913f, 89) == 0x2cef_b4f3_0946_1052;
    FnvStep(d[..6], 53);
    assert d[..7] == d[..6] + [53];
    assert FnvMix(0x2cef_b4f3_0946_1052, 53) == 0xa160_dff8_c20d_df05;
    FnvStep(d[..7], 95);
    assert d[..8] == d[..7] + [95];
    assert FnvMix(0xa160_dff8_c20d_df05, 95) == 0x457b_edb1_bd92_85ee;
    FnvStep(d[..8], 86);
    assert d[..9] == d[..8] + [86];
    assert FnvMix(0x457b_edb1_bd92_85ee, 86) == 0xa41a_9d05_1ff9_37a8;
    FnvStep(d[..9], 54);
    assert d[..10] == d[..9] + [54];
    assert FnvMix(0xa41a_9d05_1ff9_37a8, 54) == 0xd270_6db5_5479_817a;
  }

  lemma HashY14(d: seq<byte>)
    requires d == [1, 11, 0, 115, 97, 89, 53, 95, 86, 54, 65, 80, 45, 66] && Fnv1a64(d[..10]) == 0xd270_6db5_5479_817a
    ensures Fnv1a64(d[..14]) == 0xe25a_1a26_bb34_8d58
  {
    FnvStep(d[..10], 65);
    assert d[..11] == d[..10] + [65];
    assert FnvMix(0xd270_6db5_5479_817a, 65) == 0x0e8b_a61e_8a76_9741;
    FnvStep(d[..11], 80);
    assert d[..12] == d[..11] + [80];
    assert FnvMix(0x0e8b_a61e_8a76_9741, 80) == 0x2de2_56e5_4782_b1e3;
    FnvStep(d[..12], 45);
    assert d[..13] == d[..12] + [45];
    assert FnvMix(0x2de2_56e5_4782_b1e3, 45) == 0x7a4b_7598_8314_210a;
    FnvStep(d[..13], 66);
    assert d[..14] == d[..13] + [66];
    assert FnvMix(0x7a4b_7598_8314_210a, 66) == 0xe25a_1a26_bb34_8d58;
  }

  lemma HashOfY(d: seq<byte>)
    requires d == [1, 11, 0, 115, 97, 89, 53, 95, 86, 54, 65, 80, 45, 66]
    ensures Fnv1a64(d) == 0xe25a_1a26_bb34_8d58
  {
    HashY5(d);
    HashY10(d);
    HashY14(d);
    assert d[..14] == d;
  }

  lemma BytesY(r: seq<byte>)
    requires IsY(r)
    ensures [1, 11, 0] + r == [1, 11, 0, 115, 97, 89, 53, 95, 86, 54, 65, 80, 45, 66]
  {
  }

  lemma HashInputOfOneRoom(version: nat, r: Name)
    ensures HashInput(OriginInterest(version, {r}, {})) == [1] + PutStr(r)
  {
    var rooms, users := Tagged(1, {r}), Tagged(2, {});
    TaggedDistinct(1, {r});
    TaggedDistinct(2, {});
    DistinctCardinality(rooms);
    DistinctCardinality(users);
    assert Elements(users) == {};
    assert Elements(rooms) == {(1, r)};
    assert rooms[0] in rooms;
    assert rooms + users == [(1, r)];
    assert PutAll(PutTagged, [(1, r)]) == PutTagged((1, r)) + PutAll(PutTagged, []);
  }

  lemma Encoded(r: Name)
    requires |r| == 11
    ensures [1] + PutStr(r) == [1, 11, 0] + r
  {
    assert Le(11, 2) == [11] + Le(0, 1);
    assert Le(0, 1) == [0] + Le(0, 0);
  }

  lemma RoomsCollide(version: nat, x: Name, y: Name)
    requires IsX(x) && IsY(y)
    ensures x != y
    ensures Hash(OriginInterest(version, {x}, {})) == Hash(OriginInterest(version, {y}, {}))
  {
    assert x[0] != y[0];
    Encoded(x);
    Encoded(y);
    HashInputOfOneRoom(version, x);
    HashInputOfOneRoom(version, y);
    BytesX(x);
    BytesY(y);
    HashOfX([1] + PutStr(x));
    HashOfY([1] + PutStr(y));
  }

  ghost function RoomX(): (r: Name)
    ensures IsX(r)
  {
    var s: seq<byte> :| s == [65, 73, 107, 116, 82, 117, 69, 122, 89, 100, 69];
    AsciiIsUtf8(s);
    s
  }

  ghost function RoomY(): (r: Name)
    ensures IsY(r)
  {
    var s: seq<byte> :| s == [115, 97, 89, 53, 95, 86, 54, 65, 80, 45, 66];
    AsciiIsUtf8(s);
    s
  }

  // ── runs ──

  ghost function Start(): Net
  {
    Net(map[1 := Fresh(1, ByInterest), 2 := Fresh(2, ByInterest), 3 := Fresh(3, ByInterest)], {})
  }

  /** The origin takes a transition. */
  lemma OriginMoves(a: Net, steps: seq<Step>, b: Net, t: Target, hosting: bool)
    returns (steps': seq<Step>, b': Net, e: Edge)
    requires Run(a, steps, b) && 1 in b.nodes && b.nodes[1].selfId == 1 && b.nodes[1].local.Hosts(t) != hosting
    ensures Run(a, steps', b') && b'.sent == b.sent + {EdgeMsg(e)}
    ensures e == Edge(1, b.nodes[1].local.version + 1, hosting, t)
    ensures 1 in b'.nodes && b'.nodes == b.nodes[1 := b'.nodes[1]] && b'.nodes[1].selfId == 1
    ensures b'.nodes[1].local == b.nodes[1].local.With(t, hosting).(version := e.version)
  {
    RunSnoc(a, steps, b, Transition(1, t, hosting));
    steps' := steps + [Transition(1, t, hosting)];
    b' := Next(b, Transition(1, t, hosting));
    e := LocalSet(b.nodes[1], t, hosting).1.value;
  }

  /** Node 2 applies a newer edge of the origin. */
  lemma EdgeArrives(a: Net, steps: seq<Step>, b: Net, e: Edge) returns (steps': seq<Step>, b': Net)
    requires Run(a, steps, b) && 2 in b.nodes && b.nodes[2].selfId == 2
    requires EdgeMsg(e) in b.sent && e.origin == 1 && e.version > Held(b.nodes[2], 1).version
    ensures Run(a, steps', b') && b'.sent == b.sent
    ensures 2 in b'.nodes && b'.nodes == b.nodes[2 := b'.nodes[2]] && b'.nodes[2].selfId == 2 &&
      b'.nodes[2].local == b.nodes[2].local
    ensures 1 in b'.nodes[2].remote
    ensures Held(b'.nodes[2], 1) == Held(b.nodes[2], 1).With(e.target, e.add).(version := e.version)
  {
    RunSnoc(a, steps, b, DeliverEdge(2, e));
    steps' := steps + [DeliverEdge(2, e)];
    b' := Next(b, DeliverEdge(2, e));
  }

  /** Node 2 hears of x, then misses that x was replaced by y. */
  lemma MissedSwap(x: Name, y: Name) returns (steps: seq<Step>, b: Net)
    requires x != y
    ensures Run(Start(), steps, b) && b.nodes.Keys == {1, 2, 3} && b.nodes[1].selfId == 1 && b.nodes[2].selfId == 2
    ensures b.nodes[1].local == OriginInterest(3, {y}, {}) && Held(b.nodes[2], 1) == OriginInterest(1, {x}, {})
  {
    var e;
    steps, b := [], Start();
    steps, b, e := OriginMoves(Start(), steps, b, Room(x), true);
    assert b.nodes[1].local == OriginInterest(1, {x}, {});
    steps, b := EdgeArrives(Start(), steps, b, e);
    assert Held(b.nodes[2], 1) == OriginInterest(1, {x}, {});
    steps, b, e := OriginMoves(Start(), steps, b, Room(x), false);
    assert b.nodes[1].local == OriginInterest(2, {}, {});
    steps, b, e := OriginMoves(Start(), steps, b, Room(y), true);
    assert b.nodes[1].local == OriginInterest(3, {y}, {});
  }

  /** Losing two of five edges leaves node 2 with room x at the version at which the origin hosts only y. */
  lemma LossyRun(x: Name, y: Name, z: Name) returns (steps: seq<Step>, b: Net)
    requires x != y && y != z && x != z
    ensures Run(Start(), steps, b) && b.nodes.Keys == {1, 2, 3}
    ensures b.nodes[1].local == OriginInterest(5, {y}, {})
    ensures 1 in b.nodes[2].remote && b.nodes[2].remote[1] == OriginInterest(5, {x}, {})
  {
    var e;
    steps, b := MissedSwap(x, y);
    steps, b, e := OriginMoves(Start(), steps, b, Room(z), true);
    assert b.nodes[1].local == OriginInterest(4, {y, z}, {});
    steps, b := EdgeArrives(Start(), steps, b, e);
    assert Held(b.nodes[2], 1) == OriginInterest(4, {x, z}, {});
    steps, b, e := OriginMoves(Start(), steps, b, Room(z), false);
    assert b.nodes[1].local == OriginInterest(5, {y}, {});
    steps, b := EdgeArrives(Start(), steps, b, e);
    assert Held(b.nodes[2], 1) == OriginInterest(5, {x}, {});
  }

  /** No sequence of digest exchanges makes `n` exact about `o`. */
  ghost predicate NeverHeals(b: Net, n: NodeId, o: NodeId)
  {
    forall xs, b' | Pass(b, xs, b') :: n in b'.nodes && o in b'.nodes && !Exact(b', n, o)
  }

  lemma CollisionNeverHeals(b: Net, n: NodeId, o: NodeId)
    requires Inv(b) && n in b.nodes && o in b.nodes && n != o && Collides(b, n, o)
    ensures NeverHeals(b, n, o)
  {
    forall xs, b' | Pass(b, xs, b') ensures n in b'.nodes && o in b'.nodes && !Exact(b', n, o) {
      PassKeepsEntry(b, xs, b', n, o);
      assert Collides(b', n, o);
    }
  }

  lemma CollidingNames() returns (x: Name, y: Name)
    ensures x != y && x != [] && y != []
    ensures Hash(OriginInterest(5, {x}, {})) == Hash(OriginInterest(5, {y}, {}))
  {
    x, y := RoomX(), RoomY();
    RoomsCollide(5, x, y);
  }

  lemma CollidingRun(x: Name, y: Name) returns (steps: seq<Step>, b: Net)
    requires x != y && x != [] && y != []
    requires Hash(OriginInterest(5, {x}, {})) == Hash(OriginInterest(5, {y}, {}))
    ensures Run(Start(), steps, b) && NeverHeals(b, 2, 1)
  {
    steps, b := LossyRun(x, y, []);
    assert x in b.nodes[2].remote[1].rooms && x !in b.nodes[1].local.rooms;
    ReachableInv(Start(), steps, b);
    CollisionNeverHeals(b, 2, 1);
  }

  /**
   * That a digest heals a lost edge within one cycle is false for FNV-1a: a run of a fresh
   * cluster reaches a table that no number of digest exchanges repairs.
   */
  lemma DigestNeverHeals()
    ensures exists steps, b :: Run(Start(), steps, b) && NeverHeals(b, 2, 1)
  {
    var x, y := CollidingNames();
    var steps, b := CollidingRun(x, y);
  }

  /** Node 2 heard of y but not of x. */
  lemma MissedEdgeRun(x: Name, y: Name) returns (steps: seq<Step>, b: Net)
    requires x != y
    ensures Run(Start(), steps, b) && b.nodes.Keys == {1, 2, 3} && b.nodes[3] == Fresh(3, ByInterest)
    ensures b.nodes[1].selfId == 1 && b.nodes[1].local == OriginInterest(2, {x, y}, {})
    ensures b.nodes[2].selfId == 2 && 1 in b.nodes[2].remote && b.nodes[2].remote[1] == OriginInterest(2, {y}, {})
  {
    var e;
    steps, b := [], Start();
    steps, b, e := OriginMoves(Start(), steps, b, Room(x), true);
    steps, b, e := OriginMoves(Start(), steps, b, Room(y), true);
    assert b.nodes[1].local == OriginInterest(2, {x, y}, {});
    steps, b := EdgeArrives(Start(), steps, b, e);
    assert Held(b.nodes[2], 1) == OriginInterest(2, {y}, {});
  }

  /** A node that knows nothing of origin 1 draws `s` from any node that would answer with it. */
  lemma DrawAnswer(a: Net, steps: seq<Step>, b: Net, n: NodeId, digest: Digest, s: Snapshot)
    returns (steps': seq<Step>, b': Net)
    requires Run(a, steps, b) && n in b.nodes && DigestMsg(digest) in b.sent && s in RespondToDigest(b.nodes[n], digest)
    ensures Run(a, steps', b') && b'.nodes == b.nodes && b.sent <= b'.sent && SnapshotMsg(s) in b'.sent
  {
    RunSnoc(a, steps, b, AnswerDigest(n, digest));
    steps' := steps + [AnswerDigest(n, digest)];
    b' := Next(b, AnswerDigest(n, digest));
  }

  /** Node 3, which knows nothing, has sent its digest. */
  lemma AskedRun(x: Name, y: Name) returns (steps: seq<Step>, b: Net, digest: Digest)
    requires x != y
    ensures Run(Start(), steps, b) && b.nodes.Keys == {1, 2, 3} && b.nodes[3] == Fresh(3, ByInterest)
    ensures b.nodes[1].selfId == 1 && b.nodes[1].local == OriginInterest(2, {x, y}, {})
    ensures b.nodes[2].selfId == 2 && 1 in b.nodes[2].remote && b.nodes[2].remote[1] == OriginInterest(2, {y}, {})
    ensures DigestMsg(digest) in b.sent && 1 !in digest
  {
    steps, b := MissedEdgeRun(x, y);
    digest := BuildDigest(b.nodes[3]);
    assert 1 !in digest;
    RunSnoc(Start(), steps, b, SendDigest(3));
    steps, b := steps + [SendDigest(3)], Next(b, SendDigest(3));
  }

  lemma WouldAnswer(b: Net, digest: Digest)
    requires 1 in b.nodes && 2 in b.nodes && 1 !in digest
    requires b.nodes[1].selfId == 1 && b.nodes[1].local.version == 2
    requires 1 in b.nodes[2].remote && b.nodes[2].remote[1].version == 2
    ensures SnapshotOf(1, b.nodes[1].local) in RespondToDigest(b.nodes[1], digest)
    ensures SnapshotOf(1, b.nodes[2].remote[1]) in RespondToDigest(b.nodes[2], digest)
  {
    assert AnswersSelf(b.nodes[1], digest) && AnswersRemote(b.nodes[2], digest, 1);
  }

  /** Nodes 1 and 2 both answer the digest of node 3 about origin 1. */
  lemma ForwardingRun(x: Name, y: Name) returns (steps: seq<Step>, b: Net, stale: Snapshot, good: Snapshot)
    requires x != y
    ensures Run(Start(), steps, b) && b.nodes.Keys == {1, 2, 3} && b.nodes[3] == Fresh(3, ByInterest)
    ensures b.nodes[1].local == OriginInterest(2, {x, y}, {})
    ensures SnapshotMsg(stale) in b.sent && stale.origin == 1 && stale.Content() == OriginInterest(2, {y}, {})
    ensures SnapshotMsg(good) in b.sent && good.origin == 1 && good.Content() == OriginInterest(2, {x, y}, {})
  {
    var digest;
    steps, b, digest := AskedRun(x, y);
    stale := SnapshotOf(1, b.nodes[2].remote[1]);
    good := SnapshotOf(1, b.nodes[1].local);
    WouldAnswer(b, digest);
    steps, b := DrawAnswer(Start(), steps, b, 2, digest, stale);
    steps, b := DrawAnswer(Start(), steps, b, 1, digest, good);
  }

  /** Node 3 mirrors origin 1, and delivering the snapshot makes it wrong. */
  ghost predicate Undoes(b: Net, s: Snapshot)
  {
    && b.nodes.Keys == {1, 2, 3} && Exact(b, 3, 1)
    && Enabled(b, DeliverSnapshot(3, s)) && !Exact(Next(b, DeliverSnapshot(3, s)), 3, 1)
  }

  /** A repaired table can be broken again by a forwarded snapshot that was in flight all along. */
  lemma LateForwardUndoesRepair()
    ensures exists steps, b, stale :: Run(Start(), steps, b) && Undoes(b, stale)
  {
    var x: Name := [];
    var y: Name := RoomY();
    assert x != y by { assert |y| > 0; }
    var steps, b, stale, good := ForwardingRun(x, y);
    RunSnoc(Start(), steps, b, DeliverSnapshot(3, good));
    StaleUndoes(b, x, y, good, stale);
  }

  lemma StaleUndoes(b: Net, x: Name, y: Name, good: Snapshot, stale: Snapshot)
    requires x != y && b.nodes.Keys == {1, 2, 3} && b.nodes[3] == Fresh(3, ByInterest)
    requires b.nodes[1].local == OriginInterest(2, {x, y}, {})
    requires SnapshotMsg(stale) in b.sent && stale.origin == 1 && stale.Content() == OriginInterest(2, {y}, {})
    requires SnapshotMsg(good) in b.sent && good.origin == 1 && good.Content() == OriginInterest(2, {x, y}, {})
    ensures Undoes(Next(b, DeliverSnapshot(3, good)), stale)
  {
    assert x in b.nodes[1].local.rooms && x !in stale.Content().rooms;
  }
}
