/** A reachable state in which a digest exchange leaves the asker behind (crates/mesh/src/membership_sync.rs). */
module SwimLimits {
  import opened Prelude
  import opened Swim
  import opened MembershipSync
  import opened SwimCluster

  function Start(addr: Addr): Net
  {
    Net(map[1 := Fresh(1, addr), 2 := Fresh(2, addr), 3 := Fresh(3, addr)], {})
  }

  /** The third node as it announces itself. */
  function Third(addr: Addr): Update
  {
    Update(3, addr, Alive, 1)
  }

  lemma {:induction false} RunSnoc(a: Net, steps: seq<Step>, b: Net, step: Step)
    requires Run(a, steps, b) && Enabled(b, step)
    ensures Run(a, steps + [step], Next(b, step))
    decreases |steps|
  {
    if steps == [] {
      assert ([] + [step])[0] == step && ([] + [step])[1..] == [];
    } else {
      RunSnoc(Next(a, steps[0]), steps[1..], b, step);
      assert (steps + [step])[1..] == steps[1..] + [step];
    }
  }

  /** A node that has just heard of the third one. */
  ghost predicate Heard(t: Table, n: NodeId, state: MState)
  {
    t.selfId == n && t.selfInc == 1 && t.members.Keys == {3} && View(t, 3) == Some(Claim(1, state))
  }

  lemma FirstHearing(n: NodeId, addr: Addr)
    requires n != 3
    ensures Heard(MergeAll(Fresh(n, addr), [Third(addr)], 0, 0), n, Alive)
  {
    var t, u := Fresh(n, addr), Third(addr);
    assert MergeAll(t, [u], 0, 0) == MergeAll(Merge(t, u, 0, 0).0, [u][1..], 0, 0) == Merge(t, u, 0, 0).0;
  }

  /** Nodes 1 and 2 both hear of node 3. */
  lemma BothHear(addr: Addr) returns (steps: seq<Step>, b: Net)
    ensures Run(Start(addr), steps, b) && b.nodes.Keys == {1, 2, 3}
    ensures Heard(b.nodes[1], 1, Alive) && Heard(b.nodes[2], 2, Alive)
  {
    var a, msg := Start(addr), Gossip([Third(addr)]);
    var tick := GossipTick(3, 1);
    assert Piggyback(a.nodes[3], 1).1 == [Third(addr)];
    RunSnoc(a, [], a, tick);
    var s1, b1 := [] + [tick], Next(a, tick);
    assert msg in b1.sent && b1.nodes[1] == Fresh(1, addr) && b1.nodes[2] == Fresh(2, addr);
    var r1 := Receive(1, msg, None, 0, 0);
    RunSnoc(a, s1, b1, r1);
    var s2, b2 := s1 + [r1], Next(b1, r1);
    FirstHearing(1, addr);
    var r2 := Receive(2, msg, None, 0, 0);
    RunSnoc(a, s2, b2, r2);
    FirstHearing(2, addr);
    steps, b := s2 + [r2], Next(b2, r2);
  }

  /** Node 1 then gets no ack from node 3 and suspects it. */
  lemma OneSuspects(addr: Addr) returns (steps: seq<Step>, b: Net)
    ensures Run(Start(addr), steps, b) && b.nodes.Keys == {1, 2, 3}
    ensures Heard(b.nodes[1], 1, Suspect) && Heard(b.nodes[2], 2, Alive)
  {
    steps, b := BothHear(addr);
    var step := NoAck(1, 3, 0, 0);
    RunSnoc(Start(addr), steps, b, step);
    steps, b := steps + [step], Next(b, step);
  }

  lemma DigestOf(t: Table)
    requires Heard(t, 2, Alive)
    ensures IsDigest(t, [(2, 1), (3, 1)])
  {
    var entries: seq<(NodeId, nat)> := [(2, 1), (3, 1)];
    var self, entry := SelfUpdate(t), EntryUpdate(t, 3);
    assert FullState(t) == {self, entry};
    assert Elements(entries) == {(2, 1), (3, 1)};
    assert (self.id, self.inc) == (2, 1) && (entry.id, entry.inc) == (3, 1);
  }

  /** At equal incarnations the suspicion is not newer: node 1 answers with itself alone. */
  lemma AnswerOf(t: Table)
    requires Heard(t, 1, Suspect)
    ensures Answers(Digest([(2, 1), (3, 1)]), t, Some(Gossip([SelfUpdate(t)])))
  {
    var entries: seq<(NodeId, nat)> := [(2, 1), (3, 1)];
    assert entries[..1] == [(2, 1)] && [(2, 1)][..0] == [];
    assert Collect([(2, 1)]) == map[2 := 1] && Collect(entries) == map[2 := 1, 3 := 1];
    assert Newer(t, entries) == {SelfUpdate(t)};
  }

  /** Hearing of node 1 alone leaves node 2's claim about node 3. */
  lemma LearnsOnlyOne(t: Table, u: Update)
    requires Heard(t, 2, Alive) && u.id == 1
    ensures View(MergeAll(t, [u], 0, 0), 3) == Some(Claim(1, Alive))
  {
    assert MergeAll(t, [u], 0, 0) == MergeAll(Merge(t, u, 0, 0).0, [u][1..], 0, 0) == Merge(t, u, 0, 0).0;
  }

  /** Node 2 asks with its digest, and node 1 answers. */
  lemma AskedAndAnswered(addr: Addr, entries: seq<(NodeId, nat)>) returns (steps: seq<Step>, b: Net, reply: Msg)
    requires entries == [(2, 1), (3, 1)]
    ensures Run(Start(addr), steps, b) && b.nodes.Keys == {1, 2, 3} && |steps| >= 2
    ensures steps[|steps| - 2] == DigestTick(2, entries)
    ensures steps[|steps| - 1] == Receive(1, Digest(entries), Some(reply), 0, 0)
    ensures reply.Gossip? && |reply.updates| == 1 && reply.updates[0].id == 1 && reply in b.sent
    ensures Heard(b.nodes[1], 1, Suspect) && Heard(b.nodes[2], 2, Alive)
  {
    var s0, b0 := OneSuspects(addr);
    DigestOf(b0.nodes[2]);
    RunSnoc(Start(addr), s0, b0, DigestTick(2, entries));
    var s1, b1 := s0 + [DigestTick(2, entries)], Next(b0, DigestTick(2, entries));
    reply := Gossip([SelfUpdate(b1.nodes[1])]);
    AnswerOf(b1.nodes[1]);
    var hear := Receive(1, Digest(entries), Some(reply), 0, 0);
    RunSnoc(Start(addr), s1, b1, hear);
    steps, b := s1 + [hear], Next(b1, hear);
  }

  /** Node 2 takes the answer and is no wiser about node 3. */
  lemma TakesAnswer(a: Net, s0: seq<Step>, b0: Net, reply: Msg, learn: Step) returns (b: Net)
    requires Run(a, s0, b0) && b0.nodes.Keys == {1, 2, 3} && learn == Receive(2, reply, None, 0, 0)
    requires reply.Gossip? && |reply.updates| == 1 && reply.updates[0].id == 1 && reply in b0.sent
    requires Heard(b0.nodes[1], 1, Suspect) && Heard(b0.nodes[2], 2, Alive)
    ensures Run(a, s0 + [learn], b) && b.nodes.Keys == {1, 2, 3}
    ensures Told(b.nodes[1], 3) == Some(Claim(1, Suspect)) && View(b.nodes[2], 3) == Some(Claim(1, Alive))
  {
    RunSnoc(a, s0, b0, learn);
    assert reply.updates == [reply.updates[0]];
    LearnsOnlyOne(b0.nodes[2], reply.updates[0]);
    b := Next(b0, learn);
  }

  lemma StartIsFresh(addr: Addr)
    ensures Init(Start(addr))
  {
  }

  /**
   * A run of a fresh cluster that ends with a whole digest exchange, asked by node 2 and answered by node 1, after
   * which node 1 suspects node 3 at incarnation 1 and node 2 still holds it alive at 1: the stronger claim is missing.
   */
  lemma DigestMissesSuspicion(addr: Addr) returns (steps: seq<Step>, b: Net)
    ensures Init(Start(addr)) && Run(Start(addr), steps, b) && b.nodes.Keys == {1, 2, 3} && |steps| >= 3
    ensures var ask, hear, learn := steps[|steps| - 3], steps[|steps| - 2], steps[|steps| - 1];
      && ask.DigestTick? && ask.n == 2
      && hear.Receive? && hear.n == 1 && hear.msg == Digest(ask.entries)
      && learn.Receive? && learn.n == 2 && Some(learn.msg) == hear.answer
    ensures Told(b.nodes[1], 3) == Some(Claim(1, Suspect)) && View(b.nodes[2], 3) == Some(Claim(1, Alive))
    ensures !AtLeast(View(b.nodes[2], 3), Told(b.nodes[1], 3).value)
  {
    StartIsFresh(addr);
    var s0, b0, reply := AskedAndAnswered(addr, [(2, 1), (3, 1)]);
    var learn := Receive(2, reply, None, 0, 0);
    b := TakesAnswer(Start(addr), s0, b0, reply, learn);
    steps := s0 + [learn];
    assert steps[|steps| - 3] == s0[|s0| - 2] && steps[|steps| - 2] == s0[|s0| - 1];
  }
}
