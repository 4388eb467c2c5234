/** Where claims about a node say it listens: its own address, in every run (crates/mesh/src/swim.rs). */
module SwimAddresses {
  import opened Prelude
  import opened Swim
  import opened MembershipSync
  import opened SwimCluster

  // ── what a merge stores ──

  /** The entry carries what the update said, stamped with the time of the merge. */
  predicate Stores(m: Member, u: Update, now: nat)
  {
    m.addr == u.addr && m.state == u.state && m.inc == u.inc && m.since == now
  }

  /** The entry for `id` is the one held before, or one that an update on offer brought. */
  ghost predicate FromOffer(t: Table, us: seq<Update>, t': Table, now: nat, id: NodeId)
  {
    id in t'.members ==>
      || (id in t.members && t'.members[id] == t.members[id])
      || exists u :: u in us && u.id == id && Stores(t'.members[id], u, now)
  }

  lemma {:induction false} MergeStoresOffers(t: Table, us: seq<Update>, budget: nat, now: nat, id: NodeId)
    ensures FromOffer(t, us, MergeAll(t, us, budget, now), now, id)
    decreases |us|
  {
    if us != [] {
      var t1 := Merge(t, us[0], budget, now).0;
      MergeStoresOffers(t1, us[1..], budget, now, id);
      assert us[0] in us && forall u | u in us[1..] :: u in us;
    }
  }

  // ── every run ──

  type Addrs = map<NodeId, Addr>

  /** The update gives its subject's own address. */
  predicate Right(addrs: Addrs, u: Update)
  {
    u.id in addrs && u.addr == addrs[u.id]
  }

  ghost predicate TableRight(addrs: Addrs, t: Table)
  {
    && t.selfId in addrs && t.selfAddr == addrs[t.selfId]
    && (forall x | x in t.members :: x in addrs && t.members[x].addr == addrs[x])
    && (forall r | r in t.gossip :: Right(addrs, r.fact))
  }

  ghost predicate MsgRight(addrs: Addrs, m: Msg)
  {
    m.Digest? || forall u | u in m.updates :: Right(addrs, u)
  }

  function AddrsOf(net: Net): Addrs
  {
    map n | n in net.nodes :: net.nodes[n].selfAddr
  }

  ghost predicate AllRight(net: Net)
  {
    && (forall n | n in net.nodes :: net.nodes[n].selfId == n && TableRight(AddrsOf(net), net.nodes[n]))
    && (forall m | m in net.sent :: MsgRight(AddrsOf(net), m))
  }

  lemma EnqueueRight(addrs: Addrs, g: seq<Rumour>, u: Update, budget: nat)
    requires (forall r | r in g :: Right(addrs, r.fact)) && Right(addrs, u)
    ensures forall r | r in Enqueue(g, u, budget) :: Right(addrs, r.fact)
  {
    WithoutKeepsOthers(g, u.id);
  }

  lemma MergeRight(addrs: Addrs, t: Table, u: Update, budget: nat, now: nat)
    requires TableRight(addrs, t) && Right(addrs, u)
    ensures var t' := Merge(t, u, budget, now).0;
      TableRight(addrs, t') && t'.selfId == t.selfId && t'.selfAddr == t.selfAddr
  {
    var t' := Merge(t, u, budget, now).0;
    if Refutes(t, u) {
      EnqueueRight(addrs, t.gossip, SelfUpdate(t'), budget);
    } else {
      EnqueueRight(addrs, t.gossip, u, budget);
    }
  }

  lemma {:induction false} MergeAllRight(addrs: Addrs, t: Table, us: seq<Update>, budget: nat, now: nat)
    requires TableRight(addrs, t) && forall u | u in us :: Right(addrs, u)
    ensures var t' := MergeAll(t, us, budget, now);
      TableRight(addrs, t') && t'.selfId == t.selfId && t'.selfAddr == t.selfAddr
    decreases |us|
  {
    if us != [] {
      MergeRight(addrs, t, us[0], budget, now);
      MergeAllRight(addrs, Merge(t, us[0], budget, now).0, us[1..], budget, now);
    }
  }

  lemma PiggybackRight(addrs: Addrs, t: Table, max: nat)
    requires TableRight(addrs, t)
    ensures TableRight(addrs, Piggyback(t, max).0) && forall u | u in Piggyback(t, max).1 :: Right(addrs, u)
  {
    var (t', out) := Piggyback(t, max);
    var k := |out| - 1;
    forall r | r in t'.gossip ensures Right(addrs, r.fact) {
      if r in Spend(t.gossip[..k]) {
        SpendFacts(t.gossip[..k], r);
      }
    }
  }

  lemma AckRight(addrs: Addrs, t: Table, from: NodeId, budget: nat, now: nat)
    requires TableRight(addrs, t)
    ensures var t' := NoteDirectAck(t, from, budget, now).0;
      TableRight(addrs, t') && t'.selfId == t.selfId && t'.selfAddr == t.selfAddr
  {
    if from in t.members && t.members[from].state == Suspect {
      EnqueueRight(addrs, t.gossip, Update(from, t.members[from].addr, Alive, t.members[from].inc), budget);
    }
  }

  lemma FullStateRight(addrs: Addrs, t: Table)
    requires TableRight(addrs, t)
    ensures forall u | u in FullState(t) :: Right(addrs, u)
  {
  }

  lemma DeclaredRight(addrs: Addrs, t: Table, ids: seq<NodeId>)
    requires TableRight(addrs, t) && forall id | id in ids :: id in t.members
    ensures forall u | u in DeclareDead(t, ids) :: Right(addrs, u)
  {
  }

  lemma TableStepRight(net: Net, step: Step)
    requires AllRight(net) && Enabled(net, step)
    ensures var t, t' := net.nodes[step.n], Next(net, step).nodes[step.n];
      TableRight(AddrsOf(net), t') && t'.selfId == t.selfId && t'.selfAddr == t.selfAddr
  {
    var addrs, t := AddrsOf(net), net.nodes[step.n];
    match step
    case Receive(_, msg, _, budget, now) =>
      assert MsgRight(addrs, msg);
      if !msg.Digest? {
        MergeAllRight(addrs, t, msg.updates, budget, now);
      }
    case GossipTick(_, max) => PiggybackRight(addrs, t, max);
    case NoAck(_, target, budget, now) =>
      if target in t.members {
        MergeRight(addrs, t, EntryUpdate(t, target).(state := Suspect), budget, now);
      }
    case DirectAck(_, from, budget, now) => AckRight(addrs, t, from, budget, now);
    case Expire(_, ids, timeout, budget, now) =>
      ExpireInTable(t, ids, timeout, now);
      DeclaredRight(addrs, t, ids);
      MergeAllRight(addrs, t, DeclareDead(t, ids), budget, now);
    case _ =>
  }

  lemma SendsRight(net: Net, step: Step, m: Msg)
    requires AllRight(net) && Enabled(net, step) && m in Sends(net.nodes[step.n], step)
    ensures MsgRight(AddrsOf(net), m)
  {
    var addrs, t := AddrsOf(net), net.nodes[step.n];
    TableStepRight(net, step);
    FullStateRight(addrs, Next(net, step).nodes[step.n]);
    match step
    case Receive(_, msg, answer, _, _) =>
      assert !m.Digest? ==> forall u | u in m.updates :: u in Elements(m.updates);
    case LinkUp(_, listing) =>
      assert forall u | u in listing :: u in Elements(listing);
    case GossipTick(_, max) => PiggybackRight(addrs, t, max);
    case _ =>
  }

  lemma SameAddrs(net: Net, step: Step)
    requires AllRight(net) && Enabled(net, step)
    ensures AddrsOf(Next(net, step)) == AddrsOf(net)
  {
    TableStepRight(net, step);
  }

  lemma StepKeepsRight(net: Net, step: Step)
    requires AllRight(net) && Enabled(net, step)
    ensures AllRight(Next(net, step))
  {
    var net' := Next(net, step);
    SameAddrs(net, step);
    forall n | n in net'.nodes ensures net'.nodes[n].selfId == n && TableRight(AddrsOf(net), net'.nodes[n]) {
      if n == step.n {
        TableStepRight(net, step);
      }
    }
    forall m | m in net'.sent ensures MsgRight(AddrsOf(net), m) {
      if m !in net.sent {
        SendsRight(net, step, m);
      }
    }
  }

  lemma {:induction false} RunKeepsRight(a: Net, steps: seq<Step>, b: Net)
    requires AllRight(a) && Run(a, steps, b)
    ensures AllRight(b) && AddrsOf(b) == AddrsOf(a)
    decreases |steps|
  {
    if steps != [] {
      StepKeepsRight(a, steps[0]);
      SameAddrs(a, steps[0]);
      RunKeepsRight(Next(a, steps[0]), steps[1..], b);
    }
  }

  /**
   * In every run of a fresh cluster nobody's address is ever mistaken: every table entry, gossip entry and update sent
   * about a node carries the address that node started with.
   */
  lemma AddressesStayRight(a: Net, steps: seq<Step>, b: Net)
    requires Init(a) && Run(a, steps, b)
    ensures forall n | n in b.nodes :: n in a.nodes && b.nodes[n].selfAddr == a.nodes[n].selfAddr
    ensures forall n, x | n in b.nodes && x in b.nodes[n].members ::
      x in a.nodes && b.nodes[n].members[x].addr == a.nodes[x].selfAddr
    ensures forall n, r | n in b.nodes && r in b.nodes[n].gossip ::
      r.fact.id in a.nodes && r.fact.addr == a.nodes[r.fact.id].selfAddr
    ensures forall m, u | m in b.sent && !m.Digest? && u in m.updates ::
      u.id in a.nodes && u.addr == a.nodes[u.id].selfAddr
  {
    RunKeepsRight(a, steps, b);
    var addrs := AddrsOf(a);
    assert forall u | Right(addrs, u) :: u.id in a.nodes && u.addr == a.nodes[u.id].selfAddr;
    forall n | n in b.nodes ensures n in a.nodes && b.nodes[n].selfAddr == a.nodes[n].selfAddr {
      assert n in AddrsOf(b);
    }
    assert forall n | n in b.nodes :: TableRight(addrs, b.nodes[n]);
    assert forall m | m in b.sent :: MsgRight(addrs, m);
  }
}
