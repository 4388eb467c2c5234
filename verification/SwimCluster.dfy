/**
 * Whole runs of the membership protocol: tables and the messages ever sent.
 * A sent message may be delivered any number of times, to any node, in any order, or never.
 */
module SwimCluster {
  import opened Prelude
  import opened Swim
  import opened MembershipSync
  import SwimHeal

  datatype Net = Net(nodes: map<NodeId, Table>, sent: set<Msg>)

  datatype Step =
    | Receive(n: NodeId, msg: Msg, answer: Option<Msg>, budget: nat, now: nat)
    | LinkUp(n: NodeId, listing: seq<Update>)
    | GossipTick(n: NodeId, max: nat)
    | DigestTick(n: NodeId, entries: seq<(NodeId, nat)>)
    | NoAck(n: NodeId, target: NodeId, budget: nat, now: nat)
    | DirectAck(n: NodeId, from: NodeId, budget: nat, now: nat)
    | Expire(n: NodeId, ids: seq<NodeId>, timeout: nat, budget: nat, now: nat)

  ghost predicate Init(net: Net)
  {
    net.sent == {} && forall n | n in net.nodes :: net.nodes[n] == Fresh(n, net.nodes[n].selfAddr)
  }

  ghost predicate Enabled(net: Net, step: Step)
  {
    && step.n in net.nodes
    && var t := net.nodes[step.n];
       match step
       case Receive(_, msg, answer, budget, now) => msg in net.sent && Answers(msg, Apply(msg, t, budget, now), answer)
       case LinkUp(_, listing) => Lists(listing, t)
       case DigestTick(_, entries) => IsDigest(t, entries)
       case Expire(_, ids, timeout, _, now) => Elements(ids) == Expired(t, timeout, now)
       case _ => true
  }

  ghost function NextTable(t: Table, step: Step): Table
    requires step.Expire? ==> forall id | id in step.ids :: id in t.members
  {
    match step
    case Receive(_, msg, _, budget, now) => Apply(msg, t, budget, now)
    case LinkUp(_, _) => t
    case GossipTick(_, max) => Piggyback(t, max).0
    case DigestTick(_, _) => t
    case NoAck(_, target, budget, now) => Suspicion(t, target, budget, now).0
    case DirectAck(_, from, budget, now) => NoteDirectAck(t, from, budget, now).0
    case Expire(_, ids, _, budget, now) => MergeAll(t, DeclareDead(t, ids), budget, now)
  }

  function Sends(t: Table, step: Step): set<Msg>
  {
    match step
    case Receive(_, _, answer, _, _) => if answer.Some? then {answer.value} else {}
    case LinkUp(_, listing) => {Sync(true, listing)}
    case GossipTick(_, max) => {Gossip(Piggyback(t, max).1)}
    case DigestTick(_, entries) => {Digest(entries)}
    case _ => {}
  }

  lemma ExpireInTable(t: Table, ids: seq<NodeId>, timeout: nat, now: nat)
    requires Elements(ids) == Expired(t, timeout, now)
    ensures forall id | id in ids :: id in t.members && t.members[id].state == Suspect
  {
    assert forall id | id in ids :: id in Elements(ids);
  }

  ghost function Next(net: Net, step: Step): Net
    requires Enabled(net, step)
  {
    var t := net.nodes[step.n];
    if step.Expire? then
      ExpireInTable(t, step.ids, step.timeout, step.now);
      Net(net.nodes[step.n := NextTable(t, step)], net.sent)
    else
      Net(net.nodes[step.n := NextTable(t, step)], net.sent + Sends(t, step))
  }

  ghost predicate Run(a: Net, steps: seq<Step>, b: Net)
    decreases |steps|
  {
    if steps == [] then a == b else Enabled(a, steps[0]) && Run(Next(a, steps[0]), steps[1..], b)
  }

  // ── no claim outruns its subject ──

  type Incs = map<NodeId, nat>

  predicate Within(incs: Incs, u: Update)
  {
    u.id in incs && u.inc <= incs[u.id]
  }

  ghost predicate TableWithin(incs: Incs, t: Table)
  {
    && t.selfId in incs && t.selfInc == incs[t.selfId] && t.selfId !in t.members
    && (forall x | x in t.members :: x in incs && t.members[x].inc <= incs[x])
    && (forall r | r in t.gossip :: Within(incs, r.fact))
  }

  function Grown(incs: Incs, t: Table): Incs
  {
    incs[t.selfId := t.selfInc]
  }

  lemma EnqueueWithin(incs: Incs, g: seq<Rumour>, u: Update, budget: nat)
    requires (forall r | r in g :: Within(incs, r.fact)) && Within(incs, u)
    ensures forall r | r in Enqueue(g, u, budget) :: Within(incs, r.fact)
  {
    WithoutKeepsOthers(g, u.id);
  }

  lemma MergeWithin(incs: Incs, t: Table, u: Update, budget: nat, now: nat)
    requires TableWithin(incs, t) && Within(incs, u)
    ensures var t' := Merge(t, u, budget, now).0;
      TableWithin(Grown(incs, t'), t') && t'.selfId == t.selfId && t.selfInc <= t'.selfInc <= t.selfInc + 1
  {
    var t' := Merge(t, u, budget, now).0;
    var incs' := Grown(incs, t');
    assert forall v | Within(incs, v) :: Within(incs', v);
    if Refutes(t, u) {
      EnqueueWithin(incs', t.gossip, SelfUpdate(t'), budget);
    } else {
      EnqueueWithin(incs', t.gossip, u, budget);
    }
  }

  /** A batch raises the receiver's incarnation by one at most, and only through a refutation. */
  lemma {:induction false} MergeAllWithin(incs: Incs, t: Table, us: seq<Update>, budget: nat, now: nat)
    requires TableWithin(incs, t) && forall u | u in us :: Within(incs, u)
    ensures var t' := MergeAll(t, us, budget, now);
      TableWithin(Grown(incs, t'), t') && t'.selfId == t.selfId
    decreases |us|
  {
    if us == [] {
      assert Grown(incs, t) == incs;
    } else {
      var t1 := Merge(t, us[0], budget, now).0;
      MergeWithin(incs, t, us[0], budget, now);
      var incs1 := Grown(incs, t1);
      assert forall u | Within(incs, u) :: Within(incs1, u);
      MergeAllWithin(incs1, t1, us[1..], budget, now);
      assert forall t2: Table | t2.selfId == t.selfId :: Grown(incs1, t2) == Grown(incs, t2);
    }
  }

  lemma {:induction false} SpendFacts(g: seq<Rumour>, r: Rumour)
    requires r in Spend(g)
    ensures exists r' :: r' in g && r'.fact == r.fact
  {
    if r in Spend(g[1..]) {
      SpendFacts(g[1..], r);
    } else {
      assert g[0].fact == r.fact;
    }
  }

  lemma PiggybackWithin(incs: Incs, t: Table, max: nat)
    requires TableWithin(incs, t)
    ensures TableWithin(incs, Piggyback(t, max).0)
    ensures forall u | u in Piggyback(t, max).1 :: Within(incs, u)
  {
    var (t', out) := Piggyback(t, max);
    var k := |out| - 1;
    forall r | r in t'.gossip ensures Within(incs, r.fact) {
      if r in Spend(t.gossip[..k]) {
        SpendFacts(t.gossip[..k], r);
      }
    }
  }

  function IncsOf(net: Net): Incs
  {
    map n | n in net.nodes :: net.nodes[n].selfInc
  }

  ghost predicate MsgWithin(incs: Incs, m: Msg)
  {
    m.Digest? || forall u | u in m.updates :: Within(incs, u)
  }

  ghost predicate Inv(net: Net)
  {
    && (forall n | n in net.nodes :: net.nodes[n].selfId == n && TableWithin(IncsOf(net), net.nodes[n]))
    && (forall m | m in net.sent :: MsgWithin(IncsOf(net), m))
  }

  lemma FullStateWithin(incs: Incs, t: Table)
    requires TableWithin(incs, t)
    ensures forall u | u in FullState(t) :: Within(incs, u)
  {
  }

  lemma AckWithin(incs: Incs, t: Table, from: NodeId, budget: nat, now: nat)
    requires TableWithin(incs, t)
    ensures TableWithin(incs, NoteDirectAck(t, from, budget, now).0)
  {
    if from in t.members && t.members[from].state == Suspect {
      EnqueueWithin(incs, t.gossip, Update(from, t.members[from].addr, Alive, t.members[from].inc), budget);
    }
  }

  /** The table a step leaves is within bounds grown only at the stepping node. */
  lemma TableStep(net: Net, step: Step)
    requires Inv(net) && Enabled(net, step)
    ensures var t' := Next(net, step).nodes[step.n];
      t'.selfId == step.n && TableWithin(Grown(IncsOf(net), t'), t') && net.nodes[step.n].selfInc <= t'.selfInc
  {
    var incs, t := IncsOf(net), net.nodes[step.n];
    assert Grown(incs, t) == incs;
    match step
    case Receive(_, msg, _, budget, now) =>
      assert MsgWithin(incs, msg);
      if !msg.Digest? {
        MergeAllWithin(incs, t, msg.updates, budget, now);
        MergeAllSelf(t, msg.updates, budget, now);
      }
    case GossipTick(_, max) => PiggybackWithin(incs, t, max);
    case NoAck(_, target, budget, now) =>
      if target in t.members {
        MergeWithin(incs, t, EntryUpdate(t, target).(state := Suspect), budget, now);
      }
    case DirectAck(_, from, budget, now) => AckWithin(incs, t, from, budget, now);
    case Expire(_, ids, timeout, budget, now) =>
      ExpireInTable(t, ids, timeout, now);
      MergeAllWithin(incs, t, DeclareDead(t, ids), budget, now);
      MergeAllSelf(t, DeclareDead(t, ids), budget, now);
    case _ =>
  }

  lemma SendsWithin(net: Net, step: Step, m: Msg)
    requires Inv(net) && Enabled(net, step) && m in Sends(net.nodes[step.n], step)
    ensures MsgWithin(IncsOf(Next(net, step)), m)
  {
    TableStep(net, step);
    var incs, incs', t := IncsOf(net), IncsOf(Next(net, step)), net.nodes[step.n];
    var t' := Next(net, step).nodes[step.n];
    assert incs' == Grown(incs, t');
    FullStateWithin(incs', t');
    match step
    case Receive(_, msg, answer, _, _) =>
      assert !m.Digest? ==> forall u | u in m.updates :: u in Elements(m.updates);
    case LinkUp(_, listing) =>
      assert forall u | u in listing :: u in Elements(listing);
    case GossipTick(_, max) =>
      PiggybackWithin(incs, t, max);
      assert forall u | Within(incs, u) :: Within(incs', u);
    case _ =>
  }

  lemma GrownKeepsTable(incs: Incs, t': Table, t: Table)
    requires TableWithin(incs, t) && t.selfId != t'.selfId && t'.selfId in incs && incs[t'.selfId] <= t'.selfInc
    ensures TableWithin(Grown(incs, t'), t)
  {
  }

  lemma GrownKeepsMsg(incs: Incs, t': Table, m: Msg)
    requires MsgWithin(incs, m) && t'.selfId in incs && incs[t'.selfId] <= t'.selfInc
    ensures MsgWithin(Grown(incs, t'), m)
  {
  }

  lemma StepKeepsInv(net: Net, step: Step)
    requires Inv(net) && Enabled(net, step)
    ensures Inv(Next(net, step))
  {
    var net' := Next(net, step);
    forall n | n in net'.nodes ensures net'.nodes[n].selfId == n && TableWithin(IncsOf(net'), net'.nodes[n]) {
      StepKeepsTable(net, step, n);
    }
    forall m | m in net'.sent ensures MsgWithin(IncsOf(net'), m) {
      StepKeepsMsg(net, step, m);
    }
  }

  lemma IncsGrow(net: Net, step: Step)
    requires Inv(net) && Enabled(net, step)
    ensures IncsOf(Next(net, step)) == Grown(IncsOf(net), Next(net, step).nodes[step.n])
  {
    TableStep(net, step);
  }

  lemma StepKeepsTable(net: Net, step: Step, n: NodeId)
    requires Inv(net) && Enabled(net, step) && n in Next(net, step).nodes
    ensures var net' := Next(net, step); net'.nodes[n].selfId == n && TableWithin(IncsOf(net'), net'.nodes[n])
  {
    TableStep(net, step);
    IncsGrow(net, step);
    if n != step.n {
      GrownKeepsTable(IncsOf(net), Next(net, step).nodes[step.n], net.nodes[n]);
    }
  }

  lemma StepKeepsMsg(net: Net, step: Step, m: Msg)
    requires Inv(net) && Enabled(net, step) && m in Next(net, step).sent
    ensures MsgWithin(IncsOf(Next(net, step)), m)
  {
    if m in net.sent {
      TableStep(net, step);
      IncsGrow(net, step);
      GrownKeepsMsg(IncsOf(net), Next(net, step).nodes[step.n], m);
    } else {
      SendsWithin(net, step, m);
    }
  }

  lemma {:induction false} RunKeepsInv(a: Net, steps: seq<Step>, b: Net)
    requires Inv(a) && Run(a, steps, b)
    ensures Inv(b)
    decreases |steps|
  {
    if steps != [] {
      StepKeepsInv(a, steps[0]);
      RunKeepsInv(Next(a, steps[0]), steps[1..], b);
    }
  }

  /**
   * In every run of a fresh cluster, every claim about a node in any table, gossip list or message carries an
   * incarnation at most the node's own, and no table holds its own node.
   */
  lemma NoClaimOutruns(a: Net, steps: seq<Step>, b: Net)
    requires Init(a) && Run(a, steps, b)
    ensures forall n, x | n in b.nodes && x in b.nodes[n].members ::
      x != n && x in b.nodes && b.nodes[n].members[x].inc <= b.nodes[x].selfInc
    ensures forall n, r | n in b.nodes && r in b.nodes[n].gossip ::
      r.fact.id in b.nodes && r.fact.inc <= b.nodes[r.fact.id].selfInc
    ensures forall m, u | m in b.sent && !m.Digest? && u in m.updates ::
      u.id in b.nodes && u.inc <= b.nodes[u.id].selfInc
  {
    InitInv(a);
    RunKeepsInv(a, steps, b);
    assert forall u | Within(IncsOf(b), u) :: u.id in b.nodes && u.inc <= b.nodes[u.id].selfInc;
    assert forall n | n in b.nodes :: TableWithin(IncsOf(b), b.nodes[n]);
    assert forall m | m in b.sent :: MsgWithin(IncsOf(b), m);
  }

  lemma InitInv(net: Net)
    requires Init(net)
    ensures Inv(net)
  {
  }

  // ── what a step may change ──

  /** A refutation raises the refuting node's incarnation by exactly one; nothing else moves any incarnation. */
  lemma RefutationIsOne(net: Net, step: Step, n: NodeId)
    requires Inv(net) && Enabled(net, step) && n in net.nodes
    ensures var refuted := n == step.n && step.Receive? && !step.msg.Digest? &&
        exists u :: u in step.msg.updates && Refutes(net.nodes[n], u);
      Next(net, step).nodes[n].selfInc == if refuted then net.nodes[n].selfInc + 1 else net.nodes[n].selfInc
  {
    if n == step.n {
      var t := net.nodes[n];
      match step
      case Receive(_, msg, _, budget, now) =>
        assert MsgWithin(IncsOf(net), msg);
        if !msg.Digest? {
          MergeAllSelf(t, msg.updates, budget, now);
        }
      case Expire(_, ids, timeout, budget, now) =>
        ExpireInTable(t, ids, timeout, now);
        MergeAllSelf(t, DeclareDead(t, ids), budget, now);
      case _ =>
    }
  }

  /** `later` holds a claim about `x` that does not go back on `earlier`'s. */
  ghost predicate Onward(earlier: Option<Claim>, later: Option<Claim>)
  {
    earlier.Some? ==>
      && later.Some? && later.value.inc >= earlier.value.inc
      && (earlier.value.state == Dead && later.value.inc == earlier.value.inc ==> later.value.state == Dead)
  }

  lemma MergeOnward(t: Table, us: seq<Update>, budget: nat, now: nat, x: NodeId)
    requires x != t.selfId
    ensures Onward(View(t, x), View(MergeAll(t, us, budget, now), x))
  {
    MergeAllIsBest(t, us, budget, now, x);
  }

  lemma LocalOnward(t: Table, y: NodeId, budget: nat, now: nat, x: NodeId)
    ensures Onward(View(t, x), View(Suspicion(t, y, budget, now).0, x))
    ensures Onward(View(t, x), View(NoteDirectAck(t, y, budget, now).0, x))
  {
  }

  lemma StepOnward(net: Net, step: Step, n: NodeId, x: NodeId)
    requires Inv(net) && Enabled(net, step) && n in net.nodes && x != n
    ensures Onward(View(net.nodes[n], x), View(Next(net, step).nodes[n], x))
  {
    if n == step.n {
      var t := net.nodes[n];
      match step
      case Receive(_, msg, _, budget, now) =>
        if !msg.Digest? {
          MergeOnward(t, msg.updates, budget, now, x);
        }
      case Expire(_, ids, timeout, budget, now) =>
        ExpireInTable(t, ids, timeout, now);
        MergeOnward(t, DeclareDead(t, ids), budget, now, x);
      case NoAck(_, target, budget, now) => LocalOnward(t, target, budget, now, x);
      case DirectAck(_, from, budget, now) => LocalOnward(t, from, budget, now, x);
      case _ =>
    }
  }

  /** Over a whole run incarnations never fall, and an entry Dead at k stays Dead while it is at k. */
  lemma {:induction false} RunOnward(a: Net, steps: seq<Step>, b: Net, n: NodeId, x: NodeId)
    requires Inv(a) && Run(a, steps, b) && n in a.nodes && x != n
    ensures n in b.nodes && Onward(View(a.nodes[n], x), View(b.nodes[n], x))
    ensures a.nodes[n].selfInc <= b.nodes[n].selfInc
    decreases |steps|
  {
    if steps != [] {
      StepKeepsInv(a, steps[0]);
      StepOnward(a, steps[0], n, x);
      RefutationIsOne(a, steps[0], n);
      RunOnward(Next(a, steps[0]), steps[1..], b, n, x);
    }
  }

  /** Node `n` receives an update about `x` above incarnation `k`. */
  ghost predicate Raises(step: Step, n: NodeId, x: NodeId, k: nat)
  {
    && step.Receive? && step.n == n && !step.msg.Digest?
    && exists u :: u in step.msg.updates && u.id == x && u.inc > k
  }

  lemma StepKeepsDead(net: Net, step: Step, n: NodeId, x: NodeId, k: nat)
    requires Inv(net) && Enabled(net, step) && n in net.nodes && x != n
    requires View(net.nodes[n], x) == Some(Claim(k, Dead)) && !Raises(step, n, x, k)
    ensures View(Next(net, step).nodes[n], x) == Some(Claim(k, Dead))
  {
    if n == step.n {
      var t := net.nodes[n];
      match step
      case Receive(_, msg, _, budget, now) =>
        if !msg.Digest? {
          MergeKeepsDead(t, msg.updates, budget, now, x, k);
        }
      case Expire(_, ids, timeout, budget, now) => ExpiryEffect(t, ids, timeout, budget, now, x);
      case _ =>
    }
  }

  lemma MergeKeepsDead(t: Table, us: seq<Update>, budget: nat, now: nat, x: NodeId, k: nat)
    requires x != t.selfId && View(t, x) == Some(Claim(k, Dead)) && forall u | u in us && u.id == x :: u.inc <= k
    ensures View(MergeAll(t, us, budget, now), x) == Some(Claim(k, Dead))
  {
    MergeAllIsBest(t, us, budget, now, x);
  }

  /** Only receiving an update above `k` ends a death at `k`: no timer, probe or answer does. */
  lemma {:induction false} DeadUntilUpdate(a: Net, steps: seq<Step>, b: Net, n: NodeId, x: NodeId, k: nat)
    requires Inv(a) && Run(a, steps, b) && n in a.nodes && x != n && View(a.nodes[n], x) == Some(Claim(k, Dead))
    ensures n in b.nodes
    ensures View(b.nodes[n], x) == Some(Claim(k, Dead)) || exists i :: 0 <= i < |steps| && Raises(steps[i], n, x, k)
    decreases |steps|
  {
    if steps != [] {
      StepKeepsInv(a, steps[0]);
      if !Raises(steps[0], n, x, k) {
        StepKeepsDead(a, steps[0], n, x, k);
        DeadUntilUpdate(Next(a, steps[0]), steps[1..], b, n, x, k);
        assert forall i | 0 <= i < |steps[1..]| :: steps[1..][i] == steps[i + 1];
      } else {
        var next := Next(a, steps[0]);
        RunKeepsNodes(next, steps[1..], b, n);
      }
    }
  }

  lemma {:induction false} RunKeepsNodes(a: Net, steps: seq<Step>, b: Net, n: NodeId)
    requires Run(a, steps, b) && n in a.nodes
    ensures n in b.nodes
    decreases |steps|
  {
    if steps != [] {
      RunKeepsNodes(Next(a, steps[0]), steps[1..], b, n);
    }
  }

  /** In every run of a fresh cluster a node's incarnation is one more than the refutations it has made. */
  lemma {:induction false} IncarnationCountsRefutations(a: Net, steps: seq<Step>, b: Net, n: NodeId)
    requires Inv(a) && Run(a, steps, b) && n in a.nodes && a.nodes[n].selfInc == 1 + a.nodes[n].counters.refuted
    ensures n in b.nodes && b.nodes[n].selfInc == 1 + b.nodes[n].counters.refuted
    decreases |steps|
  {
    if steps != [] {
      StepKeepsInv(a, steps[0]);
      StepCountsRefutations(a, steps[0], n);
      IncarnationCountsRefutations(Next(a, steps[0]), steps[1..], b, n);
    }
  }

  lemma StepCountsRefutations(net: Net, step: Step, n: NodeId)
    requires Inv(net) && Enabled(net, step) && n in net.nodes
    ensures var t, t' := net.nodes[n], Next(net, step).nodes[n];
      t'.selfInc - t.selfInc == t'.counters.refuted - t.counters.refuted
  {
    if n == step.n {
      var t := net.nodes[n];
      match step
      case Receive(_, msg, _, budget, now) =>
        assert MsgWithin(IncsOf(net), msg);
        if !msg.Digest? {
          RefutedCountsSteps(t, msg.updates, budget, now);
        }
      case Expire(_, ids, timeout, budget, now) =>
        ExpireInTable(t, ids, timeout, now);
        RefutedCountsSteps(t, DeclareDead(t, ids), budget, now);
      case _ =>
    }
  }

  /** In every run each gossip list holds at most one entry per id and at most the cap. */
  lemma {:induction false} RunKeepsGossipOk(a: Net, steps: seq<Step>, b: Net)
    requires Run(a, steps, b) && forall n | n in a.nodes :: GossipOk(a.nodes[n].gossip)
    ensures forall n | n in b.nodes :: GossipOk(b.nodes[n].gossip)
    decreases |steps|
  {
    if steps != [] {
      StepKeepsGossipOk(a, steps[0]);
      RunKeepsGossipOk(Next(a, steps[0]), steps[1..], b);
    }
  }

  lemma StepKeepsGossipOk(net: Net, step: Step)
    requires Enabled(net, step) && forall n | n in net.nodes :: GossipOk(net.nodes[n].gossip)
    ensures forall n | n in Next(net, step).nodes :: GossipOk(Next(net, step).nodes[n].gossip)
  {
    var t := net.nodes[step.n];
    match step
    case Receive(_, msg, _, budget, now) =>
      if !msg.Digest? {
        MergeAllKeepsGossipOk(t, msg.updates, budget, now);
      }
    case GossipTick(_, max) => PiggybackKeepsGossipOk(t, max);
    case NoAck(_, target, budget, now) =>
      if target in t.members {
        var u := EntryUpdate(t, target).(state := Suspect);
        MergeAllKeepsGossipOk(t, [u], budget, now);
        assert MergeAll(t, [u], budget, now) == Merge(t, u, budget, now).0;
      }
    case DirectAck(_, from, budget, now) =>
      if from in t.members {
        EnqueueKeepsGossipOk(t.gossip, Update(from, t.members[from].addr, Alive, t.members[from].inc), budget);
      }
    case Expire(_, ids, timeout, budget, now) =>
      ExpireInTable(t, ids, timeout, now);
      MergeAllKeepsGossipOk(t, DeclareDead(t, ids), budget, now);
    case _ =>
  }

  /** Link-up, the answering receive and the final receive do what one push-pull round trip is defined to do. */
  lemma SyncIsRun(net: Net, s: SwimHeal.Sync) returns (steps: seq<Step>, net': Net)
    requires SwimHeal.SyncOk(net.nodes, s)
    ensures Run(net, steps, net') && net'.nodes == SwimHeal.AfterSync(net.nodes, s)
  {
    var push, pull := Sync(true, s.push), Sync(false, s.pull);
    var s1, s2, s3 := LinkUp(s.a, s.push), Receive(s.b, push, Some(pull), s.budget, s.now),
      Receive(s.a, pull, None, s.budget, s.now);
    var n1 := Next(net, s1);
    assert n1.nodes == net.nodes;
    var n2 := Next(n1, s2);
    assert n2.nodes == net.nodes[s.b := SwimHeal.Pushed(net.nodes, s)] && pull in n2.sent;
    net' := Next(n2, s3);
    steps := [s1, s2, s3];
    assert steps[1..] == [s2, s3] && steps[1..][1..] == [s3] && [s3][1..] == [];
    assert Run(n2, [s3], net');
    assert Run(n1, [s2, s3], net');
  }

  /** Any run of a fresh cluster, then two push-pull passes in any order: no table keeps a stuck entry. */
  lemma ChurnThenTwoPassesHeal(start: Net, steps: seq<Step>, net: Net, first: seq<SwimHeal.Sync>,
    mid: SwimHeal.Cluster, second: seq<SwimHeal.Sync>, end: SwimHeal.Cluster)
    requires Init(start) && Run(start, steps, net)
    requires SwimHeal.Syncs(net.nodes, first, mid) && SwimHeal.FullPass(net.nodes, first)
    requires SwimHeal.Syncs(mid, second, end) && SwimHeal.FullPass(mid, second)
    ensures end.Keys == net.nodes.Keys && SwimHeal.Healed(end)
  {
    InitInv(start);
    RunKeepsInv(start, steps, net);
    assert SwimHeal.Bounded(net.nodes) by {
      forall n | n in net.nodes ensures SwimHeal.TableOk(net.nodes, n) {
        assert TableWithin(IncsOf(net), net.nodes[n]);
      }
    }
    SwimHeal.TwoPassesHeal(net.nodes, first, mid, second, end);
  }
}
