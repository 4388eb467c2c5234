/**
 * SWIM membership of one node (crates/mesh/src/swim.rs): the member table, precedence merge,
 * refutation and the gossip list. Incarnations are unbounded and instants are parameters.
 */
module Swim {
  import opened Prelude
  import opened Wire

  type NodeId = u16

  type Octets4 = s: seq<byte> | |s| == 4 witness [0, 0, 0, 0]
  type Octets16 = s: seq<byte> | |s| == 16 witness [0, 0, 0, 0, 0, 0, 0, 0, 0, 0, 0, 0, 0, 0, 0, 0]

  datatype Addr = V4(ip4: Octets4, port: u16) | V6(ip6: Octets16, port: u16)

  datatype MState = Alive | Suspect | Dead

  function Precedence(s: MState): nat
  {
    match s
    case Alive => 0
    case Suspect => 1
    case Dead => 2
  }

  datatype Update = Update(id: NodeId, addr: Addr, state: MState, inc: nat)

  datatype Member = Member(addr: Addr, state: MState, inc: nat, since: nat)

  datatype Counters = Counters(joined: nat, suspected: nat, dead: nat, refuted: nat, revived: nat)

  /** A gossip entry: a fact and how often it may still be sent. */
  datatype Rumour = Rumour(fact: Update, budget: nat)

  const GOSSIP_CAP: nat := 256

  datatype Table = Table(
    selfId: NodeId,
    selfAddr: Addr,
    selfInc: nat,
    members: map<NodeId, Member>,
    gossip: seq<Rumour>,
    counters: Counters)

  function Fresh(selfId: NodeId, addr: Addr): Table
  {
    Table(selfId, addr, 1, map[], [], Counters(0, 0, 0, 0, 0))
  }

  function SelfUpdate(t: Table): Update
  {
    Update(t.selfId, t.selfAddr, Alive, t.selfInc)
  }

  function EntryUpdate(t: Table, id: NodeId): Update
    requires id in t.members
  {
    Update(id, t.members[id].addr, t.members[id].state, t.members[id].inc)
  }

  /** Everything the node knows, itself included: the payload of a push-pull. */
  function FullState(t: Table): set<Update>
  {
    (set id | id in t.members :: EntryUpdate(t, id)) + {SelfUpdate(t)}
  }

  /** A list of the full state in some order, as iterating the hash map yields it. */
  ghost predicate Lists(us: seq<Update>, t: Table)
  {
    Elements(us) == FullState(t)
  }

  // ── gossip list ──

  function Without(g: seq<Rumour>, id: NodeId): seq<Rumour>
  {
    if g == [] then []
    else if g[0].fact.id == id then Without(g[1..], id)
    else [g[0]] + Without(g[1..], id)
  }

  /** The newest fact about an id supersedes older gossip; the oldest entries go once the cap is passed. */
  function Enqueue(g: seq<Rumour>, u: Update, budget: nat): seq<Rumour>
  {
    var g' := Without(g, u.id) + [Rumour(u, budget)];
    if |g'| > GOSSIP_CAP then g'[|g'| - GOSSIP_CAP..] else g'
  }

  ghost predicate GossipOk(g: seq<Rumour>)
  {
    |g| <= GOSSIP_CAP && forall i, j | 0 <= i < j < |g| :: g[i].fact.id != g[j].fact.id
  }

  /** `Without` keeps exactly the rumours about other ids, in order. */
  lemma {:induction false} WithoutKeepsOthers(g: seq<Rumour>, id: NodeId)
    ensures |Without(g, id)| <= |g|
    ensures forall r :: r in Without(g, id) <==> r in g && r.fact.id != id
    ensures GossipOk(g) ==> GossipOk(Without(g, id))
  {
    if g != [] {
      WithoutKeepsOthers(g[1..], id);
      assert forall r :: r in g <==> r == g[0] || r in g[1..];
      var rest := Without(g[1..], id);
      if GossipOk(g) {
        assert GossipOk(g[1..]);
        assert forall i | 0 <= i < |rest| :: rest[i] in g[1..];
      }
    }
  }

  /** One entry per id, never more than the cap, and the new fact is always in. */
  lemma EnqueueKeepsGossipOk(g: seq<Rumour>, u: Update, budget: nat)
    requires GossipOk(g)
    ensures GossipOk(Enqueue(g, u, budget))
    ensures Rumour(u, budget) in Enqueue(g, u, budget)
    ensures forall r :: r in Enqueue(g, u, budget) ==> r == Rumour(u, budget) || (r in g && r.fact.id != u.id)
    ensures |g| < GOSSIP_CAP ==> forall r :: r in g && r.fact.id != u.id ==> r in Enqueue(g, u, budget)
  {
    WithoutKeepsOthers(g, u.id);
    var kept := Without(g, u.id);
    var g' := kept + [Rumour(u, budget)];
    assert forall i | 0 <= i < |kept| :: kept[i] in kept;
    assert Enqueue(g, u, budget)[|Enqueue(g, u, budget)| - 1] == Rumour(u, budget);
    assert |g| < GOSSIP_CAP ==> Enqueue(g, u, budget) == g';
  }

  /** Even a full list loses only its oldest entry, and not that one if the new fact replaces another. */
  lemma OnlyOldestGoes(g: seq<Rumour>, u: Update, budget: nat, i: nat)
    requires GossipOk(g) && i < |g| && g[i].fact.id != u.id
    ensures g[i] in Enqueue(g, u, budget) || (i == 0 && |g| == GOSSIP_CAP && forall r | r in g :: r.fact.id != u.id)
  {
    var kept, rest := Without(g, u.id), Without(g[1..], u.id);
    WithoutKeepsOthers(g, u.id);
    WithoutKeepsOthers(g[1..], u.id);
    assert g[i] in kept;
    if |kept| == GOSSIP_CAP {
      WithoutLosesNone(g, u.id);
      assert kept == [g[0]] + rest;
      assert Enqueue(g, u, budget) == rest + [Rumour(u, budget)];
      assert i > 0 ==> g[1..][i - 1] == g[i];
    } else {
      assert Enqueue(g, u, budget) == kept + [Rumour(u, budget)];
    }
  }

  lemma {:induction false} WithoutLosesNone(g: seq<Rumour>, id: NodeId)
    requires |Without(g, id)| == |g|
    ensures forall r | r in g :: r.fact.id != id
  {
    if g != [] {
      WithoutKeepsOthers(g[1..], id);
      WithoutLosesNone(g[1..], id);
      assert forall r :: r in g <==> r == g[0] || r in g[1..];
    }
  }

  // ── merge ──

  function CountTransition(c: Counters, prev: Option<MState>, next: MState): Counters
  {
    if prev == Some(next) then c
    else
      match next
      case Alive => if prev.None? then c.(joined := c.joined + 1) else c.(revived := c.revived + 1)
      case Suspect => c.(suspected := c.suspected + 1)
      case Dead => c.(dead := c.dead + 1)
  }

  /** Does the claim `(inc, state)` beat `(inc', state')`? */
  predicate Beats(inc: nat, state: MState, inc': nat, state': MState)
  {
    inc > inc' || (inc == inc' && Precedence(state) > Precedence(state'))
  }

  predicate Accepts(t: Table, u: Update)
    requires u.id != t.selfId
  {
    u.id in t.members ==> Beats(u.inc, u.state, t.members[u.id].inc, t.members[u.id].state)
  }

  predicate Refutes(t: Table, u: Update)
  {
    u.id == t.selfId && u.state != Alive && u.inc >= t.selfInc
  }

  function Merge(t: Table, u: Update, budget: nat, now: nat): (Table, bool)
  {
    if u.id == t.selfId then
      if Refutes(t, u) then
        var bumped := t.(selfInc := u.inc + 1);
        (bumped.(counters := t.counters.(refuted := t.counters.refuted + 1),
                 gossip := Enqueue(t.gossip, SelfUpdate(bumped), budget)), true)
      else (t, false)
    else if !Accepts(t, u) then (t, false)
    else
      var prev := if u.id in t.members then Some(t.members[u.id].state) else None;
      (t.(members := t.members[u.id := Member(u.addr, u.state, u.inc, now)],
          counters := CountTransition(t.counters, prev, u.state),
          gossip := Enqueue(t.gossip, u, budget)), true)
  }

  function MergeAll(t: Table, us: seq<Update>, budget: nat, now: nat): Table
    decreases |us|
  {
    if us == [] then t else MergeAll(Merge(t, us[0], budget, now).0, us[1..], budget, now)
  }

  /** A direct ACK clears a suspicion at the same incarnation, which gossip precedence would not. */
  function NoteDirectAck(t: Table, from: NodeId, budget: nat, now: nat): (Table, bool)
  {
    if from in t.members && t.members[from].state == Suspect then
      var m := t.members[from];
      (t.(members := t.members[from := Member(m.addr, Alive, m.inc, now)],
          counters := t.counters.(revived := t.counters.revived + 1),
          gossip := Enqueue(t.gossip, Update(from, m.addr, Alive, m.inc), budget)), true)
    else (t, false)
  }

  function Suspicion(t: Table, target: NodeId, budget: nat, now: nat): (Table, bool)
  {
    if target !in t.members || t.members[target].state != Alive then (t, false)
    else Merge(t, EntryUpdate(t, target).(state := Suspect), budget, now)
  }

  /** The suspects whose timer has run out. */
  function Expired(t: Table, timeout: nat, now: nat): set<NodeId>
  {
    set id | id in t.members && t.members[id].state == Suspect && now > t.members[id].since + timeout
  }

  /** Declare the listed members dead, at the incarnation they had when the list was made. */
  function DeclareDead(t: Table, ids: seq<NodeId>): seq<Update>
    requires forall id | id in ids :: id in t.members
  {
    seq(|ids|, i requires 0 <= i < |ids| => EntryUpdate(t, ids[i]).(state := Dead))
  }

  /** Up to `max` facts for one frame, a fresh self-alive first; each sent entry spends one of its budget. */
  function Piggyback(t: Table, max: nat): (Table, seq<Update>)
  {
    var k := if max == 0 then 0 else if |t.gossip| < max - 1 then |t.gossip| else max - 1;
    (t.(gossip := Spend(t.gossip[..k]) + t.gossip[k..]), [SelfUpdate(t)] + Facts(t.gossip[..k]))
  }

  function Spend(g: seq<Rumour>): seq<Rumour>
  {
    if g == [] then []
    else if g[0].budget > 1 then [g[0].(budget := g[0].budget - 1)] + Spend(g[1..])
    else Spend(g[1..])
  }

  function Facts(g: seq<Rumour>): (us: seq<Update>)
    ensures |us| == |g| && forall i | 0 <= i < |g| :: us[i] == g[i].fact
  {
    if g == [] then [] else [g[0].fact] + Facts(g[1..])
  }

  /** Spending keeps a subset of the entries' ids, each once. */
  lemma {:induction false} SpendIds(g: seq<Rumour>)
    requires forall i, j | 0 <= i < j < |g| :: g[i].fact.id != g[j].fact.id
    ensures |Spend(g)| <= |g|
    ensures forall r | r in Spend(g) :: exists r' :: r' in g && r'.fact == r.fact
    ensures forall i, j | 0 <= i < j < |Spend(g)| :: Spend(g)[i].fact.id != Spend(g)[j].fact.id
  {
    if g != [] {
      SpendIds(g[1..]);
      assert forall r :: r in g <==> r == g[0] || r in g[1..];
      assert forall r | r in g[1..] :: r.fact.id != g[0].fact.id;
    }
  }

  lemma PiggybackKeepsGossipOk(t: Table, max: nat)
    requires GossipOk(t.gossip)
    ensures GossipOk(Piggyback(t, max).0.gossip)
  {
    var k := |Piggyback(t, max).1| - 1;
    var head, tail := t.gossip[..k], t.gossip[k..];
    SpendIds(head);
    forall r, r' | r in Spend(head) && r' in tail ensures r.fact.id != r'.fact.id {
      var r0 :| r0 in head && r0.fact == r.fact;
    }
    var g := Spend(head) + tail;
    forall i, j | 0 <= i < j < |g| ensures g[i].fact.id != g[j].fact.id {
      if i < |Spend(head)| <= j {
        assert g[i] in Spend(head) && g[j] in tail;
      }
    }
  }

  // ── what one change leaves behind ──

  /** `id` is in state `s` in the second table and was not in the first. */
  predicate Became(t: Table, t': Table, id: NodeId, s: MState)
  {
    id in t'.members && t'.members[id].state == s && (id in t.members ==> t.members[id].state != s)
  }

  /** The counters have recorded what became of `id`. */
  predicate Recorded(t: Table, t': Table, id: NodeId)
  {
    var c, c' := t.counters, t'.counters;
    && c'.joined == c.joined + (if Became(t, t', id, Alive) && id !in t.members then 1 else 0)
    && c'.revived == c.revived + (if Became(t, t', id, Alive) && id in t.members then 1 else 0)
    && c'.suspected == c.suspected + (if Became(t, t', id, Suspect) then 1 else 0)
    && c'.dead == c.dead + (if Became(t, t', id, Dead) then 1 else 0)
  }

  /** Every state change of a member is counted once, under what the member became; refutations are counted apart. */
  lemma ChangesAreCounted(t: Table, u: Update, budget: nat, now: nat)
    ensures Recorded(t, Merge(t, u, budget, now).0, u.id) && Recorded(t, NoteDirectAck(t, u.id, budget, now).0, u.id)
    ensures Merge(t, u, budget, now).0.counters.refuted == t.counters.refuted + (if Refutes(t, u) then 1 else 0)
    ensures NoteDirectAck(t, u.id, budget, now).0.counters.refuted == t.counters.refuted
  {
  }

  /** The claim the table itself now makes about `id` is on the gossip list with its whole budget. */
  predicate Spreads(t: Table, id: NodeId, budget: nat)
  {
    exists r | r in t.gossip :: r.budget == budget && r.fact.id == id && Told(t, id) == Some(ClaimOf(r.fact))
  }

  /** Whatever is reported as a change is stamped with the time and passed on; anything else leaves the table alone. */
  predicate PassedOn(t: Table, t': Table, changed: bool, id: NodeId, budget: nat, now: nat)
  {
    if changed then Spreads(t', id, budget) && (id != t.selfId ==> id in t'.members && t'.members[id].since == now)
    else t' == t
  }

  lemma EnqueueSpreads(t: Table, t': Table, u: Update, budget: nat)
    requires t'.gossip == Enqueue(t.gossip, u, budget) && Told(t', u.id) == Some(ClaimOf(u))
    ensures Spreads(t', u.id, budget)
  {
    assert t'.gossip[|t'.gossip| - 1] == Rumour(u, budget);
  }

  /** An accepted claim, a refutation, a suspicion and a cleared suspicion are all passed on. */
  lemma ChangesAreSpread(t: Table, u: Update, budget: nat, now: nat)
    requires t.selfId !in t.members
    ensures var (t', changed) := Merge(t, u, budget, now); PassedOn(t, t', changed, u.id, budget, now)
    ensures var (t', changed) := NoteDirectAck(t, u.id, budget, now); PassedOn(t, t', changed, u.id, budget, now)
    ensures var (t', changed) := Suspicion(t, u.id, budget, now); PassedOn(t, t', changed, u.id, budget, now)
    ensures Refutes(t, u) ==> Merge(t, u, budget, now).0.selfInc == u.inc + 1
  {
    var (m, merged) := Merge(t, u, budget, now);
    if merged {
      EnqueueSpreads(t, m, if Refutes(t, u) then SelfUpdate(m) else u, budget);
    }
    var (a, acked) := NoteDirectAck(t, u.id, budget, now);
    if acked {
      EnqueueSpreads(t, a, EntryUpdate(a, u.id), budget);
    }
    var (s, suspected) := Suspicion(t, u.id, budget, now);
    if suspected {
      EnqueueSpreads(t, s, EntryUpdate(s, u.id), budget);
    }
  }

  // ── merge computes the lexicographic maximum ──

  datatype Claim = Claim(inc: nat, state: MState)

  function ClaimOf(u: Update): Claim
  {
    Claim(u.inc, u.state)
  }

  function View(t: Table, id: NodeId): Option<Claim>
  {
    if id in t.members then Some(Claim(t.members[id].inc, t.members[id].state)) else None
  }

  /** The claim a table's full state makes about `id`, itself included. */
  function Told(t: Table, id: NodeId): Option<Claim>
  {
    if id == t.selfId then Some(Claim(t.selfInc, Alive)) else View(t, id)
  }

  predicate AtLeast(a: Option<Claim>, b: Claim)
  {
    a.Some? && !Beats(b.inc, b.state, a.value.inc, a.value.state)
  }

  /** `c` is one of the claims on offer about `id` and none of them beats it. */
  ghost predicate IsBest(c: Option<Claim>, start: Option<Claim>, us: seq<Update>, id: NodeId)
  {
    && (c == start || exists u :: u in us && u.id == id && c == Some(ClaimOf(u)))
    && (start.Some? ==> AtLeast(c, start.value))
    && (forall u | u in us && u.id == id :: AtLeast(c, ClaimOf(u)))
  }

  lemma {:induction false} MergeAllIsBest(t: Table, us: seq<Update>, budget: nat, now: nat, id: NodeId)
    requires id != t.selfId
    ensures IsBest(View(MergeAll(t, us, budget, now), id), View(t, id), us, id)
    ensures MergeAll(t, us, budget, now).selfId == t.selfId && MergeAll(t, us, budget, now).selfAddr == t.selfAddr
    decreases |us|
  {
    if us != [] {
      MergeAllIsBest(Merge(t, us[0], budget, now).0, us[1..], budget, now, id);
      assert forall u :: u in us <==> u == us[0] || u in us[1..];
    }
  }

  lemma BestUnique(c: Option<Claim>, d: Option<Claim>, start: Option<Claim>, us: seq<Update>,
    vs: seq<Update>, id: NodeId)
    requires Elements(us) == Elements(vs)
    requires IsBest(c, start, us, id) && IsBest(d, start, vs, id)
    ensures c == d
  {
    assert forall u :: (u in us <==> u in Elements(us)) && (u in vs <==> u in Elements(vs));
    assert c.Some? ==> AtLeast(d, c.value);
    assert d.Some? ==> AtLeast(c, d.value);
  }

  /**
   * Any two deliveries of the same facts, in any order and with any repetitions, leave the same
   * incarnation and state for every other member: the lexicographic maximum of what was on offer.
   */
  lemma MergeOrderIndependent(t: Table, us: seq<Update>, vs: seq<Update>, budget: nat, now: nat,
    budget': nat, now': nat, id: NodeId)
    requires Elements(us) == Elements(vs) && id != t.selfId
    ensures View(MergeAll(t, us, budget, now), id) == View(MergeAll(t, vs, budget', now'), id)
  {
    MergeAllIsBest(t, us, budget, now, id);
    MergeAllIsBest(t, vs, budget', now', id);
    var one, two := View(MergeAll(t, us, budget, now), id), View(MergeAll(t, vs, budget', now'), id);
    BestUnique(one, two, View(t, id), us, vs, id);
  }

  // ── what merging does to the node's own incarnation ──

  /** When no claim about us is newer than we are, a batch raises our incarnation by one at most. */
  lemma {:induction false} MergeAllSelf(t: Table, us: seq<Update>, budget: nat, now: nat)
    requires forall u | u in us && u.id == t.selfId :: u.inc <= t.selfInc
    ensures var refuted := exists u :: u in us && Refutes(t, u);
      MergeAll(t, us, budget, now).selfInc == if refuted then t.selfInc + 1 else t.selfInc
    decreases |us|
  {
    if us != [] {
      var t1 := Merge(t, us[0], budget, now).0;
      assert forall u :: u in us <==> u == us[0] || u in us[1..];
      MergeAllSelf(t1, us[1..], budget, now);
    }
  }

  lemma {:induction false} MergeAllKeepsGossipOk(t: Table, us: seq<Update>, budget: nat, now: nat)
    requires GossipOk(t.gossip)
    ensures GossipOk(MergeAll(t, us, budget, now).gossip)
    decreases |us|
  {
    if us != [] {
      EnqueueKeepsGossipOk(t.gossip, us[0], budget);
      if Refutes(t, us[0]) {
        EnqueueKeepsGossipOk(t.gossip, SelfUpdate(t.(selfInc := us[0].inc + 1)), budget);
      }
      MergeAllKeepsGossipOk(Merge(t, us[0], budget, now).0, us[1..], budget, now);
    }
  }

  /** A self entry never enters the table. */
  lemma {:induction false} MergeAllMembers(t: Table, us: seq<Update>, budget: nat, now: nat)
    ensures MergeAll(t, us, budget, now).members.Keys ==
      t.members.Keys + set u | u in us && u.id != t.selfId :: u.id
    decreases |us|
  {
    if us != [] {
      MergeAllMembers(Merge(t, us[0], budget, now).0, us[1..], budget, now);
      assert forall u :: u in us <==> u == us[0] || u in us[1..];
    }
  }

  // ── local verdicts ──

  /** A direct ACK clears a suspicion that no gossip at the same incarnation could clear; it never raises the dead. */
  lemma AckUndoesWhatGossipCannot(t: Table, x: NodeId, budget: nat, now: nat)
    requires x in t.members && x != t.selfId
    ensures var m := t.members[x];
      && (m.state != Alive ==> !Merge(t, Update(x, m.addr, Alive, m.inc), budget, now).1)
      && View(NoteDirectAck(t, x, budget, now).0, x) ==
        Some(Claim(m.inc, if m.state == Suspect then Alive else m.state))
      && NoteDirectAck(t, x, budget, now).0.members - {x} == t.members - {x}
      && (NoteDirectAck(t, x, budget, now).1 <==> m.state == Suspect)
  {
  }

  /** A missing ACK turns an Alive member, and only an Alive one, into a Suspect at its incarnation. */
  lemma SuspicionEffect(t: Table, x: NodeId, budget: nat, now: nat)
    requires x in t.members && x != t.selfId
    ensures var m := t.members[x];
      View(Suspicion(t, x, budget, now).0, x) == Some(Claim(m.inc, if m.state == Alive then Suspect else m.state))
  {
  }

  /** Expiry: exactly the suspects past their timeout become Dead, at their incarnation; every other claim stays. */
  lemma ExpiryEffect(t: Table, ids: seq<NodeId>, timeout: nat, budget: nat, now: nat, x: NodeId)
    requires Elements(ids) == Expired(t, timeout, now) && t.selfId !in t.members && x != t.selfId
    ensures forall id | id in ids :: id in t.members
    ensures View(MergeAll(t, DeclareDead(t, ids), budget, now), x) ==
      if x in t.members && t.members[x].state == Suspect && now - t.members[x].since > timeout
      then Some(Claim(t.members[x].inc, Dead)) else View(t, x)
  {
    assert forall id | id in ids :: id in Elements(ids);
    var us := DeclareDead(t, ids);
    MergeAllIsBest(t, us, budget, now, x);
    if x in Expired(t, timeout, now) {
      assert x in Elements(ids);
      var i :| 0 <= i < |ids| && ids[i] == x;
      assert us[i] in us;
    }
  }

  /** When no claim about us is newer than we are, refutations count our incarnation's steps. */
  lemma {:induction false} RefutedCountsSteps(t: Table, us: seq<Update>, budget: nat, now: nat)
    requires forall u | u in us && u.id == t.selfId :: u.inc <= t.selfInc
    ensures var t' := MergeAll(t, us, budget, now);
      t'.selfInc - t.selfInc == t'.counters.refuted - t.counters.refuted
    decreases |us|
  {
    if us != [] {
      assert us[0] in us && forall u | u in us[1..] :: u in us;
      RefutedCountsSteps(Merge(t, us[0], budget, now).0, us[1..], budget, now);
    }
  }
}
