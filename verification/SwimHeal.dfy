/**
 * Push-pull heal: a cluster of member tables in which pairs of nodes exchange their full states
 * (crates/mesh/src/membership_sync.rs). No new suspicion and no probe event happens meanwhile.
 */
module SwimHeal {
  import opened Prelude
  import opened Swim

  type Cluster = map<NodeId, Table>

  /** Nothing any table says about a member is newer than the member itself. */
  ghost predicate Bounded(c: Cluster)
  {
    forall n | n in c :: TableOk(c, n)
  }

  ghost predicate TableOk(c: Cluster, n: NodeId)
    requires n in c
  {
    && c[n].selfId == n
    && n !in c[n].members
    && forall x | x in c[n].members :: x in c && c[n].members[x].inc <= c[x].selfInc
  }

  /** `m` holds a non-Alive claim about `x` that `x` has not outgrown. */
  ghost predicate Stuck(c: Cluster, m: NodeId, x: NodeId)
    requires m in c && x in c
  {
    x in c[m].members && c[m].members[x].state != Alive && c[m].members[x].inc == c[x].selfInc
  }

  ghost predicate Unstuck(c: Cluster, x: NodeId)
    requires x in c
  {
    forall m | m in c && m != x :: !Stuck(c, m, x)
  }

  /** `m` sees `x` Alive at its current incarnation. */
  ghost predicate Sees(c: Cluster, m: NodeId, x: NodeId)
    requires m in c && x in c
  {
    View(c[m], x) == Some(Claim(c[x].selfInc, Alive))
  }

  /** No stuck entries: every table is all-Alive at each peer's current incarnation. */
  ghost predicate Healed(c: Cluster)
  {
    forall m, x | m in c && x in c && m != x :: Sees(c, m, x)
  }

  // ── one round trip ──

  /**
   * `a` pushes its full state to `b`, `b` merges it and answers with its own, `a` merges that.
   * The lists are in arbitrary order.
   */
  datatype Sync = Sync(a: NodeId, b: NodeId, push: seq<Update>, pull: seq<Update>, budget: nat, now: nat)

  function Pushed(c: Cluster, s: Sync): Table
    requires s.b in c
  {
    MergeAll(c[s.b], s.push, s.budget, s.now)
  }

  ghost predicate SyncOk(c: Cluster, s: Sync)
  {
    && s.a in c && s.b in c && s.a != s.b
    && Lists(s.push, c[s.a])
    && Lists(s.pull, Pushed(c, s))
  }

  function AfterSync(c: Cluster, s: Sync): Cluster
    requires s.a in c && s.b in c
  {
    c[s.b := Pushed(c, s)][s.a := MergeAll(c[s.a], s.pull, s.budget, s.now)]
  }

  function Max(a: Option<Claim>, b: Option<Claim>): Option<Claim>
  {
    if a.None? then b
    else if b.None? then a
    else if Beats(b.value.inc, b.value.state, a.value.inc, a.value.state) then b
    else a
  }

  lemma ListTells(t: Table, us: seq<Update>, x: NodeId)
    requires Lists(us, t) && t.selfId !in t.members
    ensures forall u | u in us && u.id == x :: Told(t, x) == Some(ClaimOf(u))
    ensures Told(t, x).Some? ==> exists u :: u in us && u.id == x
  {
    assert forall u :: u in us <==> u in FullState(t);
    if x == t.selfId {
      assert SelfUpdate(t) in us;
    } else if x in t.members {
      assert EntryUpdate(t, x) in us;
    }
  }

  /** Merging a full state: per id the better claim wins, and a current non-Alive claim about us is refuted. */
  lemma MergeList(t: Table, from: Table, us: seq<Update>, budget: nat, now: nat)
    requires Lists(us, from) && from.selfId !in from.members && t.selfId !in t.members
    ensures var t' := MergeAll(t, us, budget, now);
      && t'.selfId == t.selfId && t'.selfId !in t'.members
      && forall x | x != t.selfId :: View(t', x) == Max(View(t, x), Told(from, x))
  {
    MergeAllMembers(t, us, budget, now);
    forall x: NodeId | x != t.selfId ensures View(MergeAll(t, us, budget, now), x) == Max(View(t, x), Told(from, x)) {
      MergeAllIsBest(t, us, budget, now, x);
      ListTells(from, us, x);
    }
    var other: NodeId := if t.selfId == 0 then 1 else 0;
    MergeAllIsBest(t, us, budget, now, other);
  }

  lemma MergeListSelf(t: Table, from: Table, us: seq<Update>, budget: nat, now: nat)
    requires Lists(us, from) && from.selfId !in from.members && from.selfId != t.selfId
    requires t.selfId in from.members ==> from.members[t.selfId].inc <= t.selfInc
    ensures var refuted := t.selfId in from.members && from.members[t.selfId].state != Alive &&
      from.members[t.selfId].inc == t.selfInc;
      MergeAll(t, us, budget, now).selfInc == if refuted then t.selfInc + 1 else t.selfInc
  {
    ListTells(from, us, t.selfId);
    MergeAllSelf(t, us, budget, now);
  }

  /** What the responder knows once it has merged the push. */
  lemma PushOutcome(c: Cluster, s: Sync)
    requires Bounded(c) && SyncOk(c, s)
    ensures var b' := Pushed(c, s);
      && b'.selfId == s.b && s.b !in b'.members
      && b'.selfInc == (if Stuck(c, s.a, s.b) then c[s.b].selfInc + 1 else c[s.b].selfInc)
      && forall x | x != s.b :: View(b', x) == Max(View(c[s.b], x), Told(c[s.a], x))
  {
    assert TableOk(c, s.a) && TableOk(c, s.b);
    MergeList(c[s.b], c[s.a], s.push, s.budget, s.now);
    MergeListSelf(c[s.b], c[s.a], s.push, s.budget, s.now);
  }

  /** What the initiator knows once it has merged the answer. */
  lemma PullOutcome(c: Cluster, s: Sync)
    requires Bounded(c) && SyncOk(c, s)
    ensures var a' := AfterSync(c, s)[s.a];
      && a'.selfId == s.a && s.a !in a'.members
      && a'.selfInc == (if Stuck(c, s.b, s.a) then c[s.a].selfInc + 1 else c[s.a].selfInc)
      && forall x | x != s.a :: View(a', x) == Max(View(c[s.a], x), Told(Pushed(c, s), x))
  {
    PushOutcome(c, s);
    assert TableOk(c, s.a) && TableOk(c, s.b);
    var b' := Pushed(c, s);
    MergeList(c[s.a], b', s.pull, s.budget, s.now);
    assert View(b', s.a) == Max(View(c[s.b], s.a), Told(c[s.a], s.a));
    MergeListSelf(c[s.a], b', s.pull, s.budget, s.now);
  }

  /** Incarnations after one round trip: a node refutes exactly when its partner held a stuck claim about it. */
  lemma SyncIncarnations(c: Cluster, s: Sync, n: NodeId)
    requires Bounded(c) && SyncOk(c, s) && n in c
    ensures AfterSync(c, s)[n].selfInc ==
      if (n == s.a && Stuck(c, s.b, n)) || (n == s.b && Stuck(c, s.a, n)) then c[n].selfInc + 1 else c[n].selfInc
    ensures AfterSync(c, s)[n].selfId == n && n !in AfterSync(c, s)[n].members
  {
    assert TableOk(c, n);
    if n == s.a {
      PullOutcome(c, s);
    } else if n == s.b {
      PushOutcome(c, s);
    }
  }

  /** What `m` knows of `x` after one round trip. */
  lemma SyncView(c: Cluster, s: Sync, m: NodeId, x: NodeId)
    requires Bounded(c) && SyncOk(c, s) && m in c && x != m
    ensures View(AfterSync(c, s)[m], x) ==
      if m == s.b then Max(View(c[m], x), Told(c[s.a], x))
      else if m != s.a then View(c[m], x)
      else if x == s.b then Max(View(c[m], x), Some(Claim(AfterSync(c, s)[x].selfInc, Alive)))
      else Max(View(c[m], x), Max(View(c[s.b], x), Told(c[s.a], x)))
  {
    PushOutcome(c, s);
    PullOutcome(c, s);
  }

  lemma SyncKeepsTableOk(c: Cluster, s: Sync, n: NodeId)
    requires Bounded(c) && SyncOk(c, s) && n in c
    ensures TableOk(AfterSync(c, s), n)
  {
    var c' := AfterSync(c, s);
    assert TableOk(c, n) && TableOk(c, s.a) && TableOk(c, s.b);
    SyncIncarnations(c, s, n);
    forall x | x in c'[n].members ensures x in c' && c'[n].members[x].inc <= c'[x].selfInc {
      SyncView(c, s, n, x);
      assert View(c'[n], x).Some?;
      if x in c {
        SyncIncarnations(c, s, x);
      }
    }
  }

  /** A sync keeps the bound; incarnations never fall. */
  lemma SyncKeepsBounded(c: Cluster, s: Sync)
    requires Bounded(c) && SyncOk(c, s)
    ensures Bounded(AfterSync(c, s))
    ensures forall n | n in c :: c[n].selfInc <= AfterSync(c, s)[n].selfInc <= c[n].selfInc + 1
  {
    forall n | n in c ensures TableOk(AfterSync(c, s), n) {
      SyncKeepsTableOk(c, s, n);
    }
    forall n | n in c ensures c[n].selfInc <= AfterSync(c, s)[n].selfInc <= c[n].selfInc + 1 {
      SyncIncarnations(c, s, n);
    }
  }

  /**
   * After a round trip neither side holds a stuck claim about the other. The initiator always sees the
   * responder Alive; the responder sees the initiator Alive exactly when it held no stuck claim about it.
   */
  lemma SyncUnsticksPair(c: Cluster, s: Sync)
    requires Bounded(c) && SyncOk(c, s)
    ensures var c' := AfterSync(c, s); Sees(c', s.a, s.b) && !Stuck(c', s.b, s.a)
    ensures Sees(AfterSync(c, s), s.b, s.a) <==> !Stuck(c, s.b, s.a)
  {
    assert TableOk(c, s.a) && TableOk(c, s.b);
    SyncIncarnations(c, s, s.a);
    SyncIncarnations(c, s, s.b);
    SyncView(c, s, s.a, s.b);
    SyncView(c, s, s.b, s.a);
  }

  /** A stuck claim comes from a stuck claim about the same, unchanged, incarnation. */
  lemma StuckComesFromStuck(c: Cluster, s: Sync, m: NodeId, x: NodeId)
    requires Bounded(c) && SyncOk(c, s) && m in c && x in c && m != x
    requires Stuck(AfterSync(c, s), m, x)
    ensures c[x].selfInc == AfterSync(c, s)[x].selfInc
    ensures Stuck(c, m, x) || (x != s.a && Stuck(c, s.a, x)) || (x != s.b && Stuck(c, s.b, x))
  {
    assert TableOk(c, s.a) && TableOk(c, s.b) && TableOk(c, m);
    SyncIncarnations(c, s, x);
    SyncView(c, s, m, x);
  }

  /** A stuck claim stays where it is until its subject refutes it. */
  lemma StuckPersists(c: Cluster, s: Sync, m: NodeId, x: NodeId)
    requires Bounded(c) && SyncOk(c, s) && m in c && x in c && m != x && Stuck(c, m, x)
    ensures Stuck(AfterSync(c, s), m, x) || AfterSync(c, s)[x].selfInc == c[x].selfInc + 1
  {
    assert TableOk(c, s.a) && TableOk(c, s.b);
    SyncIncarnations(c, s, x);
    SyncView(c, s, m, x);
  }

  lemma UnstuckPersists(c: Cluster, s: Sync, x: NodeId)
    requires Bounded(c) && SyncOk(c, s) && x in c
    requires Unstuck(c, x) || AfterSync(c, s)[x].selfInc != c[x].selfInc
    ensures Unstuck(AfterSync(c, s), x)
  {
    var c' := AfterSync(c, s);
    forall m | m in c' && m != x ensures !Stuck(c', m, x) {
      if Stuck(c', m, x) {
        StuckComesFromStuck(c, s, m, x);
      }
    }
  }

  // ── passes ──

  ghost predicate Syncs(c: Cluster, ss: seq<Sync>, c': Cluster)
    decreases |ss|
  {
    if ss == [] then c == c' else SyncOk(c, ss[0]) && Syncs(AfterSync(c, ss[0]), ss[1..], c')
  }

  predicate Joins(s: Sync, m: NodeId, x: NodeId)
  {
    (s.a == m && s.b == x) || (s.a == x && s.b == m)
  }

  /** Every pair of nodes syncs at least once, whoever starts. */
  ghost predicate FullPass(c: Cluster, ss: seq<Sync>)
  {
    forall m, x | m in c && x in c && m != x :: exists s :: s in ss && Joins(s, m, x)
  }

  lemma {:induction false} SyncsKeepBounded(c: Cluster, ss: seq<Sync>, c': Cluster)
    requires Bounded(c) && Syncs(c, ss, c')
    ensures Bounded(c') && c'.Keys == c.Keys
    decreases |ss|
  {
    if ss != [] {
      SyncKeepsBounded(c, ss[0]);
      SyncsKeepBounded(AfterSync(c, ss[0]), ss[1..], c');
    }
  }

  /**
   * The node that holds the first stuck claim about `x` keeps it until it meets `x`, so the meeting forces a
   * refutation.
   */
  lemma {:induction false} SyncsUnstick(c: Cluster, ss: seq<Sync>, c': Cluster, x: NodeId, m: NodeId)
    requires Bounded(c) && Syncs(c, ss, c') && x in c && m in c && m != x
    requires Unstuck(c, x) || (Stuck(c, m, x) && exists s :: s in ss && Joins(s, m, x))
    ensures x in c' && Unstuck(c', x)
    decreases |ss|
  {
    if ss != [] {
      var c1 := AfterSync(c, ss[0]);
      SyncKeepsBounded(c, ss[0]);
      if Unstuck(c, x) || c1[x].selfInc != c[x].selfInc {
        UnstuckPersists(c, ss[0], x);
      } else {
        StuckPersists(c, ss[0], m, x);
        SyncIncarnations(c, ss[0], x);
      }
      SyncsUnstick(c1, ss[1..], c', x, m);
    }
  }

  /** The first full pass: every non-Alive claim is refuted or outgrown. */
  lemma FirstPassUnsticks(c: Cluster, ss: seq<Sync>, c': Cluster, x: NodeId)
    requires Bounded(c) && Syncs(c, ss, c') && FullPass(c, ss) && x in c
    ensures x in c' && Unstuck(c', x)
  {
    SyncsKeepBounded(c, ss, c');
    if !Unstuck(c, x) {
      var m :| m in c && m != x && Stuck(c, m, x);
      SyncsUnstick(c, ss, c', x, m);
    } else if exists m :: m in c && m != x {
      var m :| m in c && m != x;
      SyncsUnstick(c, ss, c', x, m);
    }
  }

  ghost predicate AllUnstuck(c: Cluster)
  {
    forall x | x in c :: Unstuck(c, x)
  }

  lemma QuietSync(c: Cluster, s: Sync)
    requires Bounded(c) && AllUnstuck(c) && SyncOk(c, s)
    ensures AllUnstuck(AfterSync(c, s))
    ensures Sees(AfterSync(c, s), s.a, s.b) && Sees(AfterSync(c, s), s.b, s.a)
    ensures forall x | x in c :: AfterSync(c, s)[x].selfInc == c[x].selfInc
  {
    SyncUnsticksPair(c, s);
    assert Unstuck(c, s.a) && Unstuck(c, s.b);
    forall x | x in c
      ensures Unstuck(AfterSync(c, s), x)
      ensures AfterSync(c, s)[x].selfInc == c[x].selfInc
    {
      UnstuckPersists(c, s, x);
      SyncIncarnations(c, s, x);
    }
  }

  lemma QuietSyncKeepsSeeing(c: Cluster, s: Sync, m: NodeId, x: NodeId)
    requires Bounded(c) && AllUnstuck(c) && SyncOk(c, s)
    requires m in c && x in c && m != x && Sees(c, m, x)
    ensures Sees(AfterSync(c, s), m, x)
  {
    assert TableOk(c, s.a) && TableOk(c, s.b);
    assert Unstuck(c, x);
    assert x != s.a ==> !Stuck(c, s.a, x);
    assert x != s.b ==> !Stuck(c, s.b, x);
    SyncIncarnations(c, s, x);
    SyncView(c, s, m, x);
  }

  lemma {:induction false} QuietSyncsSpread(c: Cluster, ss: seq<Sync>, c': Cluster, m: NodeId, x: NodeId)
    requires Bounded(c) && AllUnstuck(c) && Syncs(c, ss, c') && m in c && x in c && m != x
    requires Sees(c, m, x) || exists s :: s in ss && Joins(s, m, x)
    ensures m in c' && x in c' && Sees(c', m, x)
    decreases |ss|
  {
    if ss != [] {
      SyncKeepsBounded(c, ss[0]);
      QuietSync(c, ss[0]);
      if Sees(c, m, x) {
        QuietSyncKeepsSeeing(c, ss[0], m, x);
      }
      QuietSyncsSpread(AfterSync(c, ss[0]), ss[1..], c', m, x);
    }
  }

  /**
   * Zero stuck entries: whatever the tables say, two full passes of pairwise push-pull, each in any order,
   * leave every table all-Alive at each peer's current incarnation, and no table holds anything else.
   */
  lemma TwoPassesHeal(c: Cluster, first: seq<Sync>, mid: Cluster, second: seq<Sync>, end: Cluster)
    requires Bounded(c)
    requires Syncs(c, first, mid) && FullPass(c, first)
    requires Syncs(mid, second, end) && FullPass(mid, second)
    ensures end.Keys == c.Keys && Healed(end)
    ensures forall m, x | m in end && x in end[m].members :: end[m].members[x].state == Alive
  {
    SyncsKeepBounded(c, first, mid);
    SyncsKeepBounded(mid, second, end);
    forall x | x in mid ensures Unstuck(mid, x) {
      FirstPassUnsticks(c, first, mid, x);
    }
    forall m, x | m in end && x in end && m != x ensures Sees(end, m, x) {
      QuietSyncsSpread(mid, second, end, m, x);
    }
    forall m, x | m in end && x in end[m].members ensures end[m].members[x].state == Alive {
      assert TableOk(end, m) && Sees(end, m, x);
    }
  }

  /** One round trip plus the initiator's next piggyback heals both sides of a pair. */
  lemma RoundTripAndPiggybackHeal(c: Cluster, s: Sync, max: nat, now: nat)
    requires Bounded(c) && SyncOk(c, s)
    ensures var c' := AfterSync(c, s);
      var (a', frame) := Piggyback(c'[s.a], max);
      var c'' := c'[s.a := a'][s.b := MergeAll(c'[s.b], [frame[0]], s.budget, now)];
      Sees(c'', s.a, s.b) && Sees(c'', s.b, s.a)
  {
    SyncUnsticksPair(c, s);
    var c' := AfterSync(c, s);
    SyncKeepsTableOk(c, s, s.b);
    SyncIncarnations(c, s, s.a);
    var us := [SelfUpdate(c'[s.a])];
    MergeAllIsBest(c'[s.b], us, s.budget, now, s.a);
    MergeAllSelf(c'[s.b], us, s.budget, now);
    assert us[0] in us;
  }
}
