/** The probe scheduler: round-robin over a reshuffled list of the members not known dead. */
module SwimProbe {
  import opened Prelude
  import opened Swim

  datatype Schedule = Schedule(order: seq<NodeId>, idx: nat)

  function Retain(order: seq<NodeId>, live: set<NodeId>): (r: seq<NodeId>)
    ensures |r| <= |order|
  {
    if order == [] then []
    else if order[0] in live then [order[0]] + Retain(order[1..], live)
    else Retain(order[1..], live)
  }

  /** One call: drop the dead, start a fresh shuffle when the round is over, take the next id. */
  function Probe(s: Schedule, live: set<NodeId>, shuffled: seq<NodeId>): (Schedule, NodeId)
    requires shuffled != []
  {
    var order := Retain(s.order, live);
    if s.idx >= |order| then (Schedule(shuffled, 1), shuffled[0])
    else (Schedule(order, s.idx + 1), order[s.idx])
  }

  ghost predicate Permutes(shuffled: seq<NodeId>, live: set<NodeId>)
  {
    Elements(shuffled) == live && Distinct(shuffled)
  }

  lemma {:induction false} RetainFacts(order: seq<NodeId>, live: set<NodeId>)
    ensures forall x :: x in Retain(order, live) <==> x in order && x in live
    ensures Distinct(order) ==> Distinct(Retain(order, live))
    ensures (forall x | x in order :: x in live) ==> Retain(order, live) == order
  {
    if order != [] {
      var rest := Retain(order[1..], live);
      RetainFacts(order[1..], live);
      assert forall x :: x in order <==> x == order[0] || x in order[1..];
      if Distinct(order) {
        assert order[0] !in order[1..];
        assert order[0] !in rest;
      }
    }
  }

  /** The order stays duplicate-free, and the index never leaves it. */
  lemma ProbeKeepsOrder(s: Schedule, live: set<NodeId>, shuffled: seq<NodeId>)
    requires Distinct(s.order) && Permutes(shuffled, live) && live != {}
    ensures shuffled != []
    ensures var (s', x) := Probe(s, live, shuffled);
      Distinct(s'.order) && 1 <= s'.idx <= |s'.order| && x == s'.order[s'.idx - 1] && x in live
  {
    RetainFacts(s.order, live);
    assert shuffled == [] ==> live == {};
    var (s', x) := Probe(s, live, shuffled);
    assert x in s'.order;
    assert x in shuffled ==> x in Elements(shuffled);
  }

  ghost predicate NonEmpties(ps: seq<seq<NodeId>>)
  {
    forall i | 0 <= i < |ps| :: ps[i] != []
  }

  ghost predicate AllPermute(ps: seq<seq<NodeId>>, live: set<NodeId>)
  {
    forall i | 0 <= i < |ps| :: Permutes(ps[i], live)
  }

  lemma LaterShuffles(ps: seq<seq<NodeId>>, live: set<NodeId>, k: nat)
    requires NonEmpties(ps) && AllPermute(ps, live) && k <= |ps|
    ensures NonEmpties(ps[k..]) && AllPermute(ps[k..], live)
  {
    forall i | 0 <= i < |ps[k..]| ensures ps[k..][i] != [] && Permutes(ps[k..][i], live) {
      assert ps[k..][i] == ps[k + i];
      assert Permutes(ps[k + i], live);
    }
  }

  /**
   * The ids probed by a run of calls over one live set; each call brings the shuffle it would use if its round were
   * over.
   */
  ghost function Targets(s: Schedule, live: set<NodeId>, ps: seq<seq<NodeId>>): (r: seq<NodeId>)
    requires NonEmpties(ps)
    ensures |r| == |ps|
    decreases |ps|
  {
    if ps == [] then []
    else
      var (s', x) := Probe(s, live, ps[0]);
      [x] + Targets(s', live, ps[1..])
  }

  lemma ProbeMidRound(s: Schedule, live: set<NodeId>, p: seq<NodeId>)
    requires p != [] && Elements(s.order) <= live && s.idx < |s.order|
    ensures Probe(s, live, p) == (Schedule(s.order, s.idx + 1), s.order[s.idx])
  {
    assert forall x | x in s.order :: x in Elements(s.order);
    RetainFacts(s.order, live);
  }

  /** What is left of the current round comes out in order. */
  lemma {:induction false} RoundRunsOut(s: Schedule, live: set<NodeId>, ps: seq<seq<NodeId>>)
    requires NonEmpties(ps) && Elements(s.order) <= live
    requires s.idx <= |s.order| && |ps| >= |s.order| - s.idx
    ensures var k := |s.order| - s.idx;
      Targets(s, live, ps) == s.order[s.idx..] + Targets(Schedule(s.order, |s.order|), live, ps[k..])
    decreases |s.order| - s.idx
  {
    if s.idx == |s.order| {
      assert s.order[s.idx..] == [] && ps[0..] == ps;
    } else {
      ProbeMidRound(s, live, ps[0]);
      RoundRunsOut(Schedule(s.order, s.idx + 1), live, ps[1..]);
      assert ps[1..][|s.order| - s.idx - 1..] == ps[|s.order| - s.idx..];
    }
  }

  /** A finished round is followed by one that visits every live member. */
  lemma FreshRoundCovers(s: Schedule, live: set<NodeId>, ps: seq<seq<NodeId>>, x: NodeId)
    requires NonEmpties(ps) && |ps| >= |live| && x in live && AllPermute(ps, live)
    requires s.idx >= |Retain(s.order, live)|
    ensures x in Targets(s, live, ps)
  {
    assert |live| > 0 by { assert x in live; }
    var p := ps[0];
    assert Permutes(p, live);
    DistinctCardinality(p);
    RoundRunsOut(Schedule(p, 1), live, ps[1..]);
    assert x in Elements(p);
    assert p == [p[0]] + p[1..];
  }

  /** Whoever is left in the round, or comes after it, is a target. */
  lemma RoundThen(s: Schedule, live: set<NodeId>, ps: seq<seq<NodeId>>, x: NodeId)
    requires NonEmpties(ps) && Elements(s.order) <= live
    requires s.idx <= |s.order| && |ps| >= |s.order| - s.idx
    ensures x in s.order[s.idx..] || x in Targets(Schedule(s.order, |s.order|), live, ps[|s.order| - s.idx..]) ==>
      x in Targets(s, live, ps)
  {
    RoundRunsOut(s, live, ps);
  }

  /** A round that has yet to visit everyone but misses a live member is not a full one. */
  lemma RestIsShort(s: Schedule, live: set<NodeId>, x: NodeId)
    requires s.idx < |s.order| <= |live| && x in live && x !in s.order[s.idx..]
    requires |s.order| == |live| ==> Elements(s.order) == live
    ensures |s.order| - s.idx < |live|
  {
    if s.idx == 0 {
      assert s.order[0..] == s.order;
      assert x !in Elements(s.order);
    }
  }

  lemma LateRoundCovers(s: Schedule, live: set<NodeId>, ps: seq<seq<NodeId>>, k: nat, x: NodeId)
    requires NonEmpties(ps) && AllPermute(ps, live) && x in live && k + |live| <= |ps|
    ensures NonEmpties(ps[k..]) && x in Targets(Schedule(s.order, |s.order|), live, ps[k..])
  {
    LaterShuffles(ps, live, k);
    FreshRoundCovers(Schedule(s.order, |s.order|), live, ps[k..], x);
  }

  lemma CurrentRoundThenFresh(s: Schedule, live: set<NodeId>, ps: seq<seq<NodeId>>, x: NodeId)
    requires Elements(s.order) <= live && s.idx < |s.order| <= |live| && x in live
    requires |s.order| == |live| ==> Elements(s.order) == live
    requires NonEmpties(ps) && |ps| >= 2 * |live| - 1
    requires AllPermute(ps, live)
    ensures x in Targets(s, live, ps)
  {
    if x !in s.order[s.idx..] {
      RestIsShort(s, live, x);
      LateRoundCovers(s, live, ps, |s.order| - s.idx, x);
    }
    RoundThen(s, live, ps, x);
  }

  /**
   * Fairness: from any schedule the scheduler can hold, while the live set does not change, every live
   * member is probed within 2|L| - 1 calls.
   */
  lemma EveryMemberProbed(s: Schedule, live: set<NodeId>, ps: seq<seq<NodeId>>, x: NodeId)
    requires Distinct(s.order) && x in live
    requires NonEmpties(ps) && |ps| >= 2 * |live| - 1
    requires AllPermute(ps, live)
    ensures x in Targets(s, live, ps)
  {
    assert |live| > 0 by { assert x in live; }
    var order := Retain(s.order, live);
    RetainFacts(s.order, live);
    DistinctCardinality(order);
    SubsetCardinality(Elements(order), live);
    if s.idx >= |order| {
      FreshRoundCovers(s, live, ps, x);
    } else {
      CurrentRoundThenFresh(Schedule(order, s.idx), live, ps, x);
      RetainFacts(order, live);
      assert Targets(s, live, ps) == Targets(Schedule(order, s.idx), live, ps);
    }
  }
}
