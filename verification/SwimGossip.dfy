/** Retransmission budgets: how often a gossip entry is sent, and that the list drains. */
module SwimGossip {
  import opened Swim

  /** The table after `n` frames of at most `max` facts, with no new fact in between. */
  function After(t: Table, max: nat, n: nat): Table
    decreases n
  {
    if n == 0 then t else Piggyback(After(t, max, n - 1), max).0
  }

  /** The gossip facts those frames carry, in order, leaving out each frame's leading self-alive. */
  function Sent(t: Table, max: nat, n: nat): seq<Update>
    decreases n
  {
    if n == 0 then [] else Sent(t, max, n - 1) + Frame(After(t, max, n - 1), max)
  }

  function FrameSize(t: Table, max: nat): (k: nat)
    ensures k <= |t.gossip|
    ensures k == |Piggyback(t, max).1| - 1
  {
    if max == 0 then 0 else if |t.gossip| < max - 1 then |t.gossip| else max - 1
  }

  /** The gossip part of one frame. */
  function Frame(t: Table, max: nat): (facts: seq<Update>)
    ensures Piggyback(t, max).1 == [SelfUpdate(t)] + facts
  {
    Facts(t.gossip[..FrameSize(t, max)])
  }

  /** An entry is sent as often as its budget says, and once if it says zero. */
  function Uses(r: Rumour): nat
  {
    if r.budget == 0 then 1 else r.budget
  }

  function UsesOf(g: seq<Rumour>, u: Update): nat
  {
    if g == [] then 0 else (if g[0].fact == u then Uses(g[0]) else 0) + UsesOf(g[1..], u)
  }

  function TotalUses(g: seq<Rumour>): nat
  {
    if g == [] then 0 else Uses(g[0]) + TotalUses(g[1..])
  }

  lemma {:induction false} UsesOfAppend(g: seq<Rumour>, h: seq<Rumour>, u: Update)
    ensures UsesOf(g + h, u) == UsesOf(g, u) + UsesOf(h, u)
  {
    if g == [] {
      assert g + h == h;
    } else {
      UsesOfAppend(g[1..], h, u);
      assert (g + h)[1..] == g[1..] + h;
    }
  }

  lemma {:induction false} TotalUsesAppend(g: seq<Rumour>, h: seq<Rumour>)
    ensures TotalUses(g + h) == TotalUses(g) + TotalUses(h)
  {
    if g == [] {
      assert g + h == h;
    } else {
      TotalUsesAppend(g[1..], h);
      assert (g + h)[1..] == g[1..] + h;
    }
  }

  /** How often `u` occurs. */
  function Count(us: seq<Update>, u: Update): nat
  {
    if us == [] then 0 else (if us[0] == u then 1 else 0) + Count(us[1..], u)
  }

  lemma {:induction false} CountAppend(a: seq<Update>, b: seq<Update>, u: Update)
    ensures Count(a + b, u) == Count(a, u) + Count(b, u)
  {
    if a == [] {
      assert a + b == b;
    } else {
      CountAppend(a[1..], b, u);
      assert (a + b)[1..] == a[1..] + b;
    }
  }

  lemma {:induction false} SpendConserves(g: seq<Rumour>, u: Update)
    ensures Count(Facts(g), u) + UsesOf(Spend(g), u) == UsesOf(g, u)
    ensures |g| + TotalUses(Spend(g)) == TotalUses(g)
  {
    if g != [] {
      SpendConserves(g[1..], u);
      assert Facts(g) == [g[0].fact] + Facts(g[1..]);
      if g[0].budget > 1 {
        var head := g[0].(budget := g[0].budget - 1);
        assert Spend(g) == [head] + Spend(g[1..]);
        UsesOfAppend([head], Spend(g[1..]), u);
        TotalUsesAppend([head], Spend(g[1..]));
      }
    }
  }

  /** Between `g` and `g'` exactly the facts in `sent` went out. */
  ghost predicate Conserves(g: seq<Rumour>, sent: seq<Update>, g': seq<Rumour>, u: Update)
  {
    Count(sent, u) + UsesOf(g', u) == UsesOf(g, u)
  }

  lemma ConservesTrans(g: seq<Rumour>, sent: seq<Update>, g': seq<Rumour>, sent': seq<Update>,
    g'': seq<Rumour>, u: Update)
    requires Conserves(g, sent, g', u) && Conserves(g', sent', g'', u)
    ensures Conserves(g, sent + sent', g'', u)
  {
    CountAppend(sent, sent', u);
  }

  /** Each frame moves uses from the list to the wire: what is sent plus what remains is what there was. */
  lemma FrameConserves(t: Table, max: nat, u: Update)
    ensures Conserves(t.gossip, Frame(t, max), Piggyback(t, max).0.gossip, u)
  {
    var k := FrameSize(t, max);
    var head, tail := t.gossip[..k], t.gossip[k..];
    assert t.gossip == head + tail;
    assert Frame(t, max) == Facts(head);
    UsesOfAppend(head, tail, u);
    UsesOfAppend(Spend(head), tail, u);
    SpendConserves(head, u);
  }

  lemma FrameShrinks(t: Table, max: nat)
    ensures FrameSize(t, max) + TotalUses(Piggyback(t, max).0.gossip) == TotalUses(t.gossip)
  {
    var k := FrameSize(t, max);
    var head, tail := t.gossip[..k], t.gossip[k..];
    assert t.gossip == head + tail;
    TotalUsesAppend(head, tail);
    TotalUsesAppend(Spend(head), tail);
    SpendConserves(head, SelfUpdate(t));
  }

  lemma OneMoreFrame(g: seq<Rumour>, sent: seq<Update>, t: Table, max: nat, u: Update)
    requires Conserves(g, sent, t.gossip, u)
    ensures Conserves(g, sent + Frame(t, max), Piggyback(t, max).0.gossip, u)
  {
    FrameConserves(t, max, u);
    ConservesTrans(g, sent, t.gossip, Frame(t, max), Piggyback(t, max).0.gossip, u);
  }

  /** Over any number of frames, sent uses plus remaining uses are conserved. */
  lemma {:induction false} FramesConserve(t: Table, max: nat, n: nat, u: Update)
    ensures Conserves(t.gossip, Sent(t, max, n), After(t, max, n).gossip, u)
  {
    if n > 0 {
      FramesConserve(t, max, n - 1, u);
      OneMoreFrame(t.gossip, Sent(t, max, n - 1), After(t, max, n - 1), max, u);
    }
  }

  lemma {:induction false} Drains(t: Table, max: nat, n: nat)
    requires max >= 2
    ensures After(t, max, n).gossip == [] || TotalUses(After(t, max, n).gossip) + n <= TotalUses(t.gossip)
  {
    if n > 0 {
      Drains(t, max, n - 1);
      FrameShrinks(After(t, max, n - 1), max);
    }
  }

  lemma {:induction false} OneEntry(g: seq<Rumour>, r: Rumour)
    requires GossipOk(g) && r in g
    ensures UsesOf(g, r.fact) == Uses(r)
  {
    if g[0] == r {
      NoEntry(g[1..], r.fact);
    } else {
      assert r in g[1..] && GossipOk(g[1..]);
      OneEntry(g[1..], r);
      assert g[0].fact.id != r.fact.id by {
        var i :| 0 <= i < |g[1..]| && g[1..][i] == r;
        assert g[i + 1] == r;
      }
    }
  }

  lemma {:induction false} NoEntry(g: seq<Rumour>, u: Update)
    requires forall r | r in g :: r.fact.id != u.id
    ensures UsesOf(g, u) == 0
  {
    if g != [] {
      NoEntry(g[1..], u);
    }
  }

  /** Once drained, every entry has been sent exactly as often as its budget allows. */
  lemma EachEntrySentItsBudget(t: Table, max: nat, n: nat, r: Rumour)
    requires max >= 2 && n >= TotalUses(t.gossip)
    requires GossipOk(t.gossip) && r in t.gossip
    ensures After(t, max, n).gossip == []
    ensures Count(Sent(t, max, n), r.fact) == Uses(r)
  {
    Drains(t, max, n + 1);
    Drains(t, max, n);
    FramesConserve(t, max, n, r.fact);
    OneEntry(t.gossip, r);
  }

  lemma {:induction false} TooSmallNeverDrains(t: Table, max: nat, n: nat)
    requires max < 2
    ensures After(t, max, n).gossip == t.gossip
    decreases n
  {
    if n > 0 {
      TooSmallNeverDrains(t, max, n - 1);
    }
  }

  /** The list drains exactly when a frame has room for a fact beside the self-alive, or there is nothing to send. */
  lemma DrainsIff(t: Table, max: nat)
    ensures (exists n: nat :: After(t, max, n).gossip == []) <==> max >= 2 || t.gossip == []
  {
    if max >= 2 {
      Drains(t, max, TotalUses(t.gossip) + 1);
    } else {
      assert After(t, max, 0) == t;
      if n: nat :| After(t, max, n).gossip == [] {
        TooSmallNeverDrains(t, max, n);
      }
    }
  }
}
