/** The membership table as the code keeps it: one object, its loops and its in-place shuffle. */
module SwimTable {
  import opened Prelude
  import S = Swim
  import P = SwimProbe

  /** xorshift64*. */
  class Rng {
    var state: bv64

    constructor (seed: bv64)
      ensures state == seed
    {
      state := seed;
    }

    method Next() returns (r: bv64)
      modifies this
    {
      var x := state;
      x := x ^ (x >> 12);
      x := x ^ (x << 25);
      x := x ^ (x >> 27);
      state := x;
      r := x * 0x2545_f491_4f6c_dd1d;
    }

    /** Fisher-Yates: whatever numbers the generator yields, the result is a permutation. */
    method Shuffle(v: array<S.NodeId>)
      modifies this, v
      ensures multiset(v[..]) == old(multiset(v[..]))
    {
      var i := v.Length;
      while i > 1
        invariant multiset(v[..]) == old(multiset(v[..]))
      {
        i := i - 1;
        var r := Next();
        var j := (r as int) % (i + 1);
        v[i], v[j] := v[j], v[i];
      }
    }
  }

  lemma {:induction false} PermutationFacts<T>(a: seq<T>, b: seq<T>)
    requires multiset(a) == multiset(b) && Distinct(b)
    ensures Elements(a) == Elements(b) && Distinct(a)
  {
    assert forall x :: x in a <==> x in multiset(a);
    assert forall x :: x in b <==> x in multiset(b);
    forall i, j | 0 <= i < j < |a| ensures a[i] != a[j] {
      if a[i] == a[j] {
        assert a == a[..i] + [a[i]] + a[i + 1..j] + [a[j]] + a[j + 1..];
        assert multiset(a)[a[i]] >= 2;
        DistinctCount(b, a[i]);
      }
    }
  }

  /** A duplicate-free list of a set, in the arbitrary order a hash map iterates. */
  method ListOf(s: set<S.NodeId>) returns (r: seq<S.NodeId>)
    ensures Elements(r) == s && Distinct(r)
  {
    r := [];
    var todo := s;
    while todo != {}
      invariant Elements(r) + todo == s && Elements(r) !! todo && Distinct(r)
    {
      var id :| id in todo;
      assert id !in r by { assert id !in Elements(r); }
      assert Elements(r + [id]) == Elements(r) + {id};
      r, todo := r + [id], todo - {id};
    }
  }

  function Kept(r: S.Rumour): seq<S.Rumour>
  {
    if r.budget > 1 then [S.Rumour(r.fact, r.budget - 1)] else []
  }

  /** What popping every entry leaves: the frame filled up to `max`, and the entries that stay queued. */
  function Drained(frame: seq<S.Update>, g: seq<S.Rumour>, max: nat): (seq<S.Update>, seq<S.Rumour>)
    decreases |g|
  {
    if g == [] then (frame, [])
    else if |frame| < max then
      var (out, still) := Drained(frame + [g[0].fact], g[1..], max);
      (out, Kept(g[0]) + still)
    else
      var (out, still) := Drained(frame, g[1..], max);
      (out, [g[0]] + still)
  }

  method DrainInto(frame: seq<S.Update>, all: seq<S.Rumour>, max: nat)
    returns (out: seq<S.Update>, still: seq<S.Rumour>)
    ensures (out, still) == Drained(frame, all, max)
  {
    out, still := frame, [];
    var gossip := all;
    assert [] + Drained(frame, all, max).1 == Drained(frame, all, max).1;
    while gossip != []
      invariant var (o, s) := Drained(out, gossip, max); (o, still + s) == Drained(frame, all, max)
      decreases |gossip|
    {
      var r := gossip[0];
      gossip := gossip[1..];
      if |out| < max {
        out := out + [r.fact];
        ghost var tail := Drained(out, gossip, max).1;
        assert still + (Kept(r) + tail) == (still + Kept(r)) + tail;
        if r.budget > 1 {
          still := still + [S.Rumour(r.fact, r.budget - 1)];
        } else {
          assert still + Kept(r) == still;
        }
      } else {
        ghost var tail := Drained(out, gossip, max).1;
        assert still + ([r] + tail) == (still + [r]) + tail;
        still := still + [r];
      }
    }
    assert still + [] == still;
  }

  lemma {:induction false} DrainedFull(frame: seq<S.Update>, g: seq<S.Rumour>, max: nat)
    requires |frame| >= max
    ensures Drained(frame, g, max) == (frame, g)
    decreases |g|
  {
    if g != [] {
      DrainedFull(frame, g[1..], max);
      assert g == [g[0]] + g[1..];
    }
  }

  /** The first of `k` sent, and the rest of them. */
  lemma PrefixStep(frame: seq<S.Update>, g: seq<S.Rumour>, k: nat)
    requires 0 < k <= |g|
    ensures frame + S.Facts(g[..k]) == (frame + [g[0].fact]) + S.Facts(g[1..][..k - 1])
    ensures S.Spend(g[..k]) + g[k..] == Kept(g[0]) + (S.Spend(g[1..][..k - 1]) + g[1..][k - 1..])
  {
    var first, rest := g[..k], g[1..][..k - 1];
    assert first[1..] == rest && g[k..] == g[1..][k - 1..];
    assert S.Facts(first) == [g[0].fact] + S.Facts(rest);
    assert S.Spend(first) == Kept(g[0]) + S.Spend(rest);
  }

  /** Popping entry by entry is taking a prefix: the first `k` are sent and spend budget, the rest stay. */
  lemma {:induction false} DrainedIsPrefix(frame: seq<S.Update>, g: seq<S.Rumour>, max: nat, k: nat)
    requires k <= |g| && (k < |g| ==> |frame| + k >= max) && (k > 0 ==> |frame| + k <= max)
    ensures Drained(frame, g, max) == (frame + S.Facts(g[..k]), S.Spend(g[..k]) + g[k..])
    decreases |g|
  {
    if k == 0 {
      assert frame + S.Facts(g[..0]) == frame && S.Spend(g[..0]) + g[0..] == g;
      if g != [] {
        DrainedFull(frame, g, max);
      }
    } else {
      var tail := g[1..];
      DrainedIsPrefix(frame + [g[0].fact], tail, max, k - 1);
      PrefixStep(frame, g, k);
    }
  }

  /** A suspect's death at its own incarnation is news. */
  lemma SuspectDies(t: S.Table, was: S.Table, id: S.NodeId, budget: nat, now: nat)
    requires id != t.selfId && id in was.members && was.members[id].state == S.Suspect
    requires id in t.members && t.members[id] == was.members[id]
    ensures S.Merge(t, S.EntryUpdate(was, id).(state := S.Dead), budget, now).1
  {
  }

  /** The listed members are as they were. */
  ghost predicate StillAs(t: S.Table, was: S.Table, ids: seq<S.NodeId>)
  {
    forall id | id in ids :: id in t.members && id in was.members && t.members[id] == was.members[id]
  }

  lemma RestKept(t: S.Table, was: S.Table, ids: seq<S.NodeId>, i: nat, u: S.Update, budget: nat, now: nat)
    requires i < |ids| && Distinct(ids) && u.id == ids[i] && StillAs(t, was, ids[i..])
    ensures StillAs(S.Merge(t, u, budget, now).0, was, ids[i + 1..])
  {
    forall id | id in ids[i + 1..] ensures id != u.id && id in ids[i..] {
      var j :| i + 1 <= j < |ids| && ids[j] == id;
    }
  }

  class Membership {
    const selfId: S.NodeId
    const selfAddr: S.Addr
    const rng: Rng
    var selfInc: nat
    var members: map<S.NodeId, S.Member>
    var gossip: seq<S.Rumour>
    var counters: S.Counters
    var probeOrder: seq<S.NodeId>
    var probeIdx: nat

    ghost function Value(): S.Table
      reads this
    {
      S.Table(selfId, selfAddr, selfInc, members, gossip, counters)
    }

    ghost function Schedule(): P.Schedule
      reads this
    {
      P.Schedule(probeOrder, probeIdx)
    }

    /** No self entry, one rumour per id and at most the cap, no id twice in the probe order. */
    ghost predicate Valid()
      reads this
    {
      selfId !in members && S.GossipOk(gossip) && Distinct(probeOrder)
    }

    constructor (selfId: S.NodeId, selfAddr: S.Addr, rng: Rng)
      ensures Valid() && Value() == S.Fresh(selfId, selfAddr) && Schedule() == P.Schedule([], 0) && this.rng == rng
    {
      this.selfId, this.selfAddr, this.rng := selfId, selfAddr, rng;
      selfInc, members, gossip := 1, map[], [];
      counters := S.Counters(0, 0, 0, 0, 0);
      probeOrder, probeIdx := [], 0;
    }

    method Enqueue(u: S.Update, budget: nat)
      requires Valid()
      modifies this`gossip
      ensures Valid()
      ensures gossip == S.Enqueue(old(gossip), u, budget)
    {
      S.EnqueueKeepsGossipOk(gossip, u, budget);
      gossip := S.Without(gossip, u.id) + [S.Rumour(u, budget)];
      ghost var all := gossip;
      ghost var popped := 0;
      while |gossip| > S.GOSSIP_CAP
        invariant 0 <= popped <= |all| && gossip == all[popped..]
        invariant popped == 0 || |gossip| >= S.GOSSIP_CAP
      {
        gossip := gossip[1..];
        popped := popped + 1;
      }
    }

    method Merge(u: S.Update, budget: nat, now: nat) returns (changed: bool)
      requires Valid()
      modifies this`selfInc, this`members, this`gossip, this`counters
      ensures Valid()
      ensures (Value(), changed) == S.Merge(old(Value()), u, budget, now)
    {
      if u.id == selfId {
        if u.state != S.Alive && u.inc >= selfInc {
          selfInc := u.inc + 1;
          counters := counters.(refuted := counters.refuted + 1);
          Enqueue(S.Update(selfId, selfAddr, S.Alive, selfInc), budget);
          return true;
        }
        return false;
      }
      var prev := None;
      if u.id in members {
        var m := members[u.id];
        if !(u.inc > m.inc || (u.inc == m.inc && S.Precedence(u.state) > S.Precedence(m.state))) {
          return false;
        }
        prev := Some(m.state);
      }
      members := members[u.id := S.Member(u.addr, u.state, u.inc, now)];
      counters := S.CountTransition(counters, prev, u.state);
      Enqueue(u, budget);
      return true;
    }

    /** The receive loop of a Sync or a Gossip message. */
    method MergeEach(us: seq<S.Update>, budget: nat, now: nat)
      requires Valid()
      modifies this`selfInc, this`members, this`gossip, this`counters
      ensures Valid()
      ensures Value() == S.MergeAll(old(Value()), us, budget, now)
    {
      for i := 0 to |us|
        invariant Valid()
        invariant S.MergeAll(old(Value()), us, budget, now) == S.MergeAll(Value(), us[i..], budget, now)
      {
        assert us[i..][1..] == us[i + 1..];
        var _ := Merge(us[i], budget, now);
      }
    }

    /** Drain up to `max` facts for a frame, spending one of each sent entry's budget. */
    method TakePiggyback(max: nat) returns (out: seq<S.Update>)
      requires Valid()
      modifies this`gossip
      ensures Valid()
      ensures (Value(), out) == S.Piggyback(old(Value()), max)
    {
      var still;
      out, still := DrainInto([S.Update(selfId, selfAddr, S.Alive, selfInc)], gossip, max);
      gossip := still;
      DrainedIsPrefix([S.SelfUpdate(old(Value()))], old(gossip), max, |S.Piggyback(old(Value()), max).1| - 1);
      S.PiggybackKeepsGossipOk(old(Value()), max);
    }

    method NoteDirectAck(from: S.NodeId, budget: nat, now: nat) returns (revived: bool)
      requires Valid()
      modifies this`members, this`gossip, this`counters
      ensures Valid()
      ensures (Value(), revived) == S.NoteDirectAck(old(Value()), from, budget, now)
    {
      if from !in members || members[from].state != S.Suspect {
        return false;
      }
      var m := members[from];
      members := members[from := S.Member(m.addr, S.Alive, m.inc, now)];
      counters := counters.(revived := counters.revived + 1);
      Enqueue(S.Update(from, m.addr, S.Alive, m.inc), budget);
      return true;
    }

    method Suspect(target: S.NodeId, budget: nat, now: nat) returns (changed: bool)
      requires Valid()
      modifies this`selfInc, this`members, this`gossip, this`counters
      ensures Valid()
      ensures (Value(), changed) == S.Suspicion(old(Value()), target, budget, now)
    {
      if target !in members || members[target].state != S.Alive {
        return false;
      }
      var m := members[target];
      changed := Merge(S.Update(target, m.addr, S.Suspect, m.inc), budget, now);
    }

    /** Every suspect past its timeout, and no one else, is declared dead at its incarnation. */
    method ExpireSuspects(timeout: nat, budget: nat, now: nat) returns (dead: seq<S.NodeId>)
      requires Valid()
      modifies this`selfInc, this`members, this`gossip, this`counters
      ensures Valid()
      ensures Distinct(dead) && Elements(dead) == S.Expired(old(Value()), timeout, now)
      ensures forall id | id in dead :: id in old(members)
      ensures Value() == S.MergeAll(old(Value()), S.DeclareDead(old(Value()), dead), budget, now)
    {
      var ids := ListOf(set id | id in members && members[id].state == S.Suspect && now > members[id].since + timeout);
      assert Elements(ids) == S.Expired(Value(), timeout, now);
      assert forall id | id in ids :: id in Elements(ids);
      dead := DeclareEach(ids, budget, now);
    }

    /** The loop over the suspects found: each is merged as Dead, and listed if that was news. */
    method DeclareEach(ids: seq<S.NodeId>, budget: nat, now: nat) returns (dead: seq<S.NodeId>)
      requires Valid() && Distinct(ids) && forall id | id in ids :: id in members && members[id].state == S.Suspect
      modifies this`selfInc, this`members, this`gossip, this`counters
      ensures Valid() && dead == ids
      ensures Value() == S.MergeAll(old(Value()), S.DeclareDead(old(Value()), ids), budget, now)
    {
      var was := S.Table(selfId, selfAddr, selfInc, members, gossip, counters);
      var ups := S.DeclareDead(was, ids);
      dead := [];
      for i := 0 to |ids|
        invariant dead == ids[..i] && Valid() && StillAs(Value(), was, ids[i..])
        invariant S.MergeAll(was, ups, budget, now) == S.MergeAll(Value(), ups[i..], budget, now)
      {
        assert ups[i..][1..] == ups[i + 1..];
        assert ids[i] in ids[i..] && ids[i] in ids;
        SuspectDies(Value(), was, ids[i], budget, now);
        RestKept(Value(), was, ids, i, ups[i], budget, now);
        var changed := Merge(ups[i], budget, now);
        if changed {
          dead := dead + [ids[i]];
        }
      }
    }

    /** The listed ids in a new order. */
    method Shuffled(listed: seq<S.NodeId>) returns (order: seq<S.NodeId>)
      requires Distinct(listed)
      modifies rng
      ensures Distinct(order) && Elements(order) == Elements(listed)
    {
      var v := new S.NodeId[|listed|](i requires 0 <= i < |listed| => listed[i]);
      assert v[..] == listed;
      rng.Shuffle(v);
      PermutationFacts(v[..], listed);
      order := v[..];
    }

    /** The next probe target is one step of the fair schedule over the members not known dead. */
    method NextProbeTarget() returns (target: Option<(S.NodeId, S.Addr)>)
      requires Valid()
      modifies this`probeOrder, this`probeIdx, rng
      ensures Valid()
      ensures var live := set id | id in members && members[id].state != S.Dead;
        if live == {} then target == None && Schedule() == old(Schedule())
        else exists shuffled ::
          shuffled != [] && P.Permutes(shuffled, live) &&
          var (next, id) := P.Probe(old(Schedule()), live, shuffled);
          Schedule() == next && id in members && target == Some((id, members[id].addr))
    {
      var live := set id | id in members && members[id].state != S.Dead;
      if live == {} {
        return None;
      }
      var listed := ListOf(live);
      assert listed != [] by { assert Elements(listed) != {}; }
      ghost var shuffled := listed;
      ghost var was := Schedule();
      probeOrder := P.Retain(probeOrder, live);
      if probeIdx >= |probeOrder| {
        var order := Shuffled(listed);
        shuffled := order;
        probeOrder := order;
        probeIdx := 0;
      }
      P.ProbeKeepsOrder(was, live, shuffled);
      var id := probeOrder[probeIdx];
      probeIdx := probeIdx + 1;
      assert (Schedule(), id) == P.Probe(was, live, shuffled);
      target := Some((id, members[id].addr));
    }
  }
}
