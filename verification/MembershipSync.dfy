/** The three MEMBERSHIP messages and what receiving one does (crates/mesh/src/membership_sync.rs). */
module MembershipSync {
  import opened Prelude
  import opened Swim

  datatype Msg =
    | Sync(reply: bool, updates: seq<Update>)
    | Gossip(updates: seq<Update>)
    | Digest(entries: seq<(NodeId, nat)>)

  /** The digest entries collected into a map; a repeated id keeps its last entry. */
  function Collect(entries: seq<(NodeId, nat)>): map<NodeId, nat>
  {
    if entries == [] then map[]
    else Collect(entries[..|entries| - 1])[entries[|entries| - 1].0 := entries[|entries| - 1].1]
  }

  /** What the digest shows to be missing or stale at its sender. */
  function Newer(t: Table, entries: seq<(NodeId, nat)>): set<Update>
  {
    var peer := Collect(entries);
    set u | u in FullState(t) && (u.id in peer ==> u.inc > peer[u.id])
  }

  function Apply(msg: Msg, t: Table, budget: nat, now: nat): Table
  {
    match msg
    case Sync(_, us) => MergeAll(t, us, budget, now)
    case Gossip(us) => MergeAll(t, us, budget, now)
    case Digest(_) => t
  }

  /** The answer sent back by a node whose table is `t` after applying `msg`; list orders are arbitrary. */
  ghost predicate Answers(msg: Msg, t: Table, answer: Option<Msg>)
  {
    match msg
    case Sync(reply, _) =>
      if reply then answer.Some? && answer.value.Sync? && !answer.value.reply && Lists(answer.value.updates, t)
      else answer == None
    case Gossip(_) => answer == None
    case Digest(entries) =>
      if Newer(t, entries) == {} then answer == None
      else answer.Some? && answer.value.Gossip? && Elements(answer.value.updates) == Newer(t, entries)
  }

  /** `entries` lists the id and incarnation of everything in the full state. */
  ghost predicate IsDigest(t: Table, entries: seq<(NodeId, nat)>)
  {
    Elements(entries) == set u | u in FullState(t) :: (u.id, u.inc)
  }

  lemma {:induction false} CollectEntries(entries: seq<(NodeId, nat)>, id: NodeId)
    ensures id in Collect(entries) ==> (id, Collect(entries)[id]) in entries
    ensures (exists e :: e in entries && e.0 == id) ==> id in Collect(entries)
  {
    if entries != [] {
      CollectEntries(entries[..|entries| - 1], id);
      assert entries == entries[..|entries| - 1] + [entries[|entries| - 1]];
    }
  }

  /** The collected digest of a table maps every id the table knows to the incarnation it holds. */
  lemma CollectDigest(t: Table, entries: seq<(NodeId, nat)>, id: NodeId)
    requires IsDigest(t, entries) && t.selfId !in t.members && id != t.selfId
    ensures id in Collect(entries) <==> id in t.members
    ensures id in t.members ==> Collect(entries)[id] == t.members[id].inc
  {
    CollectEntries(entries, id);
    assert forall e :: e in entries <==> e in Elements(entries);
    if id in t.members {
      assert EntryUpdate(t, id) in FullState(t);
      assert (id, t.members[id].inc) in entries;
    }
  }

  lemma NewerAbout(b: Table, entries: seq<(NodeId, nat)>, id: NodeId, u: Update)
    requires b.selfId !in b.members && u in Newer(b, entries) && u.id == id
    ensures Told(b, id) == Some(ClaimOf(u))
  {
  }

  /** `a` sends its digest to `b` and merges the gossip it draws. */
  function AfterDigest(a: Table, answer: Option<Msg>, budget: nat, now: nat): Table
  {
    if answer.None? then a else Apply(answer.value, a, budget, now)
  }

  /**
   * One digest exchange replaces the asker's claim about a third node exactly when the responder's
   * incarnation is higher (or the asker knew nothing); a differing state at an equal incarnation stays.
   */
  lemma DigestExchange(a: Table, b: Table, entries: seq<(NodeId, nat)>, answer: Option<Msg>, budget: nat,
    now: nat, id: NodeId)
    requires a.selfId != b.selfId && a.selfId !in a.members && b.selfId !in b.members
    requires IsDigest(a, entries) && Answers(Digest(entries), b, answer) && id != a.selfId
    ensures View(AfterDigest(a, answer, budget, now), id) ==
      (if Told(b, id).Some? && (View(a, id).None? || Told(b, id).value.inc > View(a, id).value.inc)
       then Told(b, id) else View(a, id))
  {
    CollectDigest(a, entries, id);
    var us := if answer.Some? then answer.value.updates else [];
    assert Elements(us) == Newer(b, entries);
    assert forall u :: u in us <==> u in Newer(b, entries);
    MergeAllIsBest(a, us, budget, now, id);
    forall u | u in us && u.id == id ensures Told(b, id) == Some(ClaimOf(u)) {
      NewerAbout(b, entries, id, u);
    }
    if Told(b, id).Some? && (View(a, id).None? || Told(b, id).value.inc > View(a, id).value.inc) {
      var u := if id == b.selfId then SelfUpdate(b) else EntryUpdate(b, id);
      assert u in Newer(b, entries);
    }
  }

  /**
   * After one digest exchange the asker's incarnation for every other node is at least the responder's; and it
   * holds a claim at least as strong unless both were at one incarnation with the responder's state stronger.
   */
  lemma DigestCatchesUp(a: Table, b: Table, entries: seq<(NodeId, nat)>, answer: Option<Msg>, budget: nat,
    now: nat, id: NodeId)
    requires a.selfId != b.selfId && a.selfId !in a.members && b.selfId !in b.members
    requires IsDigest(a, entries) && Answers(Digest(entries), b, answer) && id != a.selfId && Told(b, id).Some?
    ensures var v := View(AfterDigest(a, answer, budget, now), id);
      && v.Some? && v.value.inc >= Told(b, id).value.inc
      && (AtLeast(v, Told(b, id).value) <==>
          !(View(a, id).Some? && View(a, id).value.inc == Told(b, id).value.inc
            && Precedence(View(a, id).value.state) < Precedence(Told(b, id).value.state)))
  {
    DigestExchange(a, b, entries, answer, budget, now, id);
  }
}
