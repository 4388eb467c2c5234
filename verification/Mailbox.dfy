/**
 * The bounded send queue of one connection and its three overflow policies
 * (crates/core/src/connection/backpressure.rs).
 */
module Mailbox {
  import opened Prelude
  import opened Wire

  datatype Policy = Disconnect | DropNewest | DropOldest

  datatype Outbound = Outbound(data: seq<byte>, isBinary: bool)

  datatype PushOutcome = Queued | DroppedNewest | DroppedOldest | Disconnected | Closed

  /** An empty frame is charged one byte, so entries are bounded too. */
  function Charge(f: Outbound): (n: nat)
    ensures n >= 1
  {
    if f.data == [] then 1 else |f.data|
  }

  function Charges(items: seq<Outbound>): nat
  {
    if items == [] then 0 else Charge(items[0]) + Charges(items[1..])
  }

  datatype Box = Box(items: seq<Outbound>, bytes: nat, closed: bool, hwm: nat, policy: Policy)

  /** Exact accounting; above the mark only while a single frame is queued. */
  ghost predicate BoxOk(b: Box)
  {
    b.bytes == Charges(b.items) && (b.bytes > b.hwm ==> |b.items| == 1)
  }

  predicate Overflows(b: Box, f: Outbound)
  {
    b.bytes + Charge(f) > b.hwm && b.items != []
  }

  /** How many of the oldest frames must go before `len` more bytes fit, all of them if need be. */
  function Evictions(items: seq<Outbound>, len: nat, hwm: nat): (n: nat)
    ensures n <= |items|
  {
    if items == [] || Charges(items) + len <= hwm then 0 else 1 + Evictions(items[1..], len, hwm)
  }

  /** The new queue, the outcome, and how many frames were discarded. */
  function Push(b: Box, f: Outbound): (Box, PushOutcome, nat)
  {
    if b.closed then (b, Closed, 0)
    else if !Overflows(b, f) then (b.(items := b.items + [f], bytes := b.bytes + Charge(f)), Queued, 0)
    else
      match b.policy
      case Disconnect => (b.(closed := true), Disconnected, 1)
      case DropNewest => (b, DroppedNewest, 1)
      case DropOldest =>
        var k := Evictions(b.items, Charge(f), b.hwm);
        (b.(items := b.items[k..] + [f], bytes := Charges(b.items[k..]) + Charge(f)), DroppedOldest, k)
  }

  function Pop(b: Box): (Box, Option<Outbound>)
  {
    if b.items == [] then (b, None)
    else (b.(items := b.items[1..], bytes := Charges(b.items[1..])), Some(b.items[0]))
  }

  lemma {:induction false} ChargesSnoc(items: seq<Outbound>, f: Outbound)
    ensures Charges(items + [f]) == Charges(items) + Charge(f)
  {
    if items == [] {
      assert items + [f] == [f] && [f][1..] == [];
    } else {
      ChargesSnoc(items[1..], f);
      assert (items + [f])[1..] == items[1..] + [f];
    }
  }

  lemma {:induction false} EvictionsSuffice(items: seq<Outbound>, len: nat, hwm: nat)
    ensures var k := Evictions(items, len, hwm);
      && (Charges(items[k..]) + len <= hwm || k == |items|)
      && (forall j | 0 <= j < k :: Charges(items[j..]) + len > hwm)
  {
    var k := Evictions(items, len, hwm);
    if k > 0 {
      EvictionsSuffice(items[1..], len, hwm);
      assert items[1..][k - 1..] == items[k..];
      forall j | 0 <= j < k ensures Charges(items[j..]) + len > hwm {
        if j > 0 {
          assert items[1..][j - 1..] == items[j..];
        }
      }
    }
    assert items[0..] == items;
  }

  lemma EvictThenPush(items: seq<Outbound>, f: Outbound, hwm: nat)
    requires Charges(items) + Charge(f) > hwm && items != []
    ensures var k := Evictions(items, Charge(f), hwm);
      var queue := items[k..] + [f];
      && 0 < k <= |items| && Charges(items[k - 1..]) + Charge(f) > hwm
      && Charges(queue) == Charges(items[k..]) + Charge(f) && (Charges(queue) > hwm ==> |queue| == 1)
  {
    EvictionsSuffice(items, Charge(f), hwm);
    ChargesSnoc(items[Evictions(items, Charge(f), hwm)..], f);
  }

  /**
   * Which policy does what. A push fits when the mark allows its bytes, an empty frame counting as one, or when nothing
   * is queued. One that does not fit closes the mailbox, is itself dropped, or takes the place of the oldest.
   */
  lemma PushOutcomes(b: Box, f: Outbound)
    requires BoxOk(b)
    ensures var (b', outcome, dropped) := Push(b, f);
      var fits := b.bytes + (if |f.data| == 0 then 1 else |f.data|) <= b.hwm || |b.items| == 0;
      && b'.hwm == b.hwm && b'.policy == b.policy
      && if b.closed then b' == b && outcome == Closed && dropped == 0
         else if fits then !b'.closed && b'.items == b.items + [f] && outcome == Queued && dropped == 0
         else if b.policy == Disconnect then b'.closed && b'.items == b.items && outcome == Disconnected && dropped == 1
         else if b.policy == DropNewest then b' == b && outcome == DroppedNewest && dropped == 1
         else !b'.closed && 0 < dropped <= |b.items| && b'.items == b.items[dropped..] + [f] && outcome == DroppedOldest
  {
    PushKeepsOk(b, f);
  }

  /** Every push keeps the accounting and the bound, and evicts no more than the new frame needs. */
  lemma PushKeepsOk(b: Box, f: Outbound)
    requires BoxOk(b)
    ensures BoxOk(Push(b, f).0)
    ensures var (b', outcome, dropped) := Push(b, f);
      outcome == DroppedOldest ==>
        dropped > 0 && b'.items == b.items[dropped..] + [f] && Charges(b.items[dropped - 1..]) + Charge(f) > b.hwm
  {
    if !b.closed && Overflows(b, f) && b.policy.DropOldest? {
      EvictThenPush(b.items, f, b.hwm);
    } else {
      ChargesSnoc(b.items, f);
    }
  }

  lemma PopKeepsOk(b: Box)
    requires BoxOk(b)
    ensures BoxOk(Pop(b).0)
  {
  }
}

/** The mailbox as the code keeps it. */
module MailboxObject {
  import opened Prelude
  import M = Mailbox

  class Mailbox {
    var items: seq<M.Outbound>
    var bytes: nat
    var closed: bool
    var drops: nat
    const highWaterMark: nat
    const policy: M.Policy

    ghost function Value(): M.Box
      reads this
    {
      M.Box(items, bytes, closed, highWaterMark, policy)
    }

    ghost predicate Valid()
      reads this
    {
      M.BoxOk(Value())
    }

    constructor (highWaterMark: nat, policy: M.Policy)
      ensures Valid() && Value() == M.Box([], 0, false, highWaterMark, policy) && drops == 0
    {
      items, bytes, closed, drops := [], 0, false, 0;
      this.highWaterMark, this.policy := highWaterMark, policy;
    }

    /** Pop the oldest frames until `len` more bytes fit or nothing is left. */
    method Evict(len: nat) returns (dropped: nat)
      requires bytes == M.Charges(items)
      modifies this`items, this`bytes
      ensures dropped == M.Evictions(old(items), len, highWaterMark)
      ensures items == old(items)[dropped..] && bytes == M.Charges(items)
    {
      dropped := 0;
      ghost var all := items;
      while bytes + len > highWaterMark && items != []
        invariant dropped <= |all| && items == all[dropped..] && bytes == M.Charges(items)
        invariant dropped + M.Evictions(items, len, highWaterMark) == M.Evictions(all, len, highWaterMark)
        decreases |items|
      {
        bytes := bytes - M.Charge(items[0]);
        items := items[1..];
        dropped := dropped + 1;
      }
    }

    method Push(f: M.Outbound) returns (outcome: M.PushOutcome)
      requires Valid()
      modifies this
      ensures Valid()
      ensures var (b, o, dropped) := M.Push(old(Value()), f);
        Value() == b && outcome == o && drops == old(drops) + dropped
    {
      var len := M.Charge(f);
      if closed {
        outcome := M.Closed;
      } else if bytes + len > highWaterMark && items != [] {
        outcome := Overflow(f, len);
      } else {
        bytes := bytes + len;
        items := items + [f];
        outcome := M.Queued;
      }
      M.PushKeepsOk(old(Value()), f);
    }

    /** The configured policy, once the mark would be passed. */
    method Overflow(f: M.Outbound, len: nat) returns (outcome: M.PushOutcome)
      requires Valid() && !closed && len == M.Charge(f) && M.Overflows(Value(), f)
      modifies this
      ensures var (b, o, dropped) := M.Push(old(Value()), f);
        Value() == b && outcome == o && drops == old(drops) + dropped
    {
      match policy {
        case Disconnect =>
          drops := drops + 1;
          closed := true;
          outcome := M.Disconnected;
        case DropNewest =>
          drops := drops + 1;
          outcome := M.DroppedNewest;
        case DropOldest =>
          var dropped := Evict(len);
          drops := drops + dropped;
          bytes := bytes + len;
          items := items + [f];
          outcome := M.DroppedOldest;
      }
    }

    method TryPop() returns (f: Option<M.Outbound>)
      requires Valid()
      modifies this
      ensures Valid() && (Value(), f) == M.Pop(old(Value())) && drops == old(drops)
    {
      if items == [] {
        return None;
      }
      f := Some(items[0]);
      bytes := bytes - M.Charge(items[0]);
      items := items[1..];
    }

    method Close()
      requires Valid()
      modifies this
      ensures Valid() && Value() == old(Value()).(closed := true) && drops == old(drops)
    {
      closed := true;
    }
  }
}
