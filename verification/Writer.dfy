/**
 * One connection's mailbox, control queue and writer loop as one system of interleaved steps
 * (crates/core/src/connection/mod.rs). Pushes, closes and control commands may arrive between any two writer steps.
 */
module Writer {
  import opened Mailbox

  const CONTROL_QUEUE_CAPACITY: nat := 4

  datatype Control = Ping | Close(code: nat)

  datatype OutFrame = PingFrame | CloseFrame(code: nat) | Data(f: Outbound)

  /**
   * `accepted`, `popped`, `evicted` and `refused` record the past of the mailbox, `asked` the control commands queued
   * so far; `wire` is what the sink took, `failed` that it refused a frame.
   */
  datatype Conn = Conn(
    box: Box,
    control: seq<Control>,
    closeSent: bool,
    stopped: bool,
    failed: bool,
    wire: seq<OutFrame>,
    drops: nat,
    accepted: seq<Outbound>,
    popped: seq<Outbound>,
    evicted: nat,
    refused: nat,
    asked: seq<Control>)

  datatype Step =
    | PushStep(f: Outbound)
    | CloseBox
    | TrySend(c: Control)
    | TakeControl(ok: bool)
    | ControlGone
    | TakeFrame(ok: bool)
    | Drained

  function New(hwm: nat, policy: Policy): Conn
  {
    Conn(Box([], 0, false, hwm, policy), [], false, false, false, [], 0, [], [], 0, 0, [])
  }

  /** The loop's select is biased: a frame is taken only when no control command is waiting. */
  predicate Enabled(c: Conn, step: Step)
  {
    match step
    case TakeControl(_) => !c.stopped && c.control != []
    case ControlGone => !c.stopped && c.control == []
    case TakeFrame(_) => !c.stopped && c.control == [] && c.box.items != []
    case Drained => !c.stopped && c.control == [] && c.box.items == [] && c.box.closed
    case _ => true
  }

  function Next(c: Conn, step: Step): Conn
    requires Enabled(c, step)
  {
    match step
    case PushStep(f) =>
      var (b, outcome, dropped) := Push(c.box, f);
      var took := outcome.Queued? || outcome.DroppedOldest?;
      c.(box := b,
         drops := c.drops + dropped,
         accepted := if took then c.accepted + [f] else c.accepted,
         evicted := if outcome.DroppedOldest? then c.evicted + dropped else c.evicted,
         refused := if outcome.DroppedNewest? || outcome.Disconnected? then c.refused + 1 else c.refused)
    case CloseBox => c.(box := c.box.(closed := true))
    case TrySend(cmd) =>
      if |c.control| < CONTROL_QUEUE_CAPACITY then c.(control := c.control + [cmd], asked := c.asked + [cmd]) else c
    case TakeControl(ok) =>
      var c' := c.(control := c.control[1..]);
      if c.closeSent then c'
      else if c.control[0].Ping? then
        if ok then c'.(wire := c.wire + [PingFrame]) else c'.(stopped := true, failed := true)
      else c'.(wire := if ok then c.wire + [CloseFrame(c.control[0].code)] else c.wire, closeSent := true)
    case ControlGone => c.(stopped := true)
    case TakeFrame(ok) =>
      var (b, f) := Pop(c.box);
      var c' := c.(box := b, popped := c.popped + [f.value]);
      if c.closeSent then c'
      else if ok then c'.(wire := c.wire + [Data(f.value)])
      else c'.(stopped := true, failed := true)
    case Drained => c.(stopped := true)
  }

  function Sent(wire: seq<OutFrame>): seq<Outbound>
  {
    if wire == [] then []
    else
      var init, last := Sent(wire[..|wire| - 1]), wire[|wire| - 1];
      if last.Data? then init + [last.f] else init
  }

  // ── subsequences ──

  /** `at` picks the elements of `a` out of `b`, left to right. */
  ghost predicate Picks<T>(at: seq<nat>, a: seq<T>, b: seq<T>)
  {
    && |at| == |a|
    && (forall i | 0 <= i < |at| :: at[i] < |b| && b[at[i]] == a[i])
    && (forall i, j | 0 <= i < j < |at| :: at[i] < at[j])
  }

  ghost predicate Subsequence<T>(a: seq<T>, b: seq<T>)
  {
    exists at :: Picks(at, a, b)
  }

  lemma SubsequenceGrows<T>(a: seq<T>, b: seq<T>, more: seq<T>)
    requires Subsequence(a, b)
    ensures Subsequence(a, b + more)
  {
    var at: seq<nat> :| Picks(at, a, b);
    assert Picks(at, a, b + more);
  }

  lemma SubsequenceSnoc<T>(a: seq<T>, b: seq<T>, x: T)
    requires Subsequence(a, b)
    ensures Subsequence(a + [x], b + [x])
  {
    var at: seq<nat> :| Picks(at, a, b);
    assert Picks(at + [|b|], a + [x], b + [x]);
  }

  // ── the invariant ──

  /** How many accepted frames have left the queue, by being popped or evicted. */
  function Gone(c: Conn): int
  {
    |c.accepted| - |c.box.items|
  }

  ghost predicate Counts(c: Conn)
  {
    && BoxOk(c.box)
    && |c.accepted| == |c.popped| + c.evicted + |c.box.items|
    && c.drops == c.evicted + c.refused
  }

  /** What is queued is the tail of what was accepted; what was popped is picked, in order, from the rest. */
  ghost predicate Fifo(c: Conn)
  {
    && 0 <= Gone(c)
    && c.box.items == c.accepted[Gone(c)..]
    && Subsequence(c.popped, c.accepted[..Gone(c)])
    && (c.evicted == 0 ==> c.popped == c.accepted[..Gone(c)])
  }

  /** The wire carries the first frames popped, all of them until a close is sent or the sink fails. */
  ghost predicate Sends(c: Conn)
  {
    && Sent(c.wire) <= c.popped
    && (!c.closeSent && !c.failed ==> Sent(c.wire) == c.popped)
    && (c.failed ==> c.stopped)
  }

  /** At most one close frame, and nothing after it. */
  ghost predicate CloseIsLast(c: Conn)
  {
    forall i | 0 <= i < |c.wire| && c.wire[i].CloseFrame? :: i == |c.wire| - 1 && c.closeSent
  }

  ghost predicate Inv(c: Conn)
  {
    Counts(c) && Fifo(c) && Sends(c) && CloseIsLast(c)
  }

  lemma SentSnoc(wire: seq<OutFrame>, x: OutFrame)
    ensures Sent(wire + [x]) == if x.Data? then Sent(wire) + [x.f] else Sent(wire)
  {
    assert (wire + [x])[..|wire|] == wire;
  }

  /** Accepting `f` after `k` evictions. */
  lemma AcceptKeepsFifo(c: Conn, c': Conn, f: Outbound, k: nat)
    requires Fifo(c) && k <= |c.box.items| && c'.popped == c.popped && c'.evicted == c.evicted + k
    requires c'.accepted == c.accepted + [f] && c'.box.items == c.box.items[k..] + [f]
    ensures Fifo(c')
  {
    var g := Gone(c);
    assert Gone(c') == g + k;
    assert c'.accepted[..g + k] == c.accepted[..g] + c.accepted[g..g + k];
    SubsequenceGrows(c.popped, c.accepted[..g], c.accepted[g..g + k]);
  }

  lemma PushAppends(b: Box, f: Outbound)
    ensures var (b', outcome, dropped) := Push(b, f);
      (outcome.Queued? || outcome.DroppedOldest? ==> dropped <= |b.items| && b'.items == b.items[dropped..] + [f])
  {
  }

  lemma PushKeepsFifo(c: Conn, f: Outbound)
    requires Fifo(c)
    ensures Fifo(Next(c, PushStep(f)))
  {
    var (b, outcome, dropped) := Push(c.box, f);
    if outcome.Queued? || outcome.DroppedOldest? {
      PushAppends(c.box, f);
      AcceptKeepsFifo(c, Next(c, PushStep(f)), f, dropped);
    } else {
      assert b.items == c.box.items;
    }
  }

  lemma PushKeepsCounts(c: Conn, f: Outbound)
    requires Counts(c)
    ensures Counts(Next(c, PushStep(f)))
  {
    PushKeepsOk(c.box, f);
    PushAppends(c.box, f);
  }

  lemma PushKeepsInv(c: Conn, f: Outbound)
    requires Inv(c)
    ensures Inv(Next(c, PushStep(f)))
  {
    PushKeepsCounts(c, f);
    PushKeepsFifo(c, f);
  }

  lemma PopKeepsFifo(c: Conn, c': Conn)
    requires Fifo(c) && c.box.items != [] && c'.accepted == c.accepted && c'.evicted == c.evicted
    requires c'.box.items == c.box.items[1..] && c'.popped == c.popped + [c.box.items[0]]
    ensures Fifo(c')
  {
    var g := Gone(c);
    assert c.accepted[..g + 1] == c.accepted[..g] + [c.box.items[0]];
    SubsequenceSnoc(c.popped, c.accepted[..g], c.box.items[0]);
  }

  lemma TakeFrameKeepsInv(c: Conn, ok: bool)
    requires Inv(c) && Enabled(c, TakeFrame(ok))
    ensures Inv(Next(c, TakeFrame(ok)))
  {
    PopKeepsOk(c.box);
    PopKeepsFifo(c, Next(c, TakeFrame(ok)));
    SentSnoc(c.wire, Data(c.box.items[0]));
  }

  /** The wire and the control queue do not enter the mailbox's books. */
  lemma SameMailbox(c: Conn, c': Conn)
    requires Counts(c) && Fifo(c)
    requires c'.box == c.box && c'.accepted == c.accepted && c'.popped == c.popped && c'.evicted == c.evicted
    requires c'.drops == c.drops && c'.refused == c.refused
    ensures Counts(c') && Fifo(c')
  {
  }

  /** A control frame carries no data. */
  lemma ControlKeepsSends(c: Conn, c': Conn, x: OutFrame)
    requires Sends(c) && !x.Data? && c'.wire in {c.wire, c.wire + [x]} && c'.popped == c.popped
    requires (c.closeSent ==> c'.closeSent) && (c.failed ==> c'.failed) && (c'.failed ==> c'.stopped)
    ensures Sends(c')
  {
    SentSnoc(c.wire, x);
  }

  lemma TakeControlKeepsInv(c: Conn, ok: bool)
    requires Inv(c) && Enabled(c, TakeControl(ok))
    ensures Inv(Next(c, TakeControl(ok)))
  {
    var c' := Next(c, TakeControl(ok));
    SameMailbox(c, c');
    ControlKeepsSends(c, c', if c.control[0].Ping? then PingFrame else CloseFrame(c.control[0].code));
  }

  lemma StepKeepsInv(c: Conn, step: Step)
    requires Inv(c) && Enabled(c, step)
    ensures Inv(Next(c, step))
  {
    match step
    case PushStep(f) => PushKeepsInv(c, f);
    case TakeFrame(ok) => TakeFrameKeepsInv(c, ok);
    case TakeControl(ok) => TakeControlKeepsInv(c, ok);
    case _ =>
  }

  ghost predicate Run(a: Conn, steps: seq<Step>, b: Conn)
    decreases |steps|
  {
    if steps == [] then a == b else Enabled(a, steps[0]) && Run(Next(a, steps[0]), steps[1..], b)
  }

  lemma {:induction false} RunKeepsInv(a: Conn, steps: seq<Step>, b: Conn)
    requires Inv(a) && Run(a, steps, b)
    ensures Inv(b)
    decreases |steps|
  {
    if steps != [] {
      StepKeepsInv(a, steps[0]);
      RunKeepsInv(Next(a, steps[0]), steps[1..], b);
    }
  }

  /**
   * Every history of one connection: bytes equal the charges and pass the mark only with a single frame queued; every
   * accepted frame is popped, evicted or queued; every frame refused by the policy or evicted is counted, while a push
   * to a closed mailbox and a frame popped after a close are not; the frames popped are a FIFO subsequence of those
   * accepted, all of them in order if none was evicted; the wire carries the first frames popped, all of them until a
   * close is sent or the sink fails; and at most one close frame is sent, with no data or ping after it (section 5.5.1
   * of RFC 6455).
   */
  lemma ConnectionSafe(hwm: nat, policy: Policy, steps: seq<Step>, c: Conn)
    requires Run(New(hwm, policy), steps, c)
    ensures c.box.bytes == Charges(c.box.items) && (c.box.bytes > c.box.hwm ==> |c.box.items| == 1)
    ensures |c.accepted| == |c.popped| + c.evicted + |c.box.items| && c.drops == c.evicted + c.refused
    ensures Subsequence(c.popped, c.accepted)
    ensures c.evicted == 0 ==> c.popped + c.box.items == c.accepted
    ensures Sent(c.wire) <= c.popped
    ensures !c.closeSent && !c.failed ==> Sent(c.wire) == c.popped
    ensures forall i | 0 <= i < |c.wire| - 1 :: !c.wire[i].CloseFrame?
  {
    assert Picks([], [], New(hwm, policy).accepted[..0]);
    RunKeepsInv(New(hwm, policy), steps, c);
    assert c.accepted == c.accepted[..Gone(c)] + c.accepted[Gone(c)..];
    SubsequenceGrows(c.popped, c.accepted[..Gone(c)], c.accepted[Gone(c)..]);
  }
}
