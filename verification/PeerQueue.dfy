/**
 * The byte-bounded outbound queue of one peer link and the coalescing writer that drains it
 * (crates/mesh/src/queue.rs, crates/mesh/src/link.rs).
 */
module PeerQueue {
  import opened Prelude
  import opened Wire

  datatype PushOutcome = Enqueued | Dropped

  datatype Queue = Queue(items: seq<seq<byte>>, bytes: nat, hwm: nat, drops: nat, closed: bool)

  function Lengths(items: seq<seq<byte>>): nat
  {
    if items == [] then 0 else |items[0]| + Lengths(items[1..])
  }

  /** The byte count is exact and never above the high-water mark. */
  ghost predicate QueueOk(q: Queue)
  {
    q.bytes == Lengths(q.items) <= q.hwm
  }

  function Push(q: Queue, frame: seq<byte>): (Queue, PushOutcome)
  {
    if q.bytes + |frame| > q.hwm then (q.(drops := q.drops + 1), Dropped)
    else (q.(items := q.items + [frame], bytes := q.bytes + |frame|), Enqueued)
  }

  /** How many frames one drain takes into a buffer already holding `len` bytes. */
  function Taken(items: seq<seq<byte>>, len: nat, cap: nat): (n: nat)
    ensures n <= |items|
    decreases |items|
  {
    if items == [] || (len > 0 && len + |items[0]| > cap) then 0
    else 1 + Taken(items[1..], len + |items[0]|, cap)
  }

  function Drain(q: Queue, out: seq<byte>, cap: nat): (Queue, seq<byte>, nat)
  {
    var n := Taken(q.items, |out|, cap);
    (q.(items := q.items[n..], bytes := Lengths(q.items[n..])),
     out + Concat(q.items[..n]), n)
  }

  lemma {:induction false} LengthsAppend(a: seq<seq<byte>>, b: seq<seq<byte>>)
    ensures Lengths(a + b) == Lengths(a) + Lengths(b)
  {
    if a == [] {
      assert a + b == b;
    } else {
      LengthsAppend(a[1..], b);
      assert (a + b)[1..] == a[1..] + b;
    }
  }

  lemma {:induction false} ConcatLength(items: seq<seq<byte>>)
    ensures |Concat(items)| == Lengths(items)
  {
    if items != [] {
      ConcatLength(items[1..]);
    }
  }

  lemma PushKeepsOk(q: Queue, frame: seq<byte>)
    requires QueueOk(q)
    ensures QueueOk(Push(q, frame).0)
  {
    LengthsAppend(q.items, [frame]);
    assert Lengths([frame]) == |frame| + Lengths([frame][1..]);
  }

  lemma DrainKeepsOk(q: Queue, out: seq<byte>, cap: nat)
    requires QueueOk(q)
    ensures QueueOk(Drain(q, out, cap).0)
  {
    var n := Taken(q.items, |out|, cap);
    assert q.items == q.items[..n] + q.items[n..];
    LengthsAppend(q.items[..n], q.items[n..]);
  }

  /** Draining is taking the first frame, if it fits, and draining on. */
  lemma DrainFirst(q: Queue, out: seq<byte>, cap: nat)
    requires q.items != [] && !(|out| > 0 && |out| + |q.items[0]| > cap)
    ensures var rest := q.(items := q.items[1..], bytes := Lengths(q.items[1..]));
      var (q', o, n) := Drain(rest, out + q.items[0], cap);
      Drain(q, out, cap) == (q', o, n + 1)
  {
    var n := Taken(q.items, |out|, cap);
    assert q.items[1..][n - 1..] == q.items[n..];
    assert q.items[..n][1..] == q.items[1..][..n - 1];
    assert out + (q.items[0] + Concat(q.items[1..][..n - 1])) == (out + q.items[0]) + Concat(q.items[1..][..n - 1]);
  }

  /** The batch stays within the cap unless it is a single frame, and it stops only where the next would not fit. */
  lemma {:induction false} TakenFits(items: seq<seq<byte>>, len: nat, cap: nat)
    requires forall i | 0 <= i < |items| :: items[i] != []
    ensures var n := Taken(items, len, cap);
      && (n > 0 ==> len + Lengths(items[..n]) <= cap || (len == 0 && n == 1))
      && (n < |items| ==> len + Lengths(items[..n]) > 0 && len + Lengths(items[..n]) + |items[n]| > cap)
      && (n == 0 ==> items == [] || len > 0)
    decreases |items|
  {
    var n := Taken(items, len, cap);
    if n > 0 {
      var rest := items[1..];
      TakenFits(rest, len + |items[0]|, cap);
      assert items[..n][1..] == rest[..n - 1];
      assert Lengths(items[..n]) == |items[0]| + Lengths(rest[..n - 1]);
    }
  }

  /** A batch drained into an empty buffer is not empty, and within the cap unless it is one frame. */
  lemma BatchFits(items: seq<seq<byte>>, cap: nat)
    requires items != [] && forall i | 0 <= i < |items| :: items[i] != []
    ensures var n := Taken(items, 0, cap);
      n > 0 && var batch := Concat(items[..n]); batch != [] && (|batch| <= cap || batch == items[0])
  {
    var n := Taken(items, 0, cap);
    TakenFits(items, 0, cap);
    ConcatLength(items[..n]);
    assert Lengths(items[..n]) == |items[0]| + Lengths(items[..n][1..]);
    if n == 1 {
      assert Concat(items[..n]) == items[0] + Concat(items[..n][1..]);
    }
  }

  // ── every history of pushes and drains ──

  datatype Event = Enqueue(frame: seq<byte>) | Wakeup(cap: nat)

  /** The queue, the bytes and frames written so far, the frames accepted so far, and how many were offered. */
  datatype Pipe = Pipe(queue: Queue, wire: seq<byte>, written: nat, accepted: seq<seq<byte>>, offered: nat)

  function NewPipe(hwm: nat): Pipe
  {
    Pipe(Queue([], 0, hwm, 0, false), [], 0, [], 0)
  }

  function Step(p: Pipe, e: Event): Pipe
  {
    match e
    case Enqueue(frame) =>
      var (q, outcome) := Push(p.queue, frame);
      p.(queue := q,
         accepted := if outcome == Enqueued then p.accepted + [frame] else p.accepted,
         offered := p.offered + 1)
    case Wakeup(cap) =>
      var (q, batch, n) := Drain(p.queue, [], cap);
      p.(queue := q, wire := p.wire + batch, written := p.written + n)
  }

  function Run(p: Pipe, events: seq<Event>): Pipe
    decreases |events|
  {
    if events == [] then p else Run(Step(p, events[0]), events[1..])
  }

  /** What was written is the first accepted frames, whole; what is queued is the rest. */
  ghost predicate PipeOk(p: Pipe)
  {
    && QueueOk(p.queue)
    && p.written <= |p.accepted| && p.offered == |p.accepted| + p.queue.drops
    && p.queue.items == p.accepted[p.written..]
    && p.wire == Concat(p.accepted[..p.written])
  }

  lemma EnqueueKeepsOk(p: Pipe, frame: seq<byte>)
    requires PipeOk(p)
    ensures PipeOk(Step(p, Enqueue(frame)))
  {
    var p' := Step(p, Enqueue(frame));
    PushKeepsOk(p.queue, frame);
    assert p'.accepted[..p.written] == p.accepted[..p.written];
  }

  lemma WakeupKeepsOk(p: Pipe, cap: nat)
    requires PipeOk(p)
    ensures PipeOk(Step(p, Wakeup(cap)))
  {
    DrainKeepsOk(p.queue, [], cap);
    var n := Taken(p.queue.items, 0, cap);
    ConcatAppend(p.accepted[..p.written], p.queue.items[..n]);
    assert p.accepted[..p.written + n] == p.accepted[..p.written] + p.queue.items[..n];
  }

  /** In every history: exact accounting, FIFO order, nothing lost, repeated or torn. */
  lemma {:induction false} RunKeepsOk(p: Pipe, events: seq<Event>)
    requires PipeOk(p)
    ensures PipeOk(Run(p, events))
    decreases |events|
  {
    if events != [] {
      match events[0] {
        case Enqueue(frame) => EnqueueKeepsOk(p, frame);
        case Wakeup(cap) => WakeupKeepsOk(p, cap);
      }
      RunKeepsOk(Step(p, events[0]), events[1..]);
    }
  }
}

/** Coalescing is invisible to the reader at the other end of the link. */
module Coalescing {
  import opened Prelude
  import opened Wire
  import opened Frame
  import opened PeerQueue

  lemma {:induction false} BytesOfPrefix(fs: seq<Frame>, k: nat)
    requires k <= |fs|
    ensures Concat(Map(Encode, fs)[..k]) == Bytes(fs[..k])
    decreases k
  {
    if k > 0 {
      BytesOfPrefix(fs[1..], k - 1);
      assert Map(Encode, fs)[..k] == [Encode(fs[0])] + Map(Encode, fs[1..])[..k - 1];
      assert fs[..k] == [fs[0]] + fs[1..][..k - 1];
    }
  }

  /**
   * For any pushes and drains with any caps, if the frames accepted were `fs`, the reader parses from the
   * batches written so far exactly the frames written, in order and with no error: all of `fs` once the
   * queue is empty. The queued bytes are exact and never pass the high-water mark, and every frame shed is counted.
   */
  lemma CoalescingIsInvisible(hwm: nat, events: seq<Event>, fs: seq<Frame>, max: u32)
    requires AllWithin(fs, max)
    requires Run(NewPipe(hwm), events).accepted == Map(Encode, fs)
    ensures var p := Run(NewPipe(hwm), events);
      && p.written <= |fs|
      && ReadStream(p.wire, max) == (Map(RawOf, fs[..p.written]), Eof)
      && (p.queue.items == [] <==> p.written == |fs|)
      && p.queue.bytes == Lengths(p.queue.items) <= hwm
      && p.offered == |fs| + p.queue.drops
  {
    RunKeepsHwm(NewPipe(hwm), events);
    assert PipeOk(NewPipe(hwm));
    RunKeepsOk(NewPipe(hwm), events);
    var k := Run(NewPipe(hwm), events).written;
    BytesOfPrefix(fs, k);
    ReadStreamBytes(fs[..k], max);
  }

  lemma {:induction false} RunKeepsHwm(p: Pipe, events: seq<Event>)
    ensures Run(p, events).queue.hwm == p.queue.hwm
    decreases |events|
  {
    if events != [] {
      RunKeepsHwm(Step(p, events[0]), events[1..]);
    }
  }
}

/** The queue as the code keeps it, and the writer's drain loop. */
module PeerLink {
  import opened Prelude
  import opened Wire
  import Q = PeerQueue

  class PeerQueue {
    var inner: seq<seq<byte>>
    var queuedBytes: nat
    const hwmBytes: nat
    var drops: nat
    var closed: bool

    ghost function Value(): Q.Queue
      reads this
    {
      Q.Queue(inner, queuedBytes, hwmBytes, drops, closed)
    }

    ghost predicate Valid()
      reads this
    {
      Q.QueueOk(Value())
    }

    constructor (hwm: nat)
      ensures Valid() && Value() == Q.Queue([], 0, hwm, 0, false)
    {
      inner, queuedBytes, hwmBytes, drops, closed := [], 0, hwm, 0, false;
    }

    method Push(frame: seq<byte>) returns (outcome: Q.PushOutcome)
      requires Valid()
      modifies this
      ensures Valid() && (Value(), outcome) == Q.Push(old(Value()), frame)
    {
      Q.PushKeepsOk(Value(), frame);
      if queuedBytes + |frame| > hwmBytes {
        drops := drops + 1;
        return Q.Dropped;
      }
      queuedBytes := queuedBytes + |frame|;
      inner := inner + [frame];
      return Q.Enqueued;
    }

    /** Append whole frames to `out`, oldest first, until the queue empties or the next would pass `cap`. */
    method DrainCoalesced(out: seq<byte>, cap: nat) returns (out': seq<byte>, drained: nat)
      requires Valid()
      modifies this
      ensures Valid() && (Value(), out', drained) == Q.Drain(old(Value()), out, cap)
    {
      out', drained := out, 0;
      while inner != [] && !(|out'| > 0 && |out'| + |inner[0]| > cap)
        invariant Valid()
        invariant var (q, o, n) := Q.Drain(Value(), out', cap); (q, o, drained + n) == Q.Drain(old(Value()), out, cap)
        decreases |inner|
      {
        Q.DrainFirst(Value(), out', cap);
        var frame := inner[0];
        inner := inner[1..];
        queuedBytes := queuedBytes - |frame|;
        out' := out' + frame;
        drained := drained + 1;
      }
      assert inner[0..] == inner && out' + Concat(inner[..0]) == out';
    }

    method Close()
      requires Valid()
      modifies this
      ensures Valid() && Value() == old(Value()).(closed := true)
    {
      closed := true;
    }
  }

  /** Drain to empty, one write per batch: the writes concatenate to the queued frames. */
  method DrainToEmpty(queue: PeerQueue, cap: nat) returns (writes: seq<seq<byte>>)
    requires queue.Valid() && forall i | 0 <= i < |queue.inner| :: queue.inner[i] != []
    modifies queue
    ensures queue.Valid() && queue.inner == [] && queue.queuedBytes == 0
    ensures Concat(writes) == Concat(old(queue.inner))
    ensures forall w | w in writes :: w != [] && (|w| <= cap || w in old(queue.inner))
  {
    writes := [];
    ghost var all := queue.inner;
    while queue.inner != []
      invariant queue.Valid() && Concat(writes) + Concat(queue.inner) == Concat(all)
      invariant forall x | x in queue.inner :: x in all && x != []
      invariant forall w | w in writes :: w != [] && (|w| <= cap || w in all)
      decreases |queue.inner|
    {
      ghost var left := queue.inner;
      assert forall i | 0 <= i < |left| :: left[i] in left;
      Q.BatchFits(left, cap);
      var scratch, n := queue.DrainCoalesced([], cap);
      assert scratch == Concat(left[..n]);
      MoveBatch(writes, left, n);
      writes := writes + [scratch];
    }
  }

  /** Moving the first `n` frames into one write leaves the byte stream unchanged. */
  lemma MoveBatch(writes: seq<seq<byte>>, items: seq<seq<byte>>, n: nat)
    requires n <= |items|
    ensures Concat(writes + [Concat(items[..n])]) + Concat(items[n..]) == Concat(writes) + Concat(items)
  {
    assert items == items[..n] + items[n..];
    ConcatAppend(items[..n], items[n..]);
    ConcatSnoc(writes, Concat(items[..n]));
  }
}
