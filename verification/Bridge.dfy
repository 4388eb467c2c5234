/** The flat batch encoding that carries engine events to JavaScript (crates/node/src/bridge.rs). */
module BridgeCodec {
  import opened Prelude
  import opened Wire

  const HEADER: nat := 4
  const PER_EVENT_OVERHEAD: nat := 13
  const KIND_TEXT: byte := 0
  const KIND_BINARY: byte := 1
  const KIND_OPEN: byte := 2
  const KIND_CLOSE: byte := 3
  const KIND_AUTHORIZE: byte := 4

  datatype Event =
    | Message(id: u64, payload: seq<byte>, isBinary: bool)
    | Opened(id: u64, authRequest: Option<u64>)
    | Closed(id: u64, code: u16, reason: seq<byte>)
    | Authorize(request: u64, clientIp: seq<byte>, url: seq<byte>, headers: seq<(seq<byte>, seq<byte>)>)

  // ── sizes ──

  function LpLen(n: nat): nat
  {
    4 + n
  }

  function HeadersLen(hs: seq<(seq<byte>, seq<byte>)>): nat
  {
    if hs == [] then 0 else LpLen(|hs[0].0|) + LpLen(|hs[0].1|) + HeadersLen(hs[1..])
  }

  function PayloadLen(e: Event): nat
  {
    match e
    case Message(_, payload, _) => |payload|
    case Opened(_, auth) => if auth.Some? then 8 else 0
    case Closed(_, _, reason) => 2 + |reason|
    case Authorize(_, ip, url, hs) => LpLen(|ip|) + LpLen(|url|) + 4 + HeadersLen(hs)
  }

  function EventsLen(batch: seq<Event>): nat
  {
    if batch == [] then 0 else PER_EVENT_OVERHEAD + PayloadLen(batch[0]) + EventsLen(batch[1..])
  }

  function EncodedLen(batch: seq<Event>): nat
  {
    HEADER + EventsLen(batch)
  }

  // ── encoding ──

  function PutLp(b: seq<byte>): seq<byte>
  {
    Le(|b|, 4) + b
  }

  function PutHeader(h: (seq<byte>, seq<byte>)): seq<byte>
  {
    PutLp(h.0) + PutLp(h.1)
  }

  function Payload(e: Event): seq<byte>
  {
    match e
    case Message(_, payload, _) => payload
    case Opened(_, auth) => if auth.Some? then Le(auth.value, 8) else []
    case Closed(_, code, reason) => Le(code, 2) + reason
    case Authorize(_, ip, url, hs) => PutLp(ip) + (PutLp(url) + (Le(|hs|, 4) + PutAll(PutHeader, hs)))
  }

  function Kind(e: Event): byte
  {
    match e
    case Message(_, _, isBinary) => if isBinary then KIND_BINARY else KIND_TEXT
    case Opened(_, _) => KIND_OPEN
    case Closed(_, _, _) => KIND_CLOSE
    case Authorize(_, _, _, _) => KIND_AUTHORIZE
  }

  /** The kind byte: 0 text, 1 binary, 2 opened, 3 closed, 4 authorize. */
  lemma KindsOnWire(e: Event)
    ensures e.Message? ==> Kind(e) == if e.isBinary then 1 else 0
    ensures !e.Message? ==> Kind(e) == if e.Opened? then 2 else if e.Closed? then 3 else 4
  {
  }

  /** The id slot carries the connection, or the request when there is no connection yet. */
  function Slot(e: Event): u64
  {
    if e.Authorize? then e.request else e.id
  }

  function PutEvent(e: Event): seq<byte>
  {
    Le(Slot(e), 8) + ([Kind(e)] + (Le(PayloadLen(e), 4) + Payload(e)))
  }

  function EncodeBatch(batch: seq<Event>): seq<byte>
  {
    Le(|batch|, 4) + PutAll(PutEvent, batch)
  }

  // ── decoding; None stands for the panic on a corrupt buffer ──

  function GetLp(buf: seq<byte>): Option<(seq<byte>, seq<byte>)>
  {
    match GetLe(buf, 4)
    case None => None
    case Some((n, rest)) => if |rest| < n then None else Some((rest[..n], rest[n..]))
  }

  function GetHeader(buf: seq<byte>): Option<((seq<byte>, seq<byte>), seq<byte>)>
  {
    match GetLp(buf)
    case None => None
    case Some((k, r1)) =>
      match GetLp(r1)
      case None => None
      case Some((v, r2)) => Some(((k, v), r2))
  }

  function ParseAuthorize(request: u64, payload: seq<byte>): Option<Event>
  {
    match GetLp(payload)
    case None => None
    case Some((ip, r1)) =>
      match GetLp(r1)
      case None => None
      case Some((url, r2)) =>
        match GetLe(r2, 4)
        case None => None
        case Some((n, r3)) =>
          match GetAll(GetHeader, n, r3)
          case None => None
          case Some((hs, _)) => Some(Authorize(request, ip, url, hs))
  }

  function U64Of(b: seq<byte>): u64
    requires |b| == 8
  {
    FromLeBound(b);
    PowValues();
    FromLe(b)
  }

  function U16Of(b: seq<byte>): u16
    requires |b| == 2
  {
    FromLeBound(b);
    PowValues();
    FromLe(b)
  }

  function ParsePayload(slot: u64, kind: byte, payload: seq<byte>): Option<Event>
  {
    if kind == KIND_TEXT || kind == KIND_BINARY then Some(Message(slot, payload, kind == KIND_BINARY))
    else if kind == KIND_OPEN then Some(Opened(slot, if |payload| == 8 then Some(U64Of(payload)) else None))
    else if kind == KIND_CLOSE then
      if |payload| < 2 then None else Some(Closed(slot, U16Of(payload[..2]), payload[2..]))
    else if kind == KIND_AUTHORIZE then ParseAuthorize(slot, payload)
    else None
  }

  function GetEvent(buf: seq<byte>): Option<(Event, seq<byte>)>
  {
    match GetU64(buf)
    case None => None
    case Some((slot, r1)) =>
      if r1 == [] then None
      else
        match GetLp(r1[1..])
        case None => None
        case Some((payload, rest)) =>
          match ParsePayload(slot, r1[0], payload)
          case None => None
          case Some(e) => Some((e, rest))
  }

  function Decode(buf: seq<byte>): Option<seq<Event>>
  {
    if |buf| < HEADER then Some([])
    else
      match GetAll(GetEvent, FromLe(buf[..4]), buf[4..])
      case None => None
      case Some((events, _)) => Some(events)
  }

  // ── round trip ──

  lemma {:induction false} HeadersLenExact(hs: seq<(seq<byte>, seq<byte>)>)
    ensures |PutAll(PutHeader, hs)| == HeadersLen(hs)
  {
    if hs != [] {
      HeadersLenExact(hs[1..]);
    }
  }

  lemma PayloadLenExact(e: Event)
    ensures |Payload(e)| == PayloadLen(e)
  {
    if e.Authorize? {
      HeadersLenExact(e.headers);
    }
  }

  /** The flush buffer is allocated once, at exactly this size. */
  lemma {:induction false} EncodedLenExact(batch: seq<Event>)
    ensures |PutAll(PutEvent, batch)| == EventsLen(batch)
    ensures |EncodeBatch(batch)| == EncodedLen(batch)
  {
    if batch != [] {
      PayloadLenExact(batch[0]);
      EncodedLenExact(batch[1..]);
    }
  }

  /** Lengths fit the 32-bit prefixes. */
  predicate Fits(e: Event)
  {
    PayloadLen(e) < 0x1_0000_0000
  }

  lemma GetLpPut(b: seq<byte>, rest: seq<byte>)
    requires |b| < 0x1_0000_0000
    ensures GetLp(PutLp(b) + rest) == Some((b, rest))
  {
    assert PutLp(b) + rest == Le(|b|, 4) + (b + rest);
    Get32(|b|, b + rest);
    assert (b + rest)[..|b|] == b && (b + rest)[|b|..] == rest;
  }

  lemma GetHeaderPut(h: (seq<byte>, seq<byte>), rest: seq<byte>)
    requires |h.0| < 0x1_0000_0000 && |h.1| < 0x1_0000_0000
    ensures GetHeader(PutHeader(h) + rest) == Some((h, rest))
  {
    assert PutHeader(h) + rest == PutLp(h.0) + (PutLp(h.1) + rest);
    GetLpPut(h.0, PutLp(h.1) + rest);
    GetLpPut(h.1, rest);
  }

  lemma {:induction false} HeadersFit(hs: seq<(seq<byte>, seq<byte>)>)
    ensures |hs| <= HeadersLen(hs)
    ensures forall h | h in hs :: |h.0| <= HeadersLen(hs) && |h.1| <= HeadersLen(hs)
  {
    if hs != [] {
      HeadersFit(hs[1..]);
    }
  }

  lemma ParseAuthorizePayload(e: Event)
    requires e.Authorize? && Fits(e)
    ensures ParseAuthorize(e.request, Payload(e)) == Some(e)
  {
    HeadersFit(e.headers);
    var r3 := PutAll(PutHeader, e.headers);
    var r2 := Le(|e.headers|, 4) + r3;
    GetLpPut(e.clientIp, PutLp(e.url) + r2);
    GetLpPut(e.url, r2);
    Get32(|e.headers|, r3);
    forall h | h in e.headers ensures Inverse(PutHeader, GetHeader, h) {
      forall r ensures GetHeader(PutHeader(h) + r) == Some((h, r)) {
        GetHeaderPut(h, r);
      }
    }
    GetAllPutAll(PutHeader, GetHeader, e.headers, []);
    assert r3 + [] == r3;
  }

  lemma ParseOwnPayload(e: Event)
    requires Fits(e)
    ensures ParsePayload(Slot(e), Kind(e), Payload(e)) == Some(e)
  {
    PowValues();
    match e
    case Message(_, _, _) =>
    case Opened(_, auth) =>
      if auth.Some? {
        LeRoundTrip(auth.value, 8);
      }
    case Closed(_, code, reason) =>
      LeRoundTrip(code, 2);
      assert Payload(e)[..2] == Le(code, 2) && Payload(e)[2..] == reason;
    case Authorize(_, _, _, _) => ParseAuthorizePayload(e);
  }

  lemma GetEventPut(e: Event, tail: seq<byte>)
    requires Fits(e)
    ensures GetEvent(PutEvent(e) + tail) == Some((e, tail))
  {
    PayloadLenExact(e);
    var lp := PutLp(Payload(e)) + tail;
    assert PutEvent(e) + tail == Le(Slot(e), 8) + ([Kind(e)] + lp);
    Get64(Slot(e), [Kind(e)] + lp);
    assert ([Kind(e)] + lp)[1..] == lp;
    GetLpPut(Payload(e), tail);
    ParseOwnPayload(e);
  }

  /** Decoding a flush buffer returns its batch exactly. */
  lemma DecodeEncode(batch: seq<Event>)
    requires |batch| < 0x1_0000_0000 && forall e | e in batch :: Fits(e)
    ensures Decode(EncodeBatch(batch)) == Some(batch)
  {
    var buf := EncodeBatch(batch);
    PowValues();
    LeRoundTrip(|batch|, 4);
    assert buf[..4] == Le(|batch|, 4) && buf[4..] == PutAll(PutEvent, batch);
    forall e | e in batch ensures Inverse(PutEvent, GetEvent, e) {
      forall r ensures GetEvent(PutEvent(e) + r) == Some((e, r)) {
        GetEventPut(e, r);
      }
    }
    GetAllPutAll(PutEvent, GetEvent, batch, []);
    assert PutAll(PutEvent, batch) + [] == PutAll(PutEvent, batch);
  }

  /** The encoder's loop. */
  method EncodeInto(batch: seq<Event>) returns (out: seq<byte>)
    ensures out == EncodeBatch(batch) && |out| == EncodedLen(batch)
  {
    out := AppendAll(Le(|batch|, 4), PutEvent, batch);
    EncodedLenExact(batch);
  }

  /** The cursor reader's loop. */
  method DecodeBuffer(buf: seq<byte>) returns (r: Option<seq<Event>>)
    ensures r == Decode(buf)
  {
    if |buf| < HEADER {
      return Some([]);
    }
    var events := ReadAll(GetEvent, FromLe(buf[..4]), buf[4..]);
    return if events.None? then None else Some(events.value.0);
  }
}

/** The drain loop: cut the event stream into flushes. */
module Bridge {
  import opened Prelude
  import opened Wire
  import opened BridgeCodec

  const BRIDGE_BATCH: nat := 256
  const LOW_LOAD_THRESHOLD: nat := 16

  /** The batches partition the events received so far, and each flush buffer encodes its batch. */
  ghost predicate Flushed(flushes: seq<seq<byte>>, batches: seq<seq<Event>>, events: seq<Event>)
  {
    && |flushes| == |batches| && Concat(batches) == events
    && forall i | 0 <= i < |batches| ::
         0 < |batches[i]| <= BRIDGE_BATCH && flushes[i] == EncodeBatch(batches[i]) &&
           |flushes[i]| == EncodedLen(batches[i])
  }

  method Flush(flushes: seq<seq<byte>>, ghost batches: seq<seq<Event>>, ghost events: seq<Event>, batch: seq<Event>)
    returns (flushes': seq<seq<byte>>, ghost batches': seq<seq<Event>>)
    requires Flushed(flushes, batches, events) && |batch| <= BRIDGE_BATCH
    ensures flushes' == if batch == [] then flushes else flushes + [EncodeBatch(batch)]
    ensures Flushed(flushes', batches', events + batch)
  {
    if batch == [] {
      assert events + batch == events;
      return flushes, batches;
    }
    var buf := EncodeInto(batch);
    ConcatSnoc(batches, batch);
    return flushes + [buf], batches + [batch];
  }

  /** Extend a batch with the next events, as long as there is room and `more` says so. */
  method Fill(events: seq<Event>, ghost start: nat, from: nat, taken: seq<Event>, more: nat -> bool, tick: nat)
    returns (batch: seq<Event>, pos: nat, tick': nat)
    requires start <= from <= |events| && taken == events[start..from] && 0 < |taken| <= BRIDGE_BATCH
    ensures from <= pos <= |events| && batch == events[start..pos] && |batch| <= BRIDGE_BATCH
  {
    batch, pos, tick' := taken, from, tick;
    while |batch| < BRIDGE_BATCH && more(tick') && pos < |events|
      invariant from <= pos <= |events| && batch == events[start..pos] && |batch| <= BRIDGE_BATCH
      decreases |events| - pos
    {
      batch, pos, tick' := batch + [events[pos]], pos + 1, tick' + 1;
    }
  }

  /** What the consumer gets from all flushes, in order. */
  function Received(flushes: seq<seq<byte>>): Option<seq<Event>>
  {
    if flushes == [] then Some([])
    else
      match (Decode(flushes[0]), Received(flushes[1..]))
      case (Some(batch), Some(rest)) => Some(batch + rest)
      case _ => None
  }

  /**
   * `ready(k)` answers whether the k-th poll finds something at once, `quiet(k)` whether the k-th wait ends before
   * the flush timer, so every arrival and timer schedule is covered. After the last event the channel is closed.
   * The flushes encode consecutive, non-empty batches of at most 256 events, and the consumer decodes exactly the
   * events.
   */
  method DrainLoop(events: seq<Event>, ready: nat -> bool, quiet: nat -> bool) returns (flushes: seq<seq<byte>>)
    ensures exists batches :: Flushed(flushes, batches, events)
    ensures (forall e | e in events :: Fits(e)) ==> Received(flushes) == Some(events)
  {
    flushes := [];
    ghost var batches: seq<seq<Event>> := [];
    var pos, tick := 0, 0;
    while pos < |events|
      invariant pos <= |events| && Flushed(flushes, batches, events[..pos])
    {
      ghost var from := pos;
      var batch: seq<Event>;
      // Greedily take whatever is already queued behind the first event.
      batch, pos, tick := Fill(events, from, pos + 1, [events[pos]], ready, tick);
      // A poll that finds the channel closed leads straight to the flush; so does a small batch on an empty channel.
      var closed := |batch| < BRIDGE_BATCH && ready(tick) && pos == |events|;
      if !closed && |batch| >= LOW_LOAD_THRESHOLD {
        batch, pos, tick := Fill(events, from, pos, batch, quiet, tick + 1);
      }
      assert events[..from] + batch == events[..pos];
      flushes, batches := Flush(flushes, batches, events[..from], batch);
      tick := tick + 1;
    }
    assert events[..pos] == events;
    FlushesDecode(flushes, batches, events);
  }

  lemma {:induction false} ReceivedBatches(flushes: seq<seq<byte>>, batches: seq<seq<Event>>)
    requires |flushes| == |batches|
    requires forall i | 0 <= i < |batches| :: Decode(flushes[i]) == Some(batches[i])
    ensures Received(flushes) == Some(Concat(batches))
  {
    if flushes != [] {
      ReceivedBatches(flushes[1..], batches[1..]);
    }
  }

  lemma FlushesDecode(flushes: seq<seq<byte>>, batches: seq<seq<Event>>, events: seq<Event>)
    requires Flushed(flushes, batches, events)
    ensures (forall e | e in events :: Fits(e)) ==> Received(flushes) == Some(events)
  {
    if forall e | e in events :: Fits(e) {
      forall i | 0 <= i < |flushes| ensures Decode(flushes[i]) == Some(batches[i]) {
        PartOfConcat(batches, i);
        DecodeEncode(batches[i]);
      }
      ReceivedBatches(flushes, batches);
    }
  }

  lemma {:induction false} PartOfConcat<T>(parts: seq<seq<T>>, i: nat)
    requires i < |parts|
    ensures forall x | x in parts[i] :: x in Concat(parts)
  {
    if i > 0 {
      PartOfConcat(parts[1..], i - 1);
      assert parts[1..][i - 1] == parts[i];
    }
  }
}
