/** Wire framing: `[len u32][kind u8][flags u8][body]`, `len` counting kind, flags and body. */
module Frame {
  import opened Prelude
  import opened Wire

  const HEADER_LEN: nat := 6
  const MIN_FRAME_FLOOR: u32 := 64

  datatype FrameKind =
    | Hello | Challenge | Auth | Membership | Interest | InterestDigest
    | RelayRoom | RelayUser | RelayAll | RelaySocket | Ping

  function KindByte(k: FrameKind): byte
  {
    match k
    case Hello => 0x01
    case Challenge => 0x02
    case Auth => 0x03
    case Membership => 0x04
    case Interest => 0x05
    case InterestDigest => 0x06
    case RelayRoom => 0x07
    case RelayUser => 0x08
    case RelayAll => 0x09
    case RelaySocket => 0x0A
    case Ping => 0x0B
  }

  function FromByte(b: byte): Option<FrameKind>
  {
    match b
    case 0x01 => Some(Hello)
    case 0x02 => Some(Challenge)
    case 0x03 => Some(Auth)
    case 0x04 => Some(Membership)
    case 0x05 => Some(Interest)
    case 0x06 => Some(InterestDigest)
    case 0x07 => Some(RelayRoom)
    case 0x08 => Some(RelayUser)
    case 0x09 => Some(RelayAll)
    case 0x0A => Some(RelaySocket)
    case 0x0B => Some(Ping)
    case _ => None
  }

  datatype Frame = Frame(kind: FrameKind, flags: byte, body: seq<byte>)

  datatype FrameError =
    | Truncated
    | Malformed
    | Oversize(len: nat, max: nat)
    | UnknownKind(kind: byte)

  const KINDS: seq<FrameKind> := [Hello, Challenge, Auth, Membership, Interest, InterestDigest,
    RelayRoom, RelayUser, RelayAll, RelaySocket, Ping]

  /** Kinds are numbered from 1 in the protocol's order; every other byte is unknown. */
  lemma KindsNumbered(b: byte, k: FrameKind)
    ensures FromByte(b) == if 1 <= b <= |KINDS| then Some(KINDS[b - 1]) else None
    ensures FromByte(b) == Some(k) <==> KindByte(k) == b
  {
  }

  function Encode(f: Frame): (r: seq<byte>)
    ensures |r| == HEADER_LEN + |f.body|
  {
    Le(2 + |f.body|, 4) + [KindByte(f.kind), f.flags] + f.body
  }

  /** Validate a length prefix before anything is allocated for it. */
  function DecodeLen(len: nat, max: u32): Result<nat, FrameError>
  {
    if len < 2 then Err(Malformed)
    else if len > max then Err(Oversize(len, max))
    else Ok(len)
  }

  function Parse(buf: seq<byte>, max: u32): Result<Frame, FrameError>
  {
    if |buf| < 4 then Err(Truncated)
    else
      match DecodeLen(FromLe(buf[..4]), max)
      case Err(e) => Err(e)
      case Ok(len) =>
        if |buf| < 4 + len then Err(Truncated)
        else
          match FromByte(buf[4])
          case None => Err(UnknownKind(buf[4]))
          case Some(kind) => Ok(Frame(kind, buf[5], buf[HEADER_LEN..4 + len]))
  }

  lemma EncodedParts(f: Frame, tail: seq<byte>)
    requires 2 + |f.body| < 0x1_0000_0000
    ensures var buf := Encode(f) + tail;
      && FromLe(buf[..4]) == 2 + |f.body|
      && buf[4] == KindByte(f.kind) && buf[5] == f.flags
      && buf[HEADER_LEN..HEADER_LEN + |f.body|] == f.body
      && buf[HEADER_LEN + |f.body|..] == tail
  {
    PowValues();
    LeRoundTrip(2 + |f.body|, 4);
    var buf := Encode(f) + tail;
    assert buf[..4] == Le(2 + |f.body|, 4);
  }

  /** A frame parses back, whatever follows it, exactly when it fits the negotiated maximum. */
  lemma ParseEncodeIff(f: Frame, tail: seq<byte>, max: u32)
    requires 2 + |f.body| < 0x1_0000_0000
    ensures Parse(Encode(f) + tail, max) == Ok(f) <==> 2 + |f.body| <= max
    ensures 2 + |f.body| > max ==> Parse(Encode(f) + tail, max) == Err(Oversize(2 + |f.body|, max))
  {
    EncodedParts(f, tail);
  }

  /** What parses is the encoding of its result followed by the rest, and each failure has its own cause. */
  lemma ParseMeans(buf: seq<byte>, max: u32)
    ensures var len := if |buf| < 4 then 0 else FromLe(buf[..4]);
      match Parse(buf, max)
      case Ok(f) => 2 + |f.body| == len <= max && Encode(f) <= buf
      case Err(Malformed) => |buf| >= 4 && len < 2
      case Err(Oversize(l, m)) => l == len && m == max && len > max
      case Err(UnknownKind(b)) => |buf| >= 4 + len >= 6 && b == buf[4] && forall k: FrameKind :: KindByte(k) != b
      case Err(Truncated) => |buf| < 4 || (|buf| < 4 + len && 2 <= len <= max)
  {
    if Parse(buf, max).Ok? {
      var f, len := Parse(buf, max).value, FromLe(buf[..4]);
      LeOfFromLe(buf[..4]);
      KindsNumbered(buf[4], f.kind);
      assert buf[..4 + len] == buf[..4] + [buf[4], buf[5]] + buf[6..4 + len];
    } else if |buf| >= 6 {
      forall k: FrameKind ensures FromByte(buf[4]) == Some(k) <==> KindByte(k) == buf[4] {
        KindsNumbered(buf[4], k);
      }
    }
  }

  // ── the link reader ──

  datatype LinkError = Eof | TooLong(len: nat, max: nat) | Protocol

  datatype Raw = Raw(kind: byte, flags: byte, body: seq<byte>)

  function RawOf(f: Frame): Raw
  {
    Raw(KindByte(f.kind), f.flags, f.body)
  }

  /** Read one frame off the stream; the rest of the stream is returned with it. */
  function ReadRaw(stream: seq<byte>, max: u32): (r: Result<(Raw, seq<byte>), LinkError>)
    ensures r.Ok? ==> |r.value.1| < |stream|
  {
    if |stream| < 4 then Err(Eof)
    else
      match DecodeLen(FromLe(stream[..4]), max)
      case Err(Oversize(len, m)) => Err(TooLong(len, m))
      case Err(_) => Err(Protocol)
      case Ok(len) =>
        if |stream| < 4 + len then Err(Eof)
        else Ok((Raw(stream[4], stream[5], stream[HEADER_LEN..4 + len]), stream[4 + len..]))
  }

  /** Every frame the reader gets before the stream ends or is refused, and why it stopped. */
  function ReadStream(stream: seq<byte>, max: u32): (seq<Raw>, LinkError)
    decreases |stream|
  {
    match ReadRaw(stream, max)
    case Err(e) => ([], e)
    case Ok((raw, rest)) =>
      var (raws, e) := ReadStream(rest, max);
      ([raw] + raws, e)
  }

  /** The reader's loop. */
  method ReadFrames(stream: seq<byte>, max: u32) returns (raws: seq<Raw>, e: LinkError)
    ensures (raws, e) == ReadStream(stream, max)
  {
    raws := [];
    var rest := stream;
    assert [] + ReadStream(stream, max).0 == ReadStream(stream, max).0;
    while true
      invariant ReadStream(stream, max) == (raws + ReadStream(rest, max).0, ReadStream(rest, max).1)
      decreases |rest|
    {
      var r := ReadRaw(rest, max);
      if r.Err? {
        assert raws + [] == raws;
        return raws, r.error;
      }
      assert raws + ([r.value.0] + ReadStream(r.value.1, max).0) == (raws + [r.value.0]) + ReadStream(r.value.1, max).0;
      raws, rest := raws + [r.value.0], r.value.1;
    }
  }

  function Bytes(fs: seq<Frame>): seq<byte>
  {
    if fs == [] then [] else Encode(fs[0]) + Bytes(fs[1..])
  }

  ghost predicate AllWithin(fs: seq<Frame>, max: u32)
  {
    forall i | 0 <= i < |fs| :: 2 + |fs[i].body| <= max
  }

  lemma ReadEncoded(f: Frame, rest: seq<byte>, max: u32)
    requires 2 + |f.body| <= max
    ensures ReadRaw(Encode(f) + rest, max) == Ok((RawOf(f), rest))
  {
    EncodedParts(f, rest);
  }

  /** The reader recovers exactly the frames that were written, in order, and then sees the end of the stream. */
  lemma {:induction false} ReadStreamBytes(fs: seq<Frame>, max: u32)
    requires AllWithin(fs, max)
    ensures ReadStream(Bytes(fs), max) == (Map(RawOf, fs), Eof)
  {
    if fs != [] {
      ReadEncoded(fs[0], Bytes(fs[1..]), max);
      ReadStreamBytes(fs[1..], max);
    }
  }

  /** A frame beyond the maximum is refused by its length; what came before it is read. */
  lemma {:induction false} ReadStreamOversize(fs: seq<Frame>, k: nat, max: u32)
    requires k < |fs| && AllWithin(fs[..k], max) && max < 2 + |fs[k].body| < 0x1_0000_0000
    ensures ReadStream(Bytes(fs), max) == (Map(RawOf, fs[..k]), TooLong(2 + |fs[k].body|, max))
    decreases k
  {
    if k == 0 {
      EncodedParts(fs[0], Bytes(fs[1..]));
    } else {
      assert fs[..k][0] == fs[0] && fs[1..][..k - 1] == fs[..k][1..];
      ReadEncoded(fs[0], Bytes(fs[1..]), max);
      ReadStreamOversize(fs[1..], k - 1, max);
    }
  }
}
