/**
 * The mesh handshake as a machine that consumes and produces frames (crates/mesh/src/handshake.rs).
 * The MAC is idealised as a symbolic tag, equal to another exactly when key and input are.
 */
module Handshake {
  import opened Prelude
  import opened Wire
  import F = Frame
  import H = Hello

  const INTEREST_ROUTING: bv32 := 1
  const RELAY: bv32 := 2

  datatype Role = Initiator | Responder

  datatype Config = Config(
    version: u16,
    nodeId: u16,
    incarnation: u64,
    clusterName: Name,
    secret: seq<byte>,
    maxFrame: u32,
    features: bv32)

  datatype Negotiated = Negotiated(
    version: u16,
    features: bv32,
    maxFrame: u32,
    role: Role,
    peerNodeId: u16,
    peerIncarnation: u64)

  datatype RefuseReason =
    | ProtocolViolation
    | NotMeshPeer
    | MalformedHello(error: H.HelloError)
    | ClusterMismatch
    | IncompatibleVersion(local: u16, peer: u16)
    | NodeIdCollision(id: u16)
    | MaxFrameTooSmall(negotiated: u32)
    | AuthFailed

  /**
   * A frame body: plain bytes, or the 32-byte MAC, under `secret`, of the signer's role label, the nonce and the
   * transcript.
   */
  datatype Body =
    | Plain(bytes: seq<byte>)
    | Mac(secret: seq<byte>, signer: Role, nonce: seq<byte>, transcript: seq<byte>)
  {
    function Length(): nat
    {
      if Plain? then |bytes| else 32
    }
  }

  datatype Message = Message(kind: F.FrameKind, body: Body)

  datatype Phase = AwaitingHello | AwaitingChallenge | AwaitingAuth | Done | Refused

  datatype Machine = Machine(
    role: Role,
    cfg: Config,
    phase: Phase,
    myHello: seq<byte>,
    peerHello: seq<byte>,
    nonce: seq<byte>,
    negotiated: Option<Negotiated>)

  datatype Outcome =
    | Continue(send: seq<Message>)
    | Established(send: seq<Message>, negotiated: Negotiated)
    | Refusal(reason: RefuseReason)

  function HelloOf(cfg: Config, salt: H.Bytes32): H.Hello
  {
    H.Hello(cfg.version, cfg.nodeId, cfg.incarnation, cfg.maxFrame, cfg.features, salt, cfg.clusterName)
  }

  /** A machine that has sent its opening HELLO. */
  function Start(role: Role, cfg: Config, salt: H.Bytes32): (Machine, Message)
  {
    var raw := H.Encode(HelloOf(cfg, salt));
    (Machine(role, cfg, AwaitingHello, raw, [], [], None), Message(F.Hello, Plain(raw)))
  }

  function Peer(role: Role): Role
  {
    if role == Initiator then Responder else Initiator
  }

  /** Both HELLO bodies as each side holds them, the initiator's first. */
  function Transcript(m: Machine): seq<byte>
  {
    if m.role == Initiator then m.myHello + m.peerHello else m.peerHello + m.myHello
  }

  function AuthMac(m: Machine, signer: Role): Body
  {
    Mac(m.cfg.secret, signer, m.nonce, Transcript(m))
  }

  function Min(a: nat, b: nat): nat
  {
    if a < b then a else b
  }

  function ValidateHello(role: Role, cfg: Config, body: seq<byte>): Result<Negotiated, RefuseReason>
  {
    match H.Decode(body)
    case Err(e) => Err(if e.BadMagic? then NotMeshPeer else MalformedHello(e))
    case Ok(h) =>
      if h.clusterName != cfg.clusterName then Err(ClusterMismatch)
      else if h.nodeId == cfg.nodeId then Err(NodeIdCollision(h.nodeId))
      else if h.version > cfg.version + 1 || cfg.version > h.version + 1 then
        Err(IncompatibleVersion(cfg.version, h.version))
      else
        var maxFrame := Min(cfg.maxFrame, h.maxFrame);
        if maxFrame < F.MIN_FRAME_FLOOR then Err(MaxFrameTooSmall(maxFrame))
        else
          var version := Min(cfg.version, h.version);
          Ok(Negotiated(version, cfg.features & h.features, maxFrame, role, h.nodeId, h.incarnation))
  }

  function Refuse(m: Machine, reason: RefuseReason): (Machine, Outcome)
  {
    (m.(phase := Refused), Refusal(reason))
  }

  /** Feed one frame to the machine; `nonce` is what a responder would pick. */
  function OnFrame(m: Machine, msg: Message, nonce: H.Bytes32): (Machine, Outcome)
  {
    match m.phase
    case AwaitingHello => OnHello(m, msg, nonce)
    case AwaitingChallenge => OnChallenge(m, msg)
    case AwaitingAuth => OnAuth(m, msg)
    case _ => Refuse(m, ProtocolViolation)
  }

  function OnHello(m: Machine, msg: Message, nonce: H.Bytes32): (Machine, Outcome)
  {
    if msg.kind != F.Hello || !msg.body.Plain? then Refuse(m, ProtocolViolation)
    else
      var seen := m.(peerHello := msg.body.bytes);
      match ValidateHello(m.role, m.cfg, msg.body.bytes)
      case Err(reason) => Refuse(seen, reason)
      case Ok(n) =>
        if m.role == Responder then
          (seen.(negotiated := Some(n), nonce := nonce, phase := AwaitingAuth),
           Continue([Message(F.Challenge, Plain(nonce))]))
        else (seen.(negotiated := Some(n), phase := AwaitingChallenge), Continue([]))
  }

  function OnChallenge(m: Machine, msg: Message): (Machine, Outcome)
  {
    if msg.kind != F.Challenge || msg.body.Length() != 32 || !msg.body.Plain? then Refuse(m, ProtocolViolation)
    else
      var m' := m.(nonce := msg.body.bytes, phase := AwaitingAuth);
      (m', Continue([Message(F.Auth, AuthMac(m', m.role))]))
  }

  function OnAuth(m: Machine, msg: Message): (Machine, Outcome)
  {
    if msg.kind != F.Auth || msg.body.Length() != 32 || m.negotiated.None? then Refuse(m, ProtocolViolation)
    else if msg.body != AuthMac(m, Peer(m.role)) then Refuse(m, AuthFailed)
    else
      var send := if m.role == Responder then [Message(F.Auth, AuthMac(m, Responder))] else [];
      (m.(phase := Done), Established(send, m.negotiated.value))
  }

  // ── sender suppression ──

  predicate MayEmit(n: Negotiated, kind: F.FrameKind)
  {
    match kind
    case Hello | Challenge | Auth | Ping | Membership => true
    case Interest | InterestDigest => n.features & INTEREST_ROUTING != 0
    case RelayRoom | RelayUser | RelayAll | RelaySocket => n.features & RELAY != 0
  }

  predicate IsFeatureGated(kind: F.FrameKind)
  {
    match kind
    case Interest | InterestDigest | RelayRoom | RelayUser | RelayAll | RelaySocket => true
    case _ => false
  }

  /** Does the receiving reader count this kind byte as an unknown frame? */
  predicate CountedUnknown(n: Negotiated, kindByte: byte)
  {
    match F.FromByte(kindByte)
    case None => true
    case Some(kind) => IsFeatureGated(kind) && !MayEmit(n, kind)
  }

  // ── two honest ends over two FIFO channels ──

  datatype Status = Running | Up(negotiated: Negotiated) | Failed

  datatype End = End(machine: Machine, status: Status)

  /** One connection: the initiator, the responder, and the frames in flight each way. */
  datatype Link = Link(i: End, r: End, toR: seq<Message>, toI: seq<Message>)

  datatype Step = ToResponder | ToInitiator | ResponderEof | InitiatorEof

  function Open(ci: Config, cr: Config, si: H.Bytes32, sr: H.Bytes32): Link
  {
    var (mi, hi) := Start(Initiator, ci, si);
    var (mr, hr) := Start(Responder, cr, sr);
    Link(End(mi, Running), End(mr, Running), [hi], [hr])
  }

  /** The driver: a frame longer than our own maximum closes the link before the machine sees it. */
  function Receive(e: End, msg: Message, nonce: H.Bytes32): (End, seq<Message>)
  {
    if 2 + msg.body.Length() > e.machine.cfg.maxFrame then (e.(status := Failed), [])
    else
      var (m, out) := OnFrame(e.machine, msg, nonce);
      match out
      case Continue(send) => (End(m, Running), send)
      case Established(send, n) => (End(m, Up(n)), send)
      case Refusal(_) => (End(m, Failed), [])
  }

  predicate Enabled(l: Link, step: Step)
  {
    match step
    case ToResponder => l.r.status.Running? && l.toR != []
    case ToInitiator => l.i.status.Running? && l.toI != []
    case ResponderEof => l.r.status.Running? && l.toR == [] && l.i.status.Failed?
    case InitiatorEof => l.i.status.Running? && l.toI == [] && l.r.status.Failed?
  }

  function Next(l: Link, step: Step, nonce: H.Bytes32): Link
    requires Enabled(l, step)
  {
    match step
    case ToResponder =>
      var (r, send) := Receive(l.r, l.toR[0], nonce);
      l.(r := r, toR := l.toR[1..], toI := l.toI + send)
    case ToInitiator =>
      var (i, send) := Receive(l.i, l.toI[0], nonce);
      l.(i := i, toI := l.toI[1..], toR := l.toR + send)
    case ResponderEof => l.(r := l.r.(status := Failed))
    case InitiatorEof => l.(i := l.i.(status := Failed))
  }

  /** Both configurations allow a link. */
  predicate Compatible(ci: Config, cr: Config)
  {
    && ci.secret == cr.secret
    && ci.clusterName == cr.clusterName
    && |ci.clusterName| <= H.MAX_CLUSTER_NAME_LEN
    && ci.nodeId != cr.nodeId
    && ci.version <= cr.version + 1 && cr.version <= ci.version + 1
    && Min(ci.maxFrame, cr.maxFrame) >= F.MIN_FRAME_FLOOR
    && Min(ci.maxFrame, cr.maxFrame) >= 2 + H.FIXED_PREFIX + |ci.clusterName|
  }
}
