/** Agreement of two honest ends under every interleaving of deliveries. */
module HandshakeAgreement {
  import opened Prelude
  import opened Wire
  import opened Handshake
  import F = Frame
  import H = Hello

  /** What a side with configuration `cfg` negotiates with `peer`. */
  function Agreed(role: Role, cfg: Config, peer: Config): Negotiated
  {
    Negotiated(Min(cfg.version, peer.version), cfg.features & peer.features, Min(cfg.maxFrame, peer.maxFrame), role,
               peer.nodeId, peer.incarnation)
  }

  /** Does a side with configuration `cfg` take the HELLO frame of `peer`? */
  predicate HelloOk(role: Role, cfg: Config, peer: Config, salt: H.Bytes32)
  {
    cfg.maxFrame >= 2 + H.FIXED_PREFIX + |peer.clusterName| &&
      ValidateHello(role, cfg, H.Encode(HelloOf(peer, salt))).Ok?
  }

  /** What taking it negotiates. */
  function Taken(role: Role, cfg: Config, peer: Config, salt: H.Bytes32): Negotiated
  {
    match ValidateHello(role, cfg, H.Encode(HelloOf(peer, salt)))
    case Ok(n) => n
    case Err(_) => Agreed(role, cfg, peer)
  }

  /** With a name of legal length, a HELLO is judged field by field. */
  lemma ValidateIff(role: Role, cfg: Config, peer: Config, salt: H.Bytes32)
    requires |peer.clusterName| <= H.MAX_CLUSTER_NAME_LEN
    ensures var v := ValidateHello(role, cfg, H.Encode(HelloOf(peer, salt)));
      if && cfg.clusterName == peer.clusterName && cfg.nodeId != peer.nodeId
         && cfg.version <= peer.version + 1 && peer.version <= cfg.version + 1
         && Min(cfg.maxFrame, peer.maxFrame) >= F.MIN_FRAME_FLOOR
      then v == Ok(Agreed(role, cfg, peer)) else v.Err?
  {
    var h := HelloOf(peer, salt);
    H.DecodeEncodeIff(h, []);
    assert H.Encode(h) + [] == H.Encode(h);
  }

  /** Why a HELLO is refused: the first rule broken, with the values that broke it. */
  lemma RefusalReasons(role: Role, cfg: Config, peer: Config, salt: H.Bytes32)
    requires |peer.clusterName| <= H.MAX_CLUSTER_NAME_LEN
    ensures var v := ValidateHello(role, cfg, H.Encode(HelloOf(peer, salt)));
      var sameName, apart := cfg.clusterName == peer.clusterName, cfg.nodeId != peer.nodeId;
      var near := cfg.version <= peer.version + 1 && peer.version <= cfg.version + 1;
      && (v == Err(ClusterMismatch) <==> !sameName)
      && (v == Err(NodeIdCollision(peer.nodeId)) <==> sameName && !apart)
      && (v == Err(IncompatibleVersion(cfg.version, peer.version)) <==> sameName && apart && !near)
      && (v.Err? && sameName && apart && near ==> v == Err(MaxFrameTooSmall(Min(cfg.maxFrame, peer.maxFrame))))
  {
    var h := HelloOf(peer, salt);
    H.DecodeEncodeIff(h, []);
    assert H.Encode(h) + [] == H.Encode(h);
  }

  /** Bytes that are no HELLO: a whole header without the magic is no mesh peer, a shorter one is malformed. */
  lemma NoHello(role: Role, cfg: Config, body: seq<byte>)
    ensures ValidateHello(role, cfg, body) == Err(NotMeshPeer) <==>
      |body| >= 58 && body[..4] != [0x42, 0x53, 0x4D, 0x48]
    ensures |body| < 58 ==> ValidateHello(role, cfg, body) == Err(MalformedHello(H.Truncated))
  {
  }

  /** A side that takes a HELLO has a cluster name of legal length itself. */
  lemma TakerHasShortName(role: Role, cfg: Config, peer: Config, salt: H.Bytes32)
    requires HelloOk(role, cfg, peer, salt)
    ensures |cfg.clusterName| <= H.MAX_CLUSTER_NAME_LEN
  {
    var h := HelloOf(peer, salt);
    H.DecodeEncodeIff(h, []);
    assert H.Encode(h) + [] == H.Encode(h);
  }

  // ── the states a link passes through ──

  /** The machines and messages of one handshake between given ends, and whether each test passes. */
  datatype Script = Script(
    i0: Machine, i1: Machine, i2: Machine, r0: Machine, r1: Machine,
    helloI: Message, helloR: Message, challenge: Message, authI: Message, authR: Message,
    okI: bool, okR: bool, sameSecret: bool,
    upI: Negotiated, upR: Negotiated)
  {
    predicate Good()
    {
      okI && okR && sameSecret
    }
  }

  predicate Fails(e: End, msg: Message, nonce: H.Bytes32)
  {
    Receive(e, msg, nonce).0.status.Failed? && Receive(e, msg, nonce).1 == []
  }

  predicate Ups(e: End, msg: Message, nonce: H.Bytes32, n: Negotiated, send: seq<Message>)
  {
    Receive(e, msg, nonce).0.status == Up(n) && Receive(e, msg, nonce).1 == send
  }

  /** Every delivery of the script does what the machines do. */
  ghost predicate Faithful(s: Script, nonce: H.Bytes32)
  {
    && (if s.okI then Receive(End(s.i0, Running), s.helloR, nonce) == (End(s.i1, Running), [])
        else Fails(End(s.i0, Running), s.helloR, nonce))
    && (if s.okR then Receive(End(s.r0, Running), s.helloI, nonce) == (End(s.r1, Running), [s.challenge])
        else Fails(End(s.r0, Running), s.helloI, nonce))
    && (s.okI ==> Receive(End(s.i1, Running), s.challenge, nonce) == (End(s.i2, Running), [s.authI]))
    && (s.okR ==>
          if s.sameSecret then Ups(End(s.r1, Running), s.authI, nonce, s.upR, [s.authR])
          else Fails(End(s.r1, Running), s.authI, nonce))
    && (s.Good() ==> Ups(End(s.i2, Running), s.authR, nonce, s.upI, []))
    && s.i0.phase.AwaitingHello? && s.i1.phase.AwaitingChallenge? && s.i2.phase.AwaitingAuth?
    && s.r0.phase.AwaitingHello? && s.r1.phase.AwaitingAuth?
  }

  ghost predicate At(e: End, m: Machine)
  {
    e.status.Running? && e.machine == m
  }

  /** Both ends are still on the way. */
  ghost predicate Negotiating(s: Script, l: Link)
  {
    || (At(l.r, s.r0) && l.toR == [s.helloI] &&
        ((At(l.i, s.i0) && l.toI == [s.helloR]) || (s.okI && At(l.i, s.i1) && l.toI == [])))
    || (s.okR && At(l.r, s.r1) && l.toR == [] &&
        ((At(l.i, s.i0) && l.toI == [s.helloR, s.challenge]) || (s.okI && At(l.i, s.i1) && l.toI == [s.challenge])))
    || (s.okR && At(l.r, s.r1) && s.okI && At(l.i, s.i2) && l.toR == [s.authI] && l.toI == [])
  }

  /** The responder is up: the initiator is up too, or one delivery away. */
  ghost predicate Closing(s: Script, l: Link)
  {
    && s.Good() && l.r.status == Up(s.upR) && l.toR == []
    && ((At(l.i, s.i2) && l.toI == [s.authR]) || (l.i.status == Up(s.upI) && l.toI == []))
  }

  /** One end has given up; the other is not up and never will be. */
  ghost predicate Failing(s: Script, l: Link)
  {
    && !s.Good()
    && (|| (l.i.status.Failed? &&
            (l.r.status.Failed? || (At(l.r, s.r0) && l.toR == [s.helloI]) || (s.okR && At(l.r, s.r1) && l.toR == [])))
        || (l.r.status.Failed? &&
            ((At(l.i, s.i0) && l.toI == [s.helloR]) || (s.okI && (At(l.i, s.i1) || At(l.i, s.i2)) && l.toI == []))))
  }

  ghost predicate Inv(s: Script, l: Link)
  {
    Negotiating(s, l) || Closing(s, l) || Failing(s, l)
  }

  lemma DeliverNegotiating(s: Script, l: Link, step: Step, nonce: H.Bytes32)
    requires Faithful(s, nonce) && Negotiating(s, l) && Enabled(l, step)
    ensures Inv(s, Next(l, step, nonce))
  {
    assert l.r.status.Running? && l.i.status.Running?;
    assert l.i == End(l.i.machine, Running) && l.r == End(l.r.machine, Running);
  }

  lemma DeliverClosing(s: Script, l: Link, step: Step, nonce: H.Bytes32)
    requires Faithful(s, nonce) && Closing(s, l) && Enabled(l, step)
    ensures Inv(s, Next(l, step, nonce))
  {
    assert step == ToInitiator && l.i == End(s.i2, Running) && l.toI[0] == s.authR;
    assert Ups(l.i, s.authR, nonce, s.upI, []);
    assert Closing(s, Next(l, step, nonce));
  }

  lemma DeliverFailing(s: Script, l: Link, step: Step, nonce: H.Bytes32)
    requires Faithful(s, nonce) && Failing(s, l) && Enabled(l, step)
    ensures Inv(s, Next(l, step, nonce))
  {
    assert l.i.status.Running? ==> l.i == End(l.i.machine, Running);
    assert l.r.status.Running? ==> l.r == End(l.r.machine, Running);
  }

  lemma StepKeepsInv(s: Script, l: Link, step: Step, nonce: H.Bytes32)
    requires Faithful(s, nonce) && Inv(s, l) && Enabled(l, step)
    ensures Inv(s, Next(l, step, nonce))
  {
    if Negotiating(s, l) {
      DeliverNegotiating(s, l, step, nonce);
    } else if Closing(s, l) {
      DeliverClosing(s, l, step, nonce);
    } else {
      DeliverFailing(s, l, step, nonce);
    }
  }

  // ── the script of two given configurations ──

  function ScriptOf(ci: Config, cr: Config, si: H.Bytes32, sr: H.Bytes32, nonce: H.Bytes32): Script
  {
    var (i0, helloI) := Start(Initiator, ci, si);
    var (r0, helloR) := Start(Responder, cr, sr);
    var i1 := i0.(phase := AwaitingChallenge, peerHello := r0.myHello,
      negotiated := Some(Taken(Initiator, ci, cr, sr)));
    var i2 := i1.(phase := AwaitingAuth, nonce := nonce);
    var r1 := r0.(phase := AwaitingAuth, peerHello := i0.myHello, nonce := nonce,
      negotiated := Some(Taken(Responder, cr, ci, si)));
    Script(i0, i1, i2, r0, r1, helloI, helloR, Message(F.Challenge, Plain(nonce)),
           Message(F.Auth, AuthMac(i2, Initiator)), Message(F.Auth, AuthMac(r1, Responder)),
           HelloOk(Initiator, ci, cr, sr), HelloOk(Responder, cr, ci, si), ci.secret == cr.secret,
           Taken(Initiator, ci, cr, sr), Taken(Responder, cr, ci, si))
  }

  lemma ScriptHellos(ci: Config, cr: Config, si: H.Bytes32, sr: H.Bytes32, nonce: H.Bytes32)
    ensures var s := ScriptOf(ci, cr, si, sr, nonce);
      && (if s.okI then Receive(End(s.i0, Running), s.helloR, nonce) == (End(s.i1, Running), [])
          else Fails(End(s.i0, Running), s.helloR, nonce))
      && (if s.okR then Receive(End(s.r0, Running), s.helloI, nonce) == (End(s.r1, Running), [s.challenge])
          else Fails(End(s.r0, Running), s.helloI, nonce))
  {
  }

  lemma ScriptChallenge(ci: Config, cr: Config, si: H.Bytes32, sr: H.Bytes32, nonce: H.Bytes32)
    ensures var s := ScriptOf(ci, cr, si, sr, nonce);
      s.okI ==> Receive(End(s.i1, Running), s.challenge, nonce) == (End(s.i2, Running), [s.authI])
  {
  }

  /** A machine waiting for AUTH comes up exactly on its peer's tag. */
  lemma AuthIff(m: Machine, body: Body, nonce: H.Bytes32)
    requires m.phase.AwaitingAuth? && m.negotiated.Some? && m.cfg.maxFrame >= 34
    ensures var e, msg := End(m, Running), Message(F.Auth, body);
      if body == AuthMac(m, Peer(m.role))
      then Ups(e, msg, nonce, m.negotiated.value,
               if m.role == Responder then [Message(F.Auth, AuthMac(m, Responder))] else [])
      else Fails(e, msg, nonce)
    ensures body.Length() == 32 && body != AuthMac(m, Peer(m.role)) ==>
      OnFrame(m, Message(F.Auth, body), nonce).1 == Refusal(AuthFailed)
  {
  }

  /** Once a machine has refused or come up, it refuses whatever follows. */
  lemma OutcomeIsFinal(m: Machine, msg: Message, nonce: H.Bytes32, later: Message, nonce': H.Bytes32)
    ensures var (m', out) := OnFrame(m, msg, nonce);
      out.Refusal? || out.Established? ==> OnFrame(m', later, nonce').1 == Refusal(ProtocolViolation)
  {
  }

  /** The machine comes up on this AUTH body. */
  predicate Admits(m: Machine, body: Body)
  {
    OnAuth(m, Message(F.Auth, body)).1.Established?
  }

  /** A body that is one HELLO with a name of legal length and nothing appended. */
  ghost predicate ExactHello(body: seq<byte>)
  {
    exists h: H.Hello :: |h.clusterName| <= H.MAX_CLUSTER_NAME_LEN && body == H.Encode(h)
  }

  /**
   * What a tag covers: an end comes up on the other's tag if and only if they share the secret and the nonce and hold
   * the same HELLO bytes, the initiator's before the responder's; and never on its own tag.
   */
  lemma TagCovers(i: Machine, r: Machine)
    requires i.role == Initiator && i.phase.AwaitingAuth? && i.negotiated.Some?
    requires r.role == Responder && r.phase.AwaitingAuth? && r.negotiated.Some?
    ensures var same := i.cfg.secret == r.cfg.secret && i.nonce == r.nonce &&
        i.myHello + i.peerHello == r.peerHello + r.myHello;
      && (Admits(r, AuthMac(i, Initiator)) <==> same) && (Admits(i, AuthMac(r, Responder)) <==> same)
    ensures !Admits(i, AuthMac(i, Initiator)) && !Admits(r, AuthMac(r, Responder))
  {
  }

  /** So with exact HELLO bodies a tag verifies exactly if each end read what the other sent and all else agrees. */
  lemma TagBindsBothHellos(i: Machine, r: Machine)
    requires i.role == Initiator && i.phase.AwaitingAuth? && i.negotiated.Some?
    requires r.role == Responder && r.phase.AwaitingAuth? && r.negotiated.Some?
    requires ExactHello(i.myHello) && ExactHello(i.peerHello) && ExactHello(r.myHello) && ExactHello(r.peerHello)
    ensures var agree := i.cfg.secret == r.cfg.secret && i.nonce == r.nonce &&
        i.myHello == r.peerHello && i.peerHello == r.myHello;
      && (Admits(r, AuthMac(i, Initiator)) <==> agree) && (Admits(i, AuthMac(r, Responder)) <==> agree)
  {
    TagCovers(i, r);
    if i.myHello + i.peerHello == r.peerHello + r.myHello {
      var a: H.Hello :| |a.clusterName| <= H.MAX_CLUSTER_NAME_LEN && i.myHello == H.Encode(a);
      var b: H.Hello :| |b.clusterName| <= H.MAX_CLUSTER_NAME_LEN && i.peerHello == H.Encode(b);
      var a': H.Hello :| |a'.clusterName| <= H.MAX_CLUSTER_NAME_LEN && r.peerHello == H.Encode(a');
      var b': H.Hello :| |b'.clusterName| <= H.MAX_CLUSTER_NAME_LEN && r.myHello == H.Encode(b');
      H.TranscriptInjective(a, b, a', b');
    }
  }

  /** Both ends MAC the same transcript, so a tag verifies exactly when the secrets agree. */
  lemma ScriptAuthI(ci: Config, cr: Config, si: H.Bytes32, sr: H.Bytes32, nonce: H.Bytes32)
    ensures var s := ScriptOf(ci, cr, si, sr, nonce);
      s.okR ==> if s.sameSecret then Ups(End(s.r1, Running), s.authI, nonce, s.upR, [s.authR])
        else Fails(End(s.r1, Running), s.authI, nonce)
  {
    var s := ScriptOf(ci, cr, si, sr, nonce);
    if s.okR {
      AuthIff(s.r1, s.authI.body, nonce);
      assert s.authI.body == AuthMac(s.r1, Initiator) <==> s.sameSecret;
    }
  }

  lemma ScriptAuthR(ci: Config, cr: Config, si: H.Bytes32, sr: H.Bytes32, nonce: H.Bytes32)
    ensures var s := ScriptOf(ci, cr, si, sr, nonce);
      s.okI && s.sameSecret ==> Ups(End(s.i2, Running), s.authR, nonce, s.upI, [])
  {
    var s := ScriptOf(ci, cr, si, sr, nonce);
    if s.okI && s.sameSecret {
      AuthIff(s.i2, s.authR.body, nonce);
      assert s.authR.body == AuthMac(s.i2, Responder);
    }
  }

  lemma ScriptFaithful(ci: Config, cr: Config, si: H.Bytes32, sr: H.Bytes32, nonce: H.Bytes32)
    ensures Faithful(ScriptOf(ci, cr, si, sr, nonce), nonce)
    ensures Inv(ScriptOf(ci, cr, si, sr, nonce), Open(ci, cr, si, sr))
  {
    ScriptHellos(ci, cr, si, sr, nonce);
    ScriptChallenge(ci, cr, si, sr, nonce);
    ScriptAuthI(ci, cr, si, sr, nonce);
    ScriptAuthR(ci, cr, si, sr, nonce);
  }

  /** Every test passes exactly when the configurations are compatible, and then the two ends agree. */
  lemma GoodIffCompatible(ci: Config, cr: Config, si: H.Bytes32, sr: H.Bytes32, nonce: H.Bytes32)
    ensures var s := ScriptOf(ci, cr, si, sr, nonce);
      && (s.Good() <==> Compatible(ci, cr))
      && (s.Good() ==> s.upI == Agreed(Initiator, ci, cr) && s.upR == Agreed(Responder, cr, ci))
  {
    var s := ScriptOf(ci, cr, si, sr, nonce);
    if s.okI && s.okR {
      TakerHasShortName(Initiator, ci, cr, sr);
      TakerHasShortName(Responder, cr, ci, si);
    }
    if |ci.clusterName| <= H.MAX_CLUSTER_NAME_LEN && |cr.clusterName| <= H.MAX_CLUSTER_NAME_LEN {
      ValidateIff(Initiator, ci, cr, sr);
      ValidateIff(Responder, cr, ci, si);
    }
  }

  // ── every run ──

  ghost predicate Run(l: Link, steps: seq<Step>, nonce: H.Bytes32, l': Link)
    decreases |steps|
  {
    if steps == [] then l == l' else Enabled(l, steps[0]) && Run(Next(l, steps[0], nonce), steps[1..], nonce, l')
  }

  ghost predicate Quiet(l: Link)
  {
    forall step: Step :: !Enabled(l, step)
  }

  function EndRank(e: End): nat
  {
    if !e.status.Running? then 0
    else match e.machine.phase
      case AwaitingHello => 3
      case AwaitingChallenge => 2
      case _ => 1
  }

  function Rank(l: Link): nat
  {
    EndRank(l.i) + EndRank(l.r)
  }

  lemma StepLowersRank(l: Link, step: Step, nonce: H.Bytes32)
    requires Enabled(l, step)
    ensures Rank(Next(l, step, nonce)) < Rank(l)
  {
  }

  lemma {:induction false} RunKeepsInv(s: Script, l: Link, steps: seq<Step>, nonce: H.Bytes32, l': Link)
    requires Faithful(s, nonce) && Inv(s, l) && Run(l, steps, nonce, l')
    ensures Inv(s, l') && |steps| + Rank(l') <= Rank(l)
    decreases |steps|
  {
    if steps != [] {
      StepKeepsInv(s, l, steps[0], nonce);
      StepLowersRank(l, steps[0], nonce);
      RunKeepsInv(s, Next(l, steps[0], nonce), steps[1..], nonce, l');
    }
  }

  lemma QuietOutcome(s: Script, l: Link)
    requires Inv(s, l) && Quiet(l)
    ensures if s.Good() then l.i.status == Up(s.upI) && l.r.status == Up(s.upR)
      else l.i.status.Failed? && l.r.status.Failed?
  {
    assert !Enabled(l, ToResponder) && !Enabled(l, ToInitiator) && !Enabled(l, ResponderEof) &&
      !Enabled(l, InitiatorEof);
  }

  lemma RunOutcome(s: Script, start: Link, steps: seq<Step>, nonce: H.Bytes32, l: Link)
    requires Faithful(s, nonce) && Inv(s, start) && Run(start, steps, nonce, l)
    ensures |steps| <= Rank(start) <= 6
    ensures l.i.status.Up? ==> s.Good() && l.i.status.negotiated == s.upI
    ensures l.r.status.Up? ==> s.Good() && l.r.status.negotiated == s.upR
    ensures Quiet(l) ==> if s.Good() then l.i.status.Up? && l.r.status.Up? else l.i.status.Failed? && l.r.status.Failed?
  {
    RunKeepsInv(s, start, steps, nonce, l);
    if Quiet(l) {
      QuietOutcome(s, l);
    }
  }

  /**
   * Agreement. Whatever the order of deliveries, the handshake ends within six steps; if the configurations are
   * compatible both ends are up with the same version, features and maximum frame and each other's id, and
   * otherwise both have failed.
   */
  lemma HandshakeOutcome(ci: Config, cr: Config, si: H.Bytes32, sr: H.Bytes32, nonce: H.Bytes32,
    steps: seq<Step>, l: Link)
    requires Run(Open(ci, cr, si, sr), steps, nonce, l)
    ensures |steps| <= 6
    ensures l.i.status.Up? || l.r.status.Up? ==> Compatible(ci, cr)
    ensures l.i.status.Up? ==> l.i.status.negotiated == Agreed(Initiator, ci, cr)
    ensures l.r.status.Up? ==> l.r.status.negotiated == Agreed(Responder, cr, ci)
    ensures Quiet(l) ==> if Compatible(ci, cr) then l.i.status.Up? && l.r.status.Up?
      else l.i.status.Failed? && l.r.status.Failed?
  {
    var s := ScriptOf(ci, cr, si, sr, nonce);
    ScriptFaithful(ci, cr, si, sr, nonce);
    RunOutcome(s, Open(ci, cr, si, sr), steps, nonce, l);
    GoodIffCompatible(ci, cr, si, sr, nonce);
  }

  lemma BitInBoth(a: bv32, b: bv32)
    ensures a & b == b & a
    ensures (a & b) & INTEREST_ROUTING != 0 <==> a & INTEREST_ROUTING != 0 && b & INTEREST_ROUTING != 0
    ensures (a & b) & RELAY != 0 <==> a & RELAY != 0 && b & RELAY != 0
  {
  }

  /** What the two ends of an established link agree on; only the peer's identity is swapped. */
  lemma EndsAgree(ci: Config, cr: Config)
    ensures var i, r := Agreed(Initiator, ci, cr), Agreed(Responder, cr, ci);
      && i.version == r.version && i.features == r.features && i.maxFrame == r.maxFrame
      && i.peerNodeId == cr.nodeId && r.peerNodeId == ci.nodeId
  {
    BitInBoth(ci.features, cr.features);
  }

  /**
   * Sender suppression: no kind one end agrees to send is counted unknown at the other, and a
   * feature-gated kind may be sent exactly when both ends advertised its feature.
   */
  lemma SuppressionSound(ci: Config, cr: Config, kind: F.FrameKind)
    ensures var i, r := Agreed(Initiator, ci, cr), Agreed(Responder, cr, ci);
      && (MayEmit(i, kind) ==> !CountedUnknown(r, F.KindByte(kind)))
      && (MayEmit(r, kind) ==> !CountedUnknown(i, F.KindByte(kind)))
      && (MayEmit(i, kind) <==> MayEmit(r, kind))
      && (kind.Interest? || kind.InterestDigest? ==>
            (MayEmit(i, kind) <==> ci.features & INTEREST_ROUTING != 0 && cr.features & INTEREST_ROUTING != 0))
      && (kind.RelayRoom? || kind.RelayUser? || kind.RelayAll? || kind.RelaySocket? ==>
            (MayEmit(i, kind) <==> ci.features & RELAY != 0 && cr.features & RELAY != 0))
      && (!IsFeatureGated(kind) ==> MayEmit(i, kind))
  {
    BitInBoth(ci.features, cr.features);
  }

  /**
   * The frame floor does not cover the HELLO itself: an end that declares the legal minimum of 64 bytes
   * never gets a link up, with any peer, once the cluster name is longer than four bytes.
   */
  lemma FloorTooSmallForHello(ci: Config, cr: Config, si: H.Bytes32, sr: H.Bytes32, nonce: H.Bytes32,
    steps: seq<Step>, l: Link)
    requires ci.maxFrame == F.MIN_FRAME_FLOOR && |ci.clusterName| > 4
    requires Run(Open(ci, cr, si, sr), steps, nonce, l)
    ensures !l.i.status.Up? && !l.r.status.Up?
  {
    HandshakeOutcome(ci, cr, si, sr, nonce, steps, l);
  }
}
