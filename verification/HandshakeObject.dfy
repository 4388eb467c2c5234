/** The handshake machine as the code keeps it, its state changed by each frame. */
module HandshakeObject {
  import opened Prelude
  import opened Wire
  import F = Frame
  import H = Hello
  import S = Handshake

  class Handshake {
    const role: S.Role
    const cfg: S.Config
    var phase: S.Phase
    var myHello: seq<byte>
    var peerHello: seq<byte>
    var nonce: seq<byte>
    var negotiated: Option<S.Negotiated>

    ghost function Value(): S.Machine
      reads this
    {
      S.Machine(role, cfg, phase, myHello, peerHello, nonce, negotiated)
    }

    constructor (role: S.Role, cfg: S.Config)
      ensures Value() == S.Machine(role, cfg, S.AwaitingHello, [], [], [], None)
    {
      this.role, this.cfg := role, cfg;
      phase, myHello, peerHello, nonce, negotiated := S.AwaitingHello, [], [], [], None;
    }

    /** Send the opening HELLO, and remember its exact bytes for the transcript. */
    method Start(salt: H.Bytes32) returns (msg: S.Message)
      requires Value() == S.Machine(role, cfg, S.AwaitingHello, [], [], [], None)
      modifies this
      ensures (Value(), msg) == S.Start(role, cfg, salt)
    {
      myHello := H.Encode(S.HelloOf(cfg, salt));
      msg := S.Message(F.Hello, S.Plain(myHello));
    }

    method OnFrame(msg: S.Message, picked: H.Bytes32) returns (out: S.Outcome)
      modifies this
      ensures (Value(), out) == S.OnFrame(old(Value()), msg, picked)
    {
      match phase {
        case AwaitingHello => out := OnHello(msg, picked);
        case AwaitingChallenge => out := OnChallenge(msg);
        case AwaitingAuth => out := OnAuth(msg);
        case _ => out := Refuse(S.ProtocolViolation);
      }
    }

    method OnHello(msg: S.Message, picked: H.Bytes32) returns (out: S.Outcome)
      modifies this
      ensures (Value(), out) == S.OnHello(old(Value()), msg, picked)
    {
      if msg.kind != F.Hello || !msg.body.Plain? {
        out := Refuse(S.ProtocolViolation);
        return;
      }
      peerHello := msg.body.bytes;
      var verdict := S.ValidateHello(role, cfg, msg.body.bytes);
      if verdict.Err? {
        out := Refuse(verdict.error);
        return;
      }
      negotiated := Some(verdict.value);
      if role == S.Responder {
        nonce := picked;
        phase := S.AwaitingAuth;
        return S.Continue([S.Message(F.Challenge, S.Plain(picked))]);
      }
      phase := S.AwaitingChallenge;
      return S.Continue([]);
    }

    method OnChallenge(msg: S.Message) returns (out: S.Outcome)
      modifies this
      ensures (Value(), out) == S.OnChallenge(old(Value()), msg)
    {
      if msg.kind != F.Challenge || msg.body.Length() != 32 || !msg.body.Plain? {
        out := Refuse(S.ProtocolViolation);
        return;
      }
      nonce := msg.body.bytes;
      phase := S.AwaitingAuth;
      var mac := Tag(role);
      return S.Continue([S.Message(F.Auth, mac)]);
    }

    method OnAuth(msg: S.Message) returns (out: S.Outcome)
      modifies this
      ensures (Value(), out) == S.OnAuth(old(Value()), msg)
    {
      if msg.kind != F.Auth || msg.body.Length() != 32 || negotiated.None? {
        out := Refuse(S.ProtocolViolation);
        return;
      }
      var expected := Tag(S.Peer(role));
      if msg.body != expected {
        out := Refuse(S.AuthFailed);
        return;
      }
      phase := S.Done;
      if role == S.Responder {
        var mac := Tag(S.Responder);
        return S.Established([S.Message(F.Auth, mac)], negotiated.value);
      }
      return S.Established([], negotiated.value);
    }

    /** The MAC over role label, nonce and transcript. */
    method Tag(signer: S.Role) returns (mac: S.Body)
      ensures mac == S.AuthMac(Value(), signer)
    {
      var transcript := if role == S.Initiator then myHello + peerHello else peerHello + myHello;
      mac := S.Mac(cfg.secret, signer, nonce, transcript);
    }

    method Refuse(reason: S.RefuseReason) returns (out: S.Outcome)
      modifies this`phase
      ensures (Value(), out) == S.Refuse(old(Value()), reason)
    {
      phase := S.Refused;
      out := S.Refusal(reason);
    }
  }
}
