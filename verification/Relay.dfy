/** The body of a RELAY_* frame: target name, node-tagged exceptions, payload (crates/core/src/cluster.rs). */
module Relay {
  import opened Prelude
  import opened Wire
  import F = Frame

  /** A connection of a given node. */
  datatype NodeConnId = NodeConnId(node: u16, local: u64)

  datatype RelayTarget = RoomTarget(name: Name) | UserTarget(name: Name) | AllTarget

  function KindOf(t: RelayTarget): F.FrameKind
  {
    match t
    case RoomTarget(_) => F.RelayRoom
    case UserTarget(_) => F.RelayUser
    case AllTarget => F.RelayAll
  }

  function PutExcept(e: NodeConnId): seq<byte>
  {
    Le(e.node, 2) + Le(e.local, 8)
  }

  function GetExcept(buf: seq<byte>): Option<(NodeConnId, seq<byte>)>
  {
    match GetU16(buf)
    case None => None
    case Some((node, r1)) =>
      match GetU64(r1)
      case None => None
      case Some((local, r2)) => Some((NodeConnId(node, local), r2))
  }

  function PutExcepts(es: seq<NodeConnId>): seq<byte>
  {
    Le(|es|, 2) + PutAll(PutExcept, es)
  }

  function GetExcepts(buf: seq<byte>): Option<(seq<NodeConnId>, seq<byte>)>
  {
    match GetLe(buf, 2)
    case None => None
    case Some((n, rest)) => GetAll(GetExcept, n, rest)
  }

  /** The name of a room or user; a broadcast to all has none. */
  function NamePart(t: RelayTarget): seq<byte>
  {
    if t.AllTarget? then [] else PutStr(t.name)
  }

  /** One frame carries the payload to every interested peer. */
  function RelayFrame(t: RelayTarget, es: seq<NodeConnId>, payload: seq<byte>, isBinary: bool): F.Frame
  {
    F.Frame(KindOf(t), if isBinary then 1 else 0, NamePart(t) + (PutExcepts(es) + payload))
  }

  datatype Relayed = Relayed(target: RelayTarget, excepts: seq<NodeConnId>, payload: seq<byte>, isBinary: bool)

  function GetName(kind: F.FrameKind, body: seq<byte>): Option<(RelayTarget, seq<byte>)>
  {
    if kind.RelayAll? then Some((AllTarget, body))
    else if kind.RelayRoom? || kind.RelayUser? then
      match GetStr(body)
      case None => None
      case Some((name, rest)) => Some((if kind.RelayRoom? then RoomTarget(name) else UserTarget(name), rest))
    else None
  }

  /** What the receive handler makes of a frame; None when it drops it. */
  function Understand(f: F.Frame): Option<Relayed>
  {
    match GetName(f.kind, f.body)
    case None => None
    case Some((target, rest)) =>
      match GetExcepts(rest)
      case None => None
      case Some((es, payload)) => Some(Relayed(target, es, payload, f.flags % 2 == 1))
  }

  lemma GetExceptPut(e: NodeConnId, rest: seq<byte>)
    ensures GetExcept(PutExcept(e) + rest) == Some((e, rest))
  {
    assert PutExcept(e) + rest == Le(e.node, 2) + (Le(e.local, 8) + rest);
    Get16(e.node, Le(e.local, 8) + rest);
    Get64(e.local, rest);
  }

  lemma GetExceptsPut(es: seq<NodeConnId>, rest: seq<byte>)
    requires |es| < 0x1_0000
    ensures GetExcepts(PutExcepts(es) + rest) == Some((es, rest))
  {
    assert PutExcepts(es) + rest == Le(|es|, 2) + (PutAll(PutExcept, es) + rest);
    Get16(|es|, PutAll(PutExcept, es) + rest);
    forall e | e in es ensures Inverse(PutExcept, GetExcept, e) {
      forall r ensures GetExcept(PutExcept(e) + r) == Some((e, r)) {
        GetExceptPut(e, r);
      }
    }
    GetAllPutAll(PutExcept, GetExcept, es, rest);
  }

  /** A relay names its target with 16-bit lengths. */
  predicate Fits(t: RelayTarget, es: seq<NodeConnId>)
  {
    |es| < 0x1_0000 && (!t.AllTarget? ==> |t.name| < 0x1_0000)
  }

  lemma GetNameBack(t: RelayTarget, rest: seq<byte>)
    requires !t.AllTarget? ==> |t.name| < 0x1_0000
    ensures GetName(KindOf(t), NamePart(t) + rest) == Some((t, rest))
  {
    if t.AllTarget? {
      assert [] + rest == rest;
    } else {
      GetStrPut(t.name, rest);
    }
  }

  /** The receiver understands a relay as it was meant. */
  lemma UnderstandRelay(t: RelayTarget, es: seq<NodeConnId>, payload: seq<byte>, isBinary: bool)
    requires Fits(t, es)
    ensures Understand(RelayFrame(t, es, payload, isBinary)) == Some(Relayed(t, es, payload, isBinary))
  {
    GetNameBack(t, PutExcepts(es) + payload);
    GetExceptsPut(es, payload);
  }

  /** The sender's local exceptions, tagged with its node. */
  function NodeExcepts(node: u16, except: seq<u64>): (r: seq<NodeConnId>)
    ensures |r| == |except|
    ensures forall e :: e in r <==> e.node == node && e.local in except
  {
    if except == [] then [] else [NodeConnId(node, except[0])] + NodeExcepts(node, except[1..])
  }

  /** The exceptions that name this node's connections. */
  function ExceptsFor(node: u16, es: seq<NodeConnId>): (r: seq<u64>)
    ensures forall id :: id in r <==> NodeConnId(node, id) in es
  {
    if es == [] then []
    else if es[0].node == node then [es[0].local] + ExceptsFor(node, es[1..])
    else ExceptsFor(node, es[1..])
  }
}
