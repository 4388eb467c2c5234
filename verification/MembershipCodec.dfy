/** The body of a MEMBERSHIP (0x04) frame, with the address form it shares with the probe plane. */
module MembershipCodec {
  import opened Prelude
  import opened Wire
  import opened Swim
  import opened MembershipSync

  const SUB_SYNC: byte := 1
  const SUB_GOSSIP: byte := 2
  const SUB_DIGEST: byte := 3

  function StateByte(s: MState): byte
  {
    Precedence(s)
  }

  function ByteState(b: byte): Option<MState>
  {
    if b == 0 then Some(Alive) else if b == 1 then Some(Suspect) else if b == 2 then Some(Dead) else None
  }

  function PutAddr(a: Addr): seq<byte>
  {
    match a
    case V4(ip, port) => [4] + ip + Le(port, 2)
    case V6(ip, port) => [6] + ip + Le(port, 2)
  }

  function GetAddr(buf: seq<byte>): Option<(Addr, seq<byte>)>
  {
    if buf == [] then None
    else
      var n := if buf[0] == 4 then 4 else if buf[0] == 6 then 16 else 0;
      var rest := buf[1..];
      if n == 0 || |rest| < n then None
      else
        match GetU16(rest[n..])
        case None => None
        case Some((port, rest')) =>
          if n == 4 then Some((V4(rest[..n], port), rest')) else Some((V6(rest[..n], port), rest'))
  }

  lemma SplitAddr(family: byte, ip: seq<byte>, port: u16, rest: seq<byte>)
    ensures var buf := [family] + ip + Le(port, 2) + rest;
      |buf[1..]| >= |ip| && buf[1..][..|ip|] == ip && GetU16(buf[1..][|ip|..]) == Some((port, rest))
  {
    var buf := [family] + ip + Le(port, 2) + rest;
    assert buf[1..] == ip + (Le(port, 2) + rest);
    assert buf[1..][|ip|..] == Le(port, 2) + rest;
    Get16(port, rest);
  }

  lemma GetAddrPut(a: Addr, rest: seq<byte>)
    ensures GetAddr(PutAddr(a) + rest) == Some((a, rest))
  {
    match a
    case V4(ip, port) => SplitAddr(4, ip, port, rest);
    case V6(ip, port) => SplitAddr(6, ip, port, rest);
  }

  function PutUpdate(u: Update): seq<byte>
  {
    Le(u.id, 2) + [StateByte(u.state)] + Le(u.inc, 4) + PutAddr(u.addr)
  }

  function GetUpdate(buf: seq<byte>): Option<(Update, seq<byte>)>
  {
    match GetU16(buf)
    case None => None
    case Some((id, r1)) =>
      if r1 == [] || ByteState(r1[0]) == None then None
      else
        match GetLe(r1[1..], 4)
        case None => None
        case Some((inc, r2)) =>
          match GetAddr(r2)
          case None => None
          case Some((addr, r3)) => Some((Update(id, addr, ByteState(r1[0]).value, inc), r3))
  }

  predicate Fits(u: Update)
  {
    u.inc < 0x1_0000_0000
  }

  lemma GetUpdatePut(u: Update, rest: seq<byte>)
    requires Fits(u)
    ensures GetUpdate(PutUpdate(u) + rest) == Some((u, rest))
  {
    var r2 := PutAddr(u.addr) + rest;
    var r1 := [StateByte(u.state)] + (Le(u.inc, 4) + r2);
    assert PutUpdate(u) + rest == Le(u.id, 2) + r1;
    Get16(u.id, r1);
    assert r1[1..] == Le(u.inc, 4) + r2;
    Get32(u.inc, r2);
    GetAddrPut(u.addr, rest);
  }

  lemma GetUpdateFits(buf: seq<byte>)
    ensures GetUpdate(buf).Some? ==> Fits(GetUpdate(buf).value.0)
  {
    PowValues();
    if GetU16(buf).Some? {
      var r1 := GetU16(buf).value.1;
      if r1 != [] {
        GetLeBound(r1[1..], 4);
      }
    }
  }

  function PutCounted<T>(put: T -> seq<byte>, xs: seq<T>): seq<byte>
  {
    Le(|xs|, 2) + PutAll(put, xs)
  }

  function GetCounted<T>(get: seq<byte> -> Option<(T, seq<byte>)>, buf: seq<byte>): Option<seq<T>>
  {
    match GetLe(buf, 2)
    case None => None
    case Some((n, rest)) =>
      match GetAll(get, n, rest)
      case None => None
      case Some((xs, _)) => Some(xs)
  }

  function PutPair(e: (NodeId, nat)): seq<byte>
  {
    Le(e.0, 2) + Le(e.1, 4)
  }

  function GetPair(buf: seq<byte>): Option<((NodeId, nat), seq<byte>)>
  {
    match GetU16(buf)
    case None => None
    case Some((id, r1)) =>
      match GetLe(r1, 4)
      case None => None
      case Some((inc, r2)) => Some(((id, inc), r2))
  }

  predicate PairFits(e: (NodeId, nat))
  {
    e.1 < 0x1_0000_0000
  }

  lemma GetPairPut(e: (NodeId, nat), rest: seq<byte>)
    requires PairFits(e)
    ensures GetPair(PutPair(e) + rest) == Some((e, rest))
  {
    assert PutPair(e) + rest == Le(e.0, 2) + (Le(e.1, 4) + rest);
    Get16(e.0, Le(e.1, 4) + rest);
    Get32(e.1, rest);
  }

  lemma GetPairFits(buf: seq<byte>)
    ensures GetPair(buf).Some? ==> PairFits(GetPair(buf).value.0)
  {
    PowValues();
    if GetU16(buf).Some? {
      GetLeBound(GetU16(buf).value.1, 4);
    }
  }

  /** A counted list survives exactly when its count fits 16 bits, given that its items survive. */
  lemma CountedRoundTripIff<T(!new)>(put: T -> seq<byte>, get: seq<byte> -> Option<(T, seq<byte>)>, xs: seq<T>)
    requires forall x | x in xs :: Inverse(put, get, x)
    ensures GetCounted(get, PutCounted(put, xs)) == Some(xs) <==> |xs| < 0x1_0000
  {
    var buf := PutCounted(put, xs);
    GetLeBound(buf, 2);
    PowValues();
    var (n, rest) := GetLe(buf, 2).value;
    GetAllYields(get, n, rest, (x: T) => true);
    if |xs| < 0x1_0000 {
      Get16(|xs|, PutAll(put, xs));
      GetAllPutAll(put, get, xs, []);
      assert PutAll(put, xs) + [] == PutAll(put, xs);
    }
  }

  lemma CountedYields<T(!new)>(get: seq<byte> -> Option<(T, seq<byte>)>, buf: seq<byte>, p: T -> bool)
    requires forall b :: get(b).Some? ==> p(get(b).value.0)
    ensures GetCounted(get, buf).Some? ==> forall x | x in GetCounted(get, buf).value :: p(x)
  {
    if GetLe(buf, 2).Some? {
      GetAllYields(get, GetLe(buf, 2).value.0, GetLe(buf, 2).value.1, p);
    }
  }

  function Encode(m: Msg): seq<byte>
  {
    match m
    case Sync(reply, us) => [SUB_SYNC] + ([if reply then 1 else 0] + PutCounted(PutUpdate, us))
    case Gossip(us) => [SUB_GOSSIP] + PutCounted(PutUpdate, us)
    case Digest(es) => [SUB_DIGEST] + PutCounted(PutPair, es)
  }

  function Decode(body: seq<byte>): Option<Msg>
  {
    if body == [] then None
    else if body[0] == SUB_SYNC then
      if |body| < 2 then None
      else
        match GetCounted(GetUpdate, body[2..])
        case None => None
        case Some(us) => Some(Sync(body[1] != 0, us))
    else if body[0] == SUB_GOSSIP then
      match GetCounted(GetUpdate, body[1..])
      case None => None
      case Some(us) => Some(Gossip(us))
    else if body[0] == SUB_DIGEST then
      match GetCounted(GetPair, body[1..])
      case None => None
      case Some(es) => Some(Digest(es))
    else None
  }

  predicate Encodable(m: Msg)
  {
    if m.Digest? then |m.entries| < 0x1_0000 && forall e | e in m.entries :: PairFits(e)
    else |m.updates| < 0x1_0000 && forall u | u in m.updates :: Fits(u)
  }

  lemma UpdatesRoundTripIff(us: seq<Update>)
    ensures GetCounted(GetUpdate, PutCounted(PutUpdate, us)) == Some(us) <==>
      |us| < 0x1_0000 && forall u | u in us :: Fits(u)
  {
    forall b ensures GetUpdate(b).Some? ==> Fits(GetUpdate(b).value.0) {
      GetUpdateFits(b);
    }
    CountedYields(GetUpdate, PutCounted(PutUpdate, us), Fits);
    if forall u | u in us :: Fits(u) {
      forall u | u in us ensures Inverse(PutUpdate, GetUpdate, u) {
        forall r ensures GetUpdate(PutUpdate(u) + r) == Some((u, r)) {
          GetUpdatePut(u, r);
        }
      }
      CountedRoundTripIff(PutUpdate, GetUpdate, us);
    }
  }

  lemma EntriesRoundTripIff(es: seq<(NodeId, nat)>)
    ensures GetCounted(GetPair, PutCounted(PutPair, es)) == Some(es) <==>
      |es| < 0x1_0000 && forall e | e in es :: PairFits(e)
  {
    forall b ensures GetPair(b).Some? ==> PairFits(GetPair(b).value.0) {
      GetPairFits(b);
    }
    CountedYields(GetPair, PutCounted(PutPair, es), PairFits);
    if forall e | e in es :: PairFits(e) {
      forall e | e in es ensures Inverse(PutPair, GetPair, e) {
        forall r ensures GetPair(PutPair(e) + r) == Some((e, r)) {
          GetPairPut(e, r);
        }
      }
      CountedRoundTripIff(PutPair, GetPair, es);
    }
  }

  /** The tags on the wire: 1 a sync, 2 gossip, 3 a digest; 0 alive, 1 suspect, 2 dead. */
  lemma TagsOnWire(m: Msg, u: Update)
    ensures Encode(m)[0] == if m.Sync? then 1 else if m.Gossip? then 2 else 3
    ensures PutUpdate(u)[2] == if u.state.Alive? then 0 else if u.state.Suspect? then 1 else 2
  {
  }

  lemma BehindTag(tag: byte, flag: byte, rest: seq<byte>)
    ensures ([tag] + rest)[1..] == rest
    ensures ([tag] + ([flag] + rest))[2..] == rest
  {
  }

  lemma DecodeParts(m: Msg)
    ensures match m
      case Sync(reply, us) => Encode(m)[0] == SUB_SYNC && (Encode(m)[1] != 0 <==> reply) &&
        Encode(m)[2..] == PutCounted(PutUpdate, us)
      case Gossip(us) => Encode(m)[0] == SUB_GOSSIP && Encode(m)[1..] == PutCounted(PutUpdate, us)
      case Digest(es) => Encode(m)[0] == SUB_DIGEST && Encode(m)[1..] == PutCounted(PutPair, es)
  {
    match m
    case Sync(reply, us) => BehindTag(SUB_SYNC, if reply then 1 else 0, PutCounted(PutUpdate, us));
    case Gossip(us) => BehindTag(SUB_GOSSIP, 0, PutCounted(PutUpdate, us));
    case Digest(es) => BehindTag(SUB_DIGEST, 0, PutCounted(PutPair, es));
  }

  /** A message survives the wire exactly when its count fits 16 bits and every incarnation fits 32. */
  lemma RoundTripIff(m: Msg)
    ensures Decode(Encode(m)) == Some(m) <==> Encodable(m)
  {
    DecodeParts(m);
    match m
    case Sync(_, us) => UpdatesRoundTripIff(us);
    case Gossip(us) => UpdatesRoundTripIff(us);
    case Digest(es) => EntriesRoundTripIff(es);
  }

  /** Decoding as the code does it, one item at a time. */
  method DecodeBody(body: seq<byte>) returns (r: Option<Msg>)
    ensures r == Decode(body)
  {
    if body == [] || (body[0] == SUB_SYNC && |body| < 2) || !(1 <= body[0] <= 3) {
      return None;
    }
    var rest := if body[0] == SUB_SYNC then body[2..] else body[1..];
    var n := GetLe(rest, 2);
    if n == None {
      return None;
    }
    if body[0] == SUB_DIGEST {
      var es := ReadAll(GetPair, n.value.0, n.value.1);
      return if es == None then None else Some(Digest(es.value.0));
    }
    var us := ReadAll(GetUpdate, n.value.0, n.value.1);
    if us == None {
      return None;
    }
    return Some(if body[0] == SUB_SYNC then Sync(body[1] != 0, us.value.0) else Gossip(us.value.0));
  }
}
