/** Bodies of the INTEREST (0x05) and INTEREST_DIGEST (0x06) frames. */
module InterestCodec {
  import opened Prelude
  import opened Wire
  import opened Interest

  const U_EDGE: byte := 1
  const U_SNAPSHOT: byte := 2
  const T_ROOM: byte := 1
  const T_USER: byte := 2

  datatype Update = EdgeUpdate(edge: Edge) | SnapshotUpdate(snap: Snapshot)

  /** The values the wire format can carry: 64-bit versions, and names and lists counted by 16 bits. */
  predicate ShortName(s: Name)
  {
    |s| < 0x1_0000
  }

  predicate ShortList(names: seq<Name>)
  {
    |names| < 0x1_0000 && forall n | n in names :: ShortName(n)
  }

  predicate Encodable(u: Update)
  {
    match u
    case EdgeUpdate(e) => e.version < 0x1_0000_0000_0000_0000 && ShortName(e.target.name)
    case SnapshotUpdate(s) => s.version < 0x1_0000_0000_0000_0000 && ShortList(s.rooms) && ShortList(s.users)
  }

  function PutTarget(t: Target): seq<byte>
  {
    [if t.Room? then T_ROOM else T_USER] + PutStr(t.name)
  }

  function GetTarget(buf: seq<byte>): Option<(Target, seq<byte>)>
  {
    if buf == [] then None
    else
      match GetStr(buf[1..])
      case None => None
      case Some((s, rest)) =>
        if buf[0] == T_ROOM then Some((Room(s), rest))
        else if buf[0] == T_USER then Some((User(s), rest))
        else None
  }

  function PutStrs(items: seq<Name>): seq<byte>
  {
    Le(|items|, 2) + PutAll(PutStr, items)
  }

  function GetStrs(buf: seq<byte>): Option<(seq<Name>, seq<byte>)>
  {
    match GetLe(buf, 2)
    case None => None
    case Some((n, rest)) => GetAll(GetStr, n, rest)
  }

  function Header(sub: byte, origin: NodeId, version: nat): seq<byte>
  {
    [sub] + Le(origin, 2) + Le(version, 8)
  }

  function Encode(u: Update): seq<byte>
  {
    match u
    case EdgeUpdate(e) =>
      Header(U_EDGE, e.origin, e.version) + [if e.add then 1 else 0] + PutTarget(e.target)
    case SnapshotUpdate(s) =>
      Header(U_SNAPSHOT, s.origin, s.version) + PutStrs(s.rooms) + PutStrs(s.users)
  }

  function DecodeEdge(origin: NodeId, version: nat, rest: seq<byte>): Option<Update>
  {
    if rest == [] then None
    else
      match GetTarget(rest[1..])
      case None => None
      case Some((t, _)) => Some(EdgeUpdate(Edge(origin, version, rest[0] != 0, t)))
  }

  function DecodeSnapshot(origin: NodeId, version: nat, rest: seq<byte>): Option<Update>
  {
    match GetStrs(rest)
    case None => None
    case Some((rooms, rest')) =>
      match GetStrs(rest')
      case None => None
      case Some((users, _)) => Some(SnapshotUpdate(Snapshot(origin, version, rooms, users)))
  }

  function Decode(body: seq<byte>): Option<Update>
  {
    if body == [] then None
    else
      match GetU16(body[1..])
      case None => None
      case Some((origin, rest)) =>
        match GetLe(rest, 8)
        case None => None
        case Some((version, rest')) =>
          if body[0] == U_EDGE then DecodeEdge(origin, version, rest')
          else if body[0] == U_SNAPSHOT then DecodeSnapshot(origin, version, rest')
          else None
  }

  lemma GetStrsPut(items: seq<Name>, rest: seq<byte>)
    requires ShortList(items)
    ensures GetStrs(PutStrs(items) + rest) == Some((items, rest))
  {
    var tail := PutAll(PutStr, items) + rest;
    assert PutStrs(items) + rest == Le(|items|, 2) + tail;
    Get16(|items|, tail);
    forall x | x in items ensures Inverse(PutStr, GetStr, x) {
      forall r ensures GetStr(PutStr(x) + r) == Some((x, r)) {
        GetStrPut(x, r);
      }
    }
    GetAllPutAll(PutStr, GetStr, items, rest);
  }

  lemma DecodeHeader(sub: byte, origin: NodeId, version: u64, rest: seq<byte>)
    ensures var body := Header(sub, origin, version) + rest;
      && body[0] == sub
      && GetU16(body[1..]) == Some((origin, Le(version, 8) + rest))
      && GetLe(Le(version, 8) + rest, 8) == Some((version, rest))
  {
    var body := Header(sub, origin, version) + rest;
    assert body[1..] == Le(origin, 2) + (Le(version, 8) + rest);
    Get16(origin, Le(version, 8) + rest);
    Get64(version, rest);
  }

  lemma DecodeEdgeTail(e: Edge, tail: seq<byte>)
    requires ShortName(e.target.name)
    ensures DecodeEdge(e.origin, e.version, [if e.add then 1 else 0] + (PutTarget(e.target) + tail)) ==
      Some(EdgeUpdate(e))
  {
    var rest := PutTarget(e.target) + tail;
    assert ([if e.add then 1 else 0] + rest)[1..] == rest;
    assert rest[1..] == PutStr(e.target.name) + tail;
    GetStrPut(e.target.name, tail);
  }

  lemma DecodeSnapshotTail(s: Snapshot, tail: seq<byte>)
    requires ShortList(s.rooms) && ShortList(s.users)
    ensures DecodeSnapshot(s.origin, s.version, PutStrs(s.rooms) + (PutStrs(s.users) + tail)) == Some(SnapshotUpdate(s))
  {
    GetStrsPut(s.rooms, PutStrs(s.users) + tail);
    GetStrsPut(s.users, tail);
  }

  /** Whatever follows the body (a later protocol's extra fields) is ignored. */
  lemma DecodeEncode(u: Update, tail: seq<byte>)
    requires Encodable(u)
    ensures Decode(Encode(u) + tail) == Some(u)
  {
    match u
    case EdgeUpdate(e) =>
      var rest := [if e.add then 1 else 0] + (PutTarget(e.target) + tail);
      assert Encode(u) + tail == Header(U_EDGE, e.origin, e.version) + rest;
      DecodeHeader(U_EDGE, e.origin, e.version, rest);
      DecodeEdgeTail(e, tail);
    case SnapshotUpdate(s) =>
      var rest := PutStrs(s.rooms) + (PutStrs(s.users) + tail);
      assert Encode(u) + tail == Header(U_SNAPSHOT, s.origin, s.version) + rest;
      DecodeHeader(U_SNAPSHOT, s.origin, s.version, rest);
      DecodeSnapshotTail(s, tail);
  }

  lemma GetStrsShort(buf: seq<byte>)
    ensures GetStrs(buf).Some? ==> ShortList(GetStrs(buf).value.0)
  {
    GetLeBound(buf, 2);
    PowValues();
    if GetLe(buf, 2).Some? {
      var (n, rest) := GetLe(buf, 2).value;
      forall b ensures GetStr(b).Some? ==> ShortName(GetStr(b).value.0) {
        GetStrBound(b);
      }
      GetAllYields(GetStr, n, rest, ShortName);
    }
  }

  lemma DecodedIsEncodable(body: seq<byte>)
    ensures Decode(body).Some? ==> Encodable(Decode(body).value)
  {
    PowValues();
    if body != [] && GetU16(body[1..]).Some? {
      var (origin, rest) := GetU16(body[1..]).value;
      GetLeBound(rest, 8);
      if GetLe(rest, 8).Some? {
        var (_, rest') := GetLe(rest, 8).value;
        if rest' != [] && rest'[1..] != [] {
          GetStrBound(rest'[1..][1..]);
        }
        GetStrsShort(rest');
        if GetStrs(rest').Some? {
          GetStrsShort(GetStrs(rest').value.1);
        }
      }
    }
  }

  /** An update survives the wire exactly when its lengths fit the 16-bit counts and its version 64 bits. */
  lemma RoundTripIff(u: Update)
    ensures Decode(Encode(u)) == Some(u) <==> Encodable(u)
  {
    DecodedIsEncodable(Encode(u));
    if Encodable(u) {
      assert Encode(u) + [] == Encode(u);
      DecodeEncode(u, []);
    }
  }

  /** The tags on the wire: 1 an edge, 2 a snapshot; within an edge, 1 a room, 2 a user. */
  lemma TagsOnWire(u: Update, t: Target)
    ensures Encode(u)[0] == if u.EdgeUpdate? then 1 else 2
    ensures PutTarget(t)[0] == if t.Room? then 1 else 2
  {
  }

  /** Encoding as the code does it, appending to one buffer. */
  method EncodeUpdate(u: Update) returns (buf: seq<byte>)
    ensures buf == Encode(u)
  {
    match u
    case EdgeUpdate(e) =>
      buf := [U_EDGE] + Le(e.origin, 2) + Le(e.version, 8) + [if e.add then 1 else 0] + PutTarget(e.target);
    case SnapshotUpdate(s) =>
      buf := [U_SNAPSHOT] + Le(s.origin, 2) + Le(s.version, 8) + Le(|s.rooms|, 2);
      buf := AppendAll(buf, PutStr, s.rooms);
      buf := AppendAll(buf + Le(|s.users|, 2), PutStr, s.users);
  }

  // ── digests ──

  datatype DigestEntry = DigestEntry(origin: NodeId, version: u64, hash: u64)

  function PutEntry(e: DigestEntry): seq<byte>
  {
    Le(e.origin, 2) + Le(e.version, 8) + Le(e.hash, 8)
  }

  function GetEntry(buf: seq<byte>): Option<(DigestEntry, seq<byte>)>
  {
    match GetU16(buf)
    case None => None
    case Some((origin, r1)) =>
      match GetU64(r1)
      case None => None
      case Some((version, r2)) =>
        match GetU64(r2)
        case None => None
        case Some((hash, r3)) => Some((DigestEntry(origin, version, hash), r3))
  }

  function EncodeDigest(entries: seq<DigestEntry>): seq<byte>
  {
    Le(|entries|, 2) + PutAll(PutEntry, entries)
  }

  function DecodeDigest(body: seq<byte>): Option<seq<DigestEntry>>
  {
    match GetLe(body, 2)
    case None => None
    case Some((n, rest)) =>
      match GetAll(GetEntry, n, rest)
      case None => None
      case Some((entries, _)) => Some(entries)
  }

  lemma GetEntryPut(e: DigestEntry, rest: seq<byte>)
    ensures GetEntry(PutEntry(e) + rest) == Some((e, rest))
  {
    var r1 := Le(e.version, 8) + (Le(e.hash, 8) + rest);
    assert PutEntry(e) + rest == Le(e.origin, 2) + r1;
    Get16(e.origin, r1);
    Get64(e.version, Le(e.hash, 8) + rest);
    Get64(e.hash, rest);
  }

  /** A digest survives the wire exactly when it lists fewer than 65536 origins. */
  lemma DigestRoundTripIff(entries: seq<DigestEntry>)
    ensures DecodeDigest(EncodeDigest(entries)) == Some(entries) <==> |entries| < 0x1_0000
  {
    var body := EncodeDigest(entries);
    GetLeBound(body, 2);
    PowValues();
    var (n, rest) := GetLe(body, 2).value;
    GetAllYields(GetEntry, n, rest, (e: DigestEntry) => true);
    if |entries| < 0x1_0000 {
      Get16(|entries|, PutAll(PutEntry, entries));
      forall e | e in entries ensures Inverse(PutEntry, GetEntry, e) {
        forall r ensures GetEntry(PutEntry(e) + r) == Some((e, r)) {
          GetEntryPut(e, r);
        }
      }
      GetAllPutAll(PutEntry, GetEntry, entries, []);
      assert PutAll(PutEntry, entries) + [] == PutAll(PutEntry, entries);
    }
  }

  method DecodeDigestBody(body: seq<byte>) returns (r: Option<seq<DigestEntry>>)
    ensures r == DecodeDigest(body)
  {
    match GetLe(body, 2)
    case None =>
      return None;
    case Some((n, rest)) =>
      var entries := ReadAll(GetEntry, n, rest);
      match entries
      case None =>
        return None;
      case Some((es, _)) =>
        return Some(es);
  }
}
