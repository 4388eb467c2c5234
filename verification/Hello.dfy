/** The HELLO body that opens every mesh link (crates/mesh/src/hello.rs). */
module Hello {
  import opened Prelude
  import opened Wire

  type Bytes32 = s: seq<byte> | |s| == 32 witness seq(32, _ => 0)

  datatype Hello = Hello(
    version: u16,
    nodeId: u16,
    incarnation: u64,
    maxFrame: u32,
    features: bv32,
    salt: Bytes32,
    clusterName: Name)

  datatype HelloError = BadMagic | Truncated | ClusterNameTooLong(len: nat) | ClusterNameNotUtf8

  /** "BSMH" */
  const MESH_MAGIC: seq<byte> := [0x42, 0x53, 0x4D, 0x48]
  const FIXED_PREFIX: nat := 58
  const MAX_CLUSTER_NAME_LEN: nat := 255

  function Numbers(h: Hello): (r: seq<byte>)
    ensures |r| == 20
  {
    Le(h.version, 2) + Le(h.nodeId, 2) + Le(h.incarnation, 8) + Le(h.maxFrame, 4) + Le(h.features as nat, 4)
  }

  function Encode(h: Hello): (r: seq<byte>)
    ensures |r| == FIXED_PREFIX + |h.clusterName|
  {
    MESH_MAGIC + Numbers(h) + h.salt + Le(|h.clusterName|, 2) + h.clusterName
  }

  function Le16At(b: seq<byte>, i: nat): u16
    requires i + 2 <= |b|
  {
    FromLeBound(b[i..i + 2]);
    PowValues();
    FromLe(b[i..i + 2])
  }

  function Le32At(b: seq<byte>, i: nat): u32
    requires i + 4 <= |b|
  {
    FromLeBound(b[i..i + 4]);
    PowValues();
    FromLe(b[i..i + 4])
  }

  function Le64At(b: seq<byte>, i: nat): u64
    requires i + 8 <= |b|
  {
    FromLeBound(b[i..i + 8]);
    PowValues();
    FromLe(b[i..i + 8])
  }

  /** Trailing bytes beyond the known fields are tolerated. */
  function Decode(body: seq<byte>): Result<Hello, HelloError>
  {
    if |body| < FIXED_PREFIX then Err(Truncated)
    else if body[..4] != MESH_MAGIC then Err(BadMagic)
    else
      var nameLen := Le16At(body, 56);
      var nameEnd := FIXED_PREFIX + nameLen;
      if nameLen > MAX_CLUSTER_NAME_LEN then Err(ClusterNameTooLong(nameLen))
      else if |body| < nameEnd then Err(Truncated)
      else if !ValidUtf8(body[FIXED_PREFIX..nameEnd]) then Err(ClusterNameNotUtf8)
      else Ok(Hello(Le16At(body, 4), Le16At(body, 6), Le64At(body, 8), Le32At(body, 16),
                    Le32At(body, 20) as bv32, body[24..56], body[FIXED_PREFIX..nameEnd]))
  }

  lemma NumbersSlices(h: Hello)
    ensures var r := Numbers(h);
      && r[0..2] == Le(h.version, 2) && r[2..4] == Le(h.nodeId, 2) && r[4..12] == Le(h.incarnation, 8)
      && r[12..16] == Le(h.maxFrame, 4) && r[16..20] == Le(h.features as nat, 4)
  {
    FiveParts(Le(h.version, 2), Le(h.nodeId, 2), Le(h.incarnation, 8), Le(h.maxFrame, 4), Le(h.features as nat, 4));
  }

  lemma FiveParts(a: seq<byte>, b: seq<byte>, c: seq<byte>, d: seq<byte>, e: seq<byte>)
    requires |a| == 2 && |b| == 2 && |c| == 8 && |d| == 4 && |e| == 4
    ensures var r := a + b + c + d + e;
      r[0..2] == a && r[2..4] == b && r[4..12] == c && r[12..16] == d && r[16..20] == e
  {
  }

  lemma NumbersAt(h: Hello)
    ensures var r := Numbers(h);
      && FromLe(r[0..2]) == h.version && FromLe(r[2..4]) == h.nodeId && FromLe(r[4..12]) == h.incarnation
      && FromLe(r[12..16]) == h.maxFrame && FromLe(r[16..20]) == h.features as nat
  {
    PowValues();
    NumbersSlices(h);
    LeRoundTrip(h.version, 2);
    LeRoundTrip(h.nodeId, 2);
    LeRoundTrip(h.incarnation, 8);
    LeRoundTrip(h.maxFrame, 4);
    LeRoundTrip(h.features as nat, 4);
  }

  lemma EncodedParts(h: Hello, tail: seq<byte>)
    ensures var b := Encode(h) + tail;
      && b[..4] == MESH_MAGIC && b[4..24] == Numbers(h) && b[24..56] == h.salt
      && b[56..58] == Le(|h.clusterName|, 2)
      && b[58..58 + |h.clusterName|] == h.clusterName
  {
  }

  lemma SliceOfSlice(b: seq<byte>, lo: nat, hi: nat, i: nat, j: nat)
    requires i <= j && lo + j <= hi <= |b|
    ensures b[lo..hi][i..j] == b[lo + i..lo + j]
  {
    forall k | 0 <= k < j - i ensures b[lo..hi][i..j][k] == b[lo + i..lo + j][k] {
      assert b[lo..hi][i + k] == b[lo + i + k];
    }
  }

  lemma NumbersDecode(h: Hello, b: seq<byte>)
    requires |b| >= 24 && b[4..24] == Numbers(h)
    ensures Le16At(b, 4) == h.version && Le16At(b, 6) == h.nodeId && Le64At(b, 8) == h.incarnation
    ensures Le32At(b, 16) == h.maxFrame && Le32At(b, 20) as bv32 == h.features
  {
    NumbersAt(h);
    var r := Numbers(h);
    SliceOfSlice(b, 4, 24, 0, 2);
    SliceOfSlice(b, 4, 24, 2, 4);
    SliceOfSlice(b, 4, 24, 4, 12);
    SliceOfSlice(b, 4, 24, 12, 16);
    SliceOfSlice(b, 4, 24, 16, 20);
    assert b[4..24][0..2] == r[0..2];
  }

  /** A HELLO is read back, with any fields a later version appends, exactly when its name fits the cap. */
  lemma DecodeEncodeIff(h: Hello, tail: seq<byte>)
    ensures Decode(Encode(h) + tail) == Ok(h) <==> |h.clusterName| <= MAX_CLUSTER_NAME_LEN
    ensures Decode(Encode(h) + tail).Ok? ==> |Decode(Encode(h) + tail).value.clusterName| <= MAX_CLUSTER_NAME_LEN
  {
    var b := Encode(h) + tail;
    EncodedParts(h, tail);
    if |h.clusterName| <= MAX_CLUSTER_NAME_LEN {
      PowValues();
      LeRoundTrip(|h.clusterName|, 2);
      NumbersDecode(h, b);
    }
  }

  /** Two exact encodings, concatenated, determine both HELLOs: the transcript is unambiguous. */
  lemma TranscriptInjective(a: Hello, b: Hello, a': Hello, b': Hello)
    requires |a.clusterName| <= MAX_CLUSTER_NAME_LEN && |a'.clusterName| <= MAX_CLUSTER_NAME_LEN
    requires |b.clusterName| <= MAX_CLUSTER_NAME_LEN && |b'.clusterName| <= MAX_CLUSTER_NAME_LEN
    requires Encode(a) + Encode(b) == Encode(a') + Encode(b')
    ensures a == a' && b == b'
  {
    DecodeEncodeIff(a, Encode(b));
    DecodeEncodeIff(a', Encode(b'));
    assert a == a';
    var t := Encode(a) + Encode(b);
    assert t[|Encode(a)|..] == Encode(b) && t[|Encode(a')|..] == Encode(b');
    DecodeEncodeIff(b, []);
    DecodeEncodeIff(b', []);
    assert Encode(b) + [] == Encode(b) && Encode(b') + [] == Encode(b');
  }
}
