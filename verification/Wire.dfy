/**
 * Bytes on the wire: little-endian integers, UTF-8 names and counted lists.
 *
 * Readers take the unread suffix of the buffer and return the value together
 * with the suffix that is still unread, which stands for the offset the code advances.
 */
module Wire {
  import opened Prelude
  import opened Ordering

  type byte = b: int | 0 <= b < 256

  type u16 = n: nat | n < 0x1_0000
  type u32 = n: nat | n < 0x1_0000_0000
  type u64 = n: nat | n < 0x1_0000_0000_0000_0000

  // ── little-endian integers ──

  function Pow256(k: nat): (p: nat)
    ensures p > 0
  {
    if k == 0 then 1 else 256 * Pow256(k - 1)
  }

  lemma PowValues()
    ensures Pow256(2) == 0x1_0000
    ensures Pow256(4) == 0x1_0000_0000
    ensures Pow256(8) == 0x1_0000_0000_0000_0000
  {
    assert Pow256(3) == 0x100_0000;
    assert Pow256(5) == 0x100_0000_0000;
    assert Pow256(6) == 0x1_0000_0000_0000;
    assert Pow256(7) == 0x100_0000_0000_0000;
  }

  /** The `k` low bytes of `n`, least significant first; a wider `n` is truncated, as an `as u16` cast does. */
  function Le(n: nat, k: nat): (r: seq<byte>)
    ensures |r| == k
  {
    if k == 0 then [] else [n % 256] + Le(n / 256, k - 1)
  }

  function FromLe(b: seq<byte>): nat
  {
    if b == [] then 0 else b[0] + 256 * FromLe(b[1..])
  }

  lemma {:induction false} FromLeBound(b: seq<byte>)
    ensures FromLe(b) < Pow256(|b|)
  {
    if b != [] {
      FromLeBound(b[1..]);
    }
  }

  lemma {:induction false} LeRoundTrip(n: nat, k: nat)
    requires n < Pow256(k)
    ensures FromLe(Le(n, k)) == n
  {
    if k > 0 {
      LeRoundTrip(n / 256, k - 1);
      assert Le(n, k)[1..] == Le(n / 256, k - 1);
    }
  }

  // ── readers ──

  function GetLe(buf: seq<byte>, k: nat): Option<(nat, seq<byte>)>
  {
    if |buf| < k then None else Some((FromLe(buf[..k]), buf[k..]))
  }

  lemma {:induction false} LeOfFromLe(b: seq<byte>)
    ensures Le(FromLe(b), |b|) == b
  {
    if b != [] {
      LeOfFromLe(b[1..]);
      var n := FromLe(b);
      assert n % 256 == b[0] && n / 256 == FromLe(b[1..]);
    }
  }

  lemma GetLePut(n: nat, k: nat, rest: seq<byte>)
    requires n < Pow256(k)
    ensures GetLe(Le(n, k) + rest, k) == Some((n, rest))
  {
    LeRoundTrip(n, k);
    var buf := Le(n, k) + rest;
    assert buf[..k] == Le(n, k) && buf[k..] == rest;
  }

  lemma GetLeBound(buf: seq<byte>, k: nat)
    ensures GetLe(buf, k).Some? ==> GetLe(buf, k).value.0 < Pow256(k)
  {
    if |buf| >= k {
      FromLeBound(buf[..k]);
    }
  }

  function GetU16(buf: seq<byte>): Option<(u16, seq<byte>)>
  {
    GetLeBound(buf, 2);
    PowValues();
    match GetLe(buf, 2)
    case None => None
    case Some((n, rest)) => Some((n, rest))
  }

  function GetU64(buf: seq<byte>): Option<(u64, seq<byte>)>
  {
    GetLeBound(buf, 8);
    PowValues();
    match GetLe(buf, 8)
    case None => None
    case Some((n, rest)) => Some((n, rest))
  }

  lemma Get16(n: u16, rest: seq<byte>)
    ensures GetLe(Le(n, 2) + rest, 2) == Some((n, rest)) && GetU16(Le(n, 2) + rest) == Some((n, rest))
  {
    PowValues();
    GetLePut(n, 2, rest);
  }

  lemma Get32(n: u32, rest: seq<byte>)
    ensures GetLe(Le(n, 4) + rest, 4) == Some((n, rest))
  {
    PowValues();
    GetLePut(n, 4, rest);
  }

  lemma Get64(n: u64, rest: seq<byte>)
    ensures GetLe(Le(n, 8) + rest, 8) == Some((n, rest)) && GetU64(Le(n, 8) + rest) == Some((n, rest))
  {
    PowValues();
    GetLePut(n, 8, rest);
  }

  // ── UTF-8 ──

  predicate Continuation(b: byte)
  {
    0x80 <= b < 0xC0
  }

  /** Length of the well-formed scalar at the front of `s`, or 0 when there is none. */
  function ScalarLength(s: seq<byte>): (n: nat)
    ensures n <= |s|
  {
    if s == [] then 0
    else if s[0] < 0x80 then 1
    else if 0xC2 <= s[0] < 0xE0 then
      if |s| >= 2 && Continuation(s[1]) then 2 else 0
    else if 0xE0 <= s[0] < 0xF0 then
      if |s| >= 3 && Continuation(s[1]) && Continuation(s[2])
         && (s[0] == 0xE0 ==> s[1] >= 0xA0) && (s[0] == 0xED ==> s[1] < 0xA0)
      then 3 else 0
    else if 0xF0 <= s[0] < 0xF5 then
      if |s| >= 4 && Continuation(s[1]) && Continuation(s[2]) && Continuation(s[3])
         && (s[0] == 0xF0 ==> s[1] >= 0x90) && (s[0] == 0xF4 ==> s[1] < 0x90)
      then 4 else 0
    else 0
  }

  predicate ValidUtf8(s: seq<byte>)
  {
    s == [] || (ScalarLength(s) > 0 && ValidUtf8(s[ScalarLength(s)..]))
  }

  lemma {:induction false} AsciiIsUtf8(s: seq<byte>)
    requires forall i :: 0 <= i < |s| ==> s[i] < 0x80
    ensures ValidUtf8(s)
  {
    if s != [] {
      AsciiIsUtf8(s[1..]);
    }
  }

  /** A Rust `String`, as the bytes `as_bytes` returns. */
  type Name = s: seq<byte> | ValidUtf8(s) witness []

  // ── names ──

  function PutStr(s: Name): seq<byte>
  {
    Le(|s|, 2) + s
  }

  function GetStr(buf: seq<byte>): Option<(Name, seq<byte>)>
  {
    match GetLe(buf, 2)
    case None => None
    case Some((n, rest)) =>
      if |rest| < n || !ValidUtf8(rest[..n]) then None else Some((rest[..n], rest[n..]))
  }

  lemma GetStrPut(s: Name, rest: seq<byte>)
    requires |s| < 0x1_0000
    ensures GetStr(PutStr(s) + rest) == Some((s, rest))
  {
    assert PutStr(s) + rest == Le(|s|, 2) + (s + rest);
    Get16(|s|, s + rest);
    assert (s + rest)[..|s|] == s && (s + rest)[|s|..] == rest;
  }

  lemma GetStrBound(buf: seq<byte>)
    ensures GetStr(buf).Some? ==> |GetStr(buf).value.0| < 0x1_0000
  {
    GetLeBound(buf, 2);
    PowValues();
  }

  /** Lexicographic order of byte strings. */
  predicate BytesLeq(a: seq<byte>, b: seq<byte>)
  {
    a == [] || (b != [] && (a[0] < b[0] || (a[0] == b[0] && BytesLeq(a[1..], b[1..]))))
  }

  lemma {:induction false} BytesLeqConnected(a: seq<byte>, b: seq<byte>)
    ensures BytesLeq(a, b) || BytesLeq(b, a)
    ensures BytesLeq(a, b) && BytesLeq(b, a) ==> a == b
  {
    if a != [] && b != [] && a[0] == b[0] {
      BytesLeqConnected(a[1..], b[1..]);
      assert a == [a[0]] + a[1..] && b == [b[0]] + b[1..];
    }
  }

  lemma {:induction false} BytesLeqTransitive(a: seq<byte>, b: seq<byte>, c: seq<byte>)
    requires BytesLeq(a, b) && BytesLeq(b, c)
    ensures BytesLeq(a, c)
  {
    if a != [] && a[0] == b[0] == c[0] {
      BytesLeqTransitive(a[1..], b[1..], c[1..]);
    }
  }

  /** The order in which a `BTreeSet<String>` iterates. */
  predicate NameLeq(a: Name, b: Name)
  {
    BytesLeq(a, b)
  }

  lemma NameLeqTotal()
    ensures TotalOrder(NameLeq)
  {
    forall a: Name, b: Name
      ensures (NameLeq(a, b) || NameLeq(b, a)) && (NameLeq(a, b) && NameLeq(b, a) ==> a == b)
    {
      BytesLeqConnected(a, b);
    }
    forall a: Name, b: Name, c: Name | NameLeq(a, b) && NameLeq(b, c)
      ensures NameLeq(a, c)
    {
      BytesLeqTransitive(a, b, c);
    }
  }

  // ── lists ──

  function PutAll<T>(put: T -> seq<byte>, xs: seq<T>): seq<byte>
  {
    if xs == [] then [] else put(xs[0]) + PutAll(put, xs[1..])
  }

  function GetAll<T>(get: seq<byte> -> Option<(T, seq<byte>)>, n: nat, buf: seq<byte>): Option<(seq<T>, seq<byte>)>
  {
    if n == 0 then Some(([], buf))
    else
      match get(buf)
      case None => None
      case Some((x, rest)) =>
        match GetAll(get, n - 1, rest)
        case None => None
        case Some((xs, rest')) => Some(([x] + xs, rest'))
  }

  /** `get` reads back what `put` wrote for `x`, whatever follows. */
  ghost predicate Inverse<T(!new)>(put: T -> seq<byte>, get: seq<byte> -> Option<(T, seq<byte>)>, x: T)
  {
    forall rest :: get(put(x) + rest) == Some((x, rest))
  }

  lemma {:induction false} GetAllPutAll<T(!new)>(put: T -> seq<byte>,
    get: seq<byte> -> Option<(T, seq<byte>)>, xs: seq<T>, rest: seq<byte>)
    requires forall x | x in xs :: Inverse(put, get, x)
    ensures GetAll(get, |xs|, PutAll(put, xs) + rest) == Some((xs, rest))
  {
    if xs == [] {
      assert PutAll(put, xs) + rest == rest;
    } else {
      assert Inverse(put, get, xs[0]);
      GetAllPutAll(put, get, xs[1..], rest);
      assert PutAll(put, xs) + rest == put(xs[0]) + (PutAll(put, xs[1..]) + rest);
      assert xs == [xs[0]] + xs[1..];
    }
  }

  /** A property of everything `get` yields holds of every item of the list, and the list has the counted length. */
  lemma {:induction false} GetAllYields<T(!new)>(get: seq<byte> -> Option<(T, seq<byte>)>, n: nat,
    buf: seq<byte>, p: T -> bool)
    requires forall b :: get(b).Some? ==> p(get(b).value.0)
    ensures var r := GetAll(get, n, buf); r.Some? ==> |r.value.0| == n && forall x | x in r.value.0 :: p(x)
  {
    if n > 0 && get(buf).Some? {
      GetAllYields(get, n - 1, get(buf).value.1, p);
    }
  }

  lemma {:induction false} PutAllSnoc<T>(put: T -> seq<byte>, xs: seq<T>, x: T)
    ensures PutAll(put, xs + [x]) == PutAll(put, xs) + put(x)
  {
    if xs == [] {
      assert PutAll(put, [x]) == put(x) + PutAll(put, []);
    } else {
      PutAllSnoc(put, xs[1..], x);
      assert (xs + [x])[1..] == xs[1..] + [x];
    }
  }

  /** The encoders' loop: append each item's encoding to the buffer. */
  method AppendAll<T>(buf: seq<byte>, put: T -> seq<byte>, xs: seq<T>) returns (out: seq<byte>)
    ensures out == buf + PutAll(put, xs)
  {
    out := buf;
    for i := 0 to |xs|
      invariant out == buf + PutAll(put, xs[..i])
    {
      PutAllSnoc(put, xs[..i], xs[i]);
      assert xs[..i + 1] == xs[..i] + [xs[i]];
      out := out + put(xs[i]);
    }
    assert xs[..|xs|] == xs;
  }

  ghost function Behind<T>(xs: seq<T>, r: Option<(seq<T>, seq<byte>)>): Option<(seq<T>, seq<byte>)>
  {
    match r
    case None => None
    case Some((ys, rest)) => Some((xs + ys, rest))
  }

  lemma BehindNothing<T>(r: Option<(seq<T>, seq<byte>)>)
    ensures Behind([], r) == r
  {
    if r.Some? {
      assert [] + r.value.0 == r.value.0;
    }
  }

  lemma BehindOne<T>(xs: seq<T>, x: T, r: Option<(seq<T>, seq<byte>)>)
    ensures Behind(xs, Behind([x], r)) == Behind(xs + [x], r)
  {
    if r.Some? {
      assert xs + ([x] + r.value.0) == (xs + [x]) + r.value.0;
    }
  }

  /** The decoders' loop: read `n` items in order, giving up at the first that fails. */
  method ReadAll<T>(get: seq<byte> -> Option<(T, seq<byte>)>, n: nat, buf: seq<byte>)
    returns (r: Option<(seq<T>, seq<byte>)>)
    ensures r == GetAll(get, n, buf)
  {
    var xs, rest := [], buf;
    BehindNothing(GetAll(get, n, buf));
    for i := 0 to n
      invariant GetAll(get, n, buf) == Behind(xs, GetAll(get, n - i, rest))
    {
      match get(rest)
      case None =>
        return None;
      case Some((x, rest')) =>
        BehindOne(xs, x, GetAll(get, n - i - 1, rest'));
        xs, rest := xs + [x], rest';
    }
    assert GetAll(get, 0, rest) == Some(([], rest)) && xs + [] == xs;
    return Some((xs, rest));
  }
}
