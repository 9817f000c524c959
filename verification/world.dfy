/** The planet and moon file: nested binary serialization of a world and its roots. */
module World {
  import opened Basics
  import opened ByteOrder

  const MAX_ROOTS: nat := 4
  const MAX_ENDPOINTS: nat := 32
  const PUBLIC_KEY_LEN: nat := 64
  const PRIVATE_KEY_LEN: nat := 64
  const SIGNATURE_LEN: nat := 96
  const MAX_LENGTH: nat := (1024 + 32 * MAX_ENDPOINTS) * MAX_ROOTS + PUBLIC_KEY_LEN + SIGNATURE_LEN + 128
  const MOON: Byte := 127

  datatype Error = MaxRootsExceeded | MaxEndpointsExceeded | TooLarge
  type Result<+T> = Fallible<T, Error>

  type NodeAddress = b: Bytes | |b| == 5 witness Fill(5, 0)
  type Key = b: Bytes | |b| == 64 witness Fill(64, 0)
  type Signature = b: Bytes | |b| == SIGNATURE_LEN witness Fill(96, 0)
  type U64 = n: int | 0 <= n < 0x1_0000_0000_0000_0000

  /** `net.IP`: four or sixteen bytes, an IPv4 address possibly in its sixteen-byte form. */
  type Ip = b: Bytes | |b| == 4 || |b| == 16 witness Fill(4, 0)

  datatype Endpoint = Endpoint(ip: Ip, port: U16)
  datatype Identity = Identity(address: NodeAddress, publicKey: Key, privateKey: Key)
  datatype Root = Root(identity: Identity, endpoints: seq<Endpoint>)
  datatype World = World(kind: Byte, id: U64, timestamp: U64, nextKey: Key, roots: seq<Root>)

  // ---------------------------------------------------------------------
  // Layout
  // ---------------------------------------------------------------------

  predicate Mapped(ip: Bytes) {
    |ip| == 16 && ip[..12] == Fill(10, 0) + [0xff, 0xff]
  }

  predicate IsV4(ip: Bytes) {
    |ip| <= 4 || Mapped(ip)
  }

  /** `To4`: nil, here empty, when there is no four-byte form. */
  function To4(ip: Bytes): Bytes {
    if |ip| == 4 then ip else if Mapped(ip) then ip[12..] else []
  }

  function EndpointBytes(e: Endpoint): Bytes {
    if IsV4(e.ip) then [4] + (To4(e.ip) + U16Bytes(e.port)) else [6] + (e.ip + U16Bytes(e.port))
  }

  predicate ZeroStart(b: Bytes)
    requires |b| >= 4
  {
    b[..4] == [0, 0, 0, 0]
  }

  function IdentityBytes(i: Identity, withPrivate: bool): Bytes {
    i.address + ([0] + (i.publicKey +
      (if !ZeroStart(i.privateKey) && withPrivate then [PRIVATE_KEY_LEN] + i.privateKey else [0])))
  }

  function EndpointsBytes(es: seq<Endpoint>): Bytes {
    if es == [] then [] else EndpointBytes(es[0]) + EndpointsBytes(es[1..])
  }

  function RootBytes(r: Root): Bytes {
    IdentityBytes(r.identity, false) + ([|r.endpoints| % 0x100] + EndpointsBytes(r.endpoints))
  }

  function RootsBytes(rs: seq<Root>): Bytes {
    if rs == [] then [] else RootBytes(rs[0]) + RootsBytes(rs[1..])
  }

  function Head(w: World): (r: Bytes)
    ensures |r| == 81
  {
    [w.kind] + (BigEndian(w.id, 8) + (BigEndian(w.timestamp, 8) + w.nextKey))
  }

  /** A moon carries an attached dictionary, which is empty. */
  function Dictionary(w: World): Bytes {
    if w.kind == MOON then [0, 0] else []
  }

  function Body(w: World): Bytes {
    [|w.roots| % 0x100] + (RootsBytes(w.roots) + Dictionary(w))
  }

  function Sentinel(b: Byte): (r: Bytes)
    ensures |r| == 8
  {
    seq(8, _ => b)
  }

  function SignaturePart(signature: Signature): Bytes {
    if ZeroStart(signature) then [] else signature
  }

  /** What is signed. */
  function Message(w: World): Bytes {
    Sentinel(0x7f) + (Head(w) + (Body(w) + Sentinel(0xf7)))
  }

  /** What is distributed. */
  function File(w: World, signature: Signature): Bytes {
    Head(w) + (SignaturePart(signature) + Body(w))
  }

  predicate RootFits(r: Root) {
    |r.endpoints| <= MAX_ENDPOINTS
  }

  predicate RootsFit(rs: seq<Root>) {
    forall r | r in rs :: RootFits(r)
  }

  predicate Fits(w: World) {
    |w.roots| <= MAX_ROOTS && RootsFit(w.roots)
  }

  /** The result of `ZtWorld.Serialize`; too many roots are noticed before too many endpoints. */
  function Serialized(w: World, forSign: bool, signature: Signature): Result<Bytes> {
    if |w.roots| > MAX_ROOTS then Err(MaxRootsExceeded)
    else if !RootsFit(w.roots) then Err(MaxEndpointsExceeded)
    else Ok(if forSign then Message(w) else File(w, signature))
  }

  // ---------------------------------------------------------------------
  // Serialization
  // ---------------------------------------------------------------------

  method SerializeEndpoint(e: Endpoint) returns (buf: Bytes)
    ensures buf == EndpointBytes(e)
  {
    buf := [];
    if IsV4(e.ip) {
      buf := buf + [4];
      buf := buf + To4(e.ip);
    } else {
      buf := buf + [6];
      buf := buf + e.ip;
    }
    buf := buf + U16Bytes(e.port);
  }

  method SerializeIdentity(i: Identity, withPrivate: bool) returns (buf: Bytes)
    ensures buf == IdentityBytes(i, withPrivate)
  {
    buf := [];
    buf := buf + i.address;
    buf := buf + [0];
    buf := buf + i.publicKey;
    if !ZeroStart(i.privateKey) && withPrivate {
      buf := buf + [PRIVATE_KEY_LEN];
      buf := buf + i.privateKey;
    } else {
      buf := buf + [0];
    }
  }

  method SerializeRoot(r: Root) returns (result: Result<Bytes>)
    ensures result == if RootFits(r) then Ok(RootBytes(r)) else Err(MaxEndpointsExceeded)
  {
    hide EndpointBytes, IdentityBytes;
    var buf: Bytes := SerializeIdentity(r.identity, false);
    buf := buf + [|r.endpoints| % 0x100];
    var i := 0;
    while i < |r.endpoints|
      invariant i <= |r.endpoints|
      invariant buf + EndpointsBytes(r.endpoints[i..]) == RootBytes(r)
    {
      var data := SerializeEndpoint(r.endpoints[i]);
      assert r.endpoints[i..][1..] == r.endpoints[i + 1..];
      assert buf + (data + EndpointsBytes(r.endpoints[i + 1..])) == (buf + data) + EndpointsBytes(r.endpoints[i + 1..]);
      buf := buf + data;
      i := i + 1;
    }
    if |r.endpoints| > MAX_ENDPOINTS {
      return Err(MaxEndpointsExceeded);
    }
    assert buf + EndpointsBytes([]) == buf;
    result := Ok(buf);
  }

  /** `ZtWorld.Serialize`: its size check never fails. */
  method Serialize(w: World, forSign: bool, signature: Signature) returns (result: Result<Bytes>)
    ensures result == Serialized(w, forSign, signature)
  {
    hide RootsBytes, RootsFit, Head, Sentinel, MAX_LENGTH;
    var buf: Bytes := [];
    if forSign {
      buf := buf + Sentinel(0x7f);
    }
    buf := buf + Head(w);
    if !forSign && !ZeroStart(signature) {
      buf := buf + signature;
    }
    buf := buf + [|w.roots| % 0x100];
    if |w.roots| > MAX_ROOTS {
      return Err(MaxRootsExceeded);
    }
    var appended := AppendRoots(buf, w.roots);
    if appended.Err? {
      return appended;
    }
    buf := appended.value;
    if w.kind == MOON {
      buf := buf + [0, 0];
    }
    if forSign {
      buf := buf + Sentinel(0xf7);
      MessageJoined(w);
    } else {
      FileJoined(w, signature);
    }
    NeverTooLarge(w, signature);
    if |buf| > MAX_LENGTH {
      return Err(TooLarge);
    }
    result := Ok(buf);
  }

  /** The loop over the roots. */
  method AppendRoots(start: Bytes, roots: seq<Root>) returns (result: Result<Bytes>)
    ensures result == if RootsFit(roots) then Ok(start + RootsBytes(roots)) else Err(MaxEndpointsExceeded)
  {
    hide RootBytes, RootFits;
    var buf, i := start, 0;
    while i < |roots|
      invariant i <= |roots|
      invariant RootsFit(roots[..i])
      invariant buf + RootsBytes(roots[i..]) == start + RootsBytes(roots)
    {
      var data := SerializeRoot(roots[i]);
      if data.Err? {
        assert roots[i] in roots;
        return data;
      }
      assert roots[i..][1..] == roots[i + 1..];
      assert buf + (data.value + RootsBytes(roots[i + 1..])) == (buf + data.value) + RootsBytes(roots[i + 1..]);
      buf := buf + data.value;
      i := i + 1;
    }
    assert roots[..i] == roots;
    assert buf + RootsBytes([]) == buf;
    result := Ok(buf);
  }

  /** The pieces of a message in the order they are appended. */
  lemma MessageJoined(w: World)
    ensures (((([] + Sentinel(0x7f)) + Head(w)) + [|w.roots| % 0x100]) + RootsBytes(w.roots)) + Dictionary(w) +
      Sentinel(0xf7) == Message(w)
    ensures Dictionary(w) == [] ==>
      (((([] + Sentinel(0x7f)) + Head(w)) + [|w.roots| % 0x100]) + RootsBytes(w.roots)) + Sentinel(0xf7) == Message(w)
  {
    hide RootsBytes, Head, Sentinel;
  }

  lemma FileJoined(w: World, signature: Signature)
    ensures ((([] + Head(w)) + signature) + [|w.roots| % 0x100]) + RootsBytes(w.roots) + Dictionary(w) ==
      Head(w) + (signature + Body(w))
    ensures ((([] + Head(w)) + [|w.roots| % 0x100]) + RootsBytes(w.roots)) + Dictionary(w) == Head(w) + ([] + Body(w))
    ensures Dictionary(w) == [] ==>
      ((([] + Head(w)) + signature) + [|w.roots| % 0x100]) + RootsBytes(w.roots) == Head(w) + (signature + Body(w))
    ensures Dictionary(w) == [] ==>
      (([] + Head(w)) + [|w.roots| % 0x100]) + RootsBytes(w.roots) == Head(w) + ([] + Body(w))
  {
    hide RootsBytes, Head;
  }

  // ---------------------------------------------------------------------
  // Size
  // ---------------------------------------------------------------------

  lemma EndpointLength(e: Endpoint)
    ensures |EndpointBytes(e)| == if IsV4(e.ip) then 7 else 19
  {
  }

  lemma {:induction false} EndpointsLength(es: seq<Endpoint>)
    ensures |EndpointsBytes(es)| <= 19 * |es|
  {
    hide EndpointBytes;
    if es != [] {
      EndpointLength(es[0]);
      EndpointsLength(es[1..]);
    }
  }

  lemma {:induction false} RootsLength(rs: seq<Root>)
    requires RootsFit(rs)
    ensures |RootsBytes(rs)| <= 680 * |rs|
  {
    hide EndpointsBytes;
    if rs != [] {
      EndpointsLength(rs[0].endpoints);
      assert rs[0] in rs;
      RootsLength(rs[1..]);
    }
  }

  /** Within the limits on roots and endpoints a world takes less than half of the permitted length. */
  lemma NeverTooLarge(w: World, signature: Signature)
    requires Fits(w)
    ensures |Message(w)| <= 2820 && |File(w, signature)| <= 2900 && 2 * 2900 < MAX_LENGTH
  {
    hide RootsBytes, Head, Sentinel;
    RootsLength(w.roots);
  }

  // ---------------------------------------------------------------------
  // Signed message and file
  // ---------------------------------------------------------------------

  /** The file is the signed message without its sentinels and with the signature inserted at offset 81. */
  lemma FileFromMessage(w: World, signature: Signature)
    requires !ZeroStart(signature)
    ensures var m := Message(w); var inner := m[8..|m| - 8];
      |m| >= 16 + 81 && File(w, signature) == inner[..81] + signature + inner[81..]
  {
    hide Head, Body, Sentinel;
    var m := Message(w);
    var inner := m[8..|m| - 8];
    assert inner == Head(w) + Body(w);
    assert inner[..81] == Head(w) && inner[81..] == Body(w);
  }

  // ---------------------------------------------------------------------
  // Decoding
  // ---------------------------------------------------------------------

  datatype Parsed<+T> = Parsed(value: T, rest: Bytes)

  function DecodeEndpoint(b: Bytes): Option<Parsed<Endpoint>> {
    if b == [] || b[0] !in {4, 6} then None
    else
      var width := if b[0] == 4 then 4 else 16;
      if |b| < 3 + width then None
      else Some(Parsed(Endpoint(b[1..1 + width], U16Of(b[1 + width], b[2 + width])), b[3 + width..]))
  }

  function DecodeEndpoints(n: nat, b: Bytes): Option<Parsed<seq<Endpoint>>> {
    if n == 0 then Some(Parsed([], b))
    else
      match DecodeEndpoint(b)
      case None => None
      case Some(first) =>
        match DecodeEndpoints(n - 1, first.rest)
        case None => None
        case Some(others) => Some(Parsed([first.value] + others.value, others.rest))
  }

  /** An identity, with or without its private key. */
  function DecodeIdentity(b: Bytes): Option<Parsed<Identity>> {
    if |b| < 71 || b[5] != 0 then None
    else if b[70] == 0 then Some(Parsed(Identity(b[..5], b[6..70], Fill(64, 0)), b[71..]))
    else if b[70] == PRIVATE_KEY_LEN && |b| >= 135 then Some(Parsed(Identity(b[..5], b[6..70], b[71..135]), b[135..]))
    else None
  }

  function DecodeRoot(b: Bytes): Option<Parsed<Root>> {
    match DecodeIdentity(b)
    case None => None
    case Some(identity) =>
      if identity.rest == [] then None
      else
        match DecodeEndpoints(identity.rest[0], identity.rest[1..])
        case None => None
        case Some(endpoints) => Some(Parsed(Root(identity.value, endpoints.value), endpoints.rest))
  }

  function DecodeRoots(n: nat, b: Bytes): Option<Parsed<seq<Root>>> {
    if n == 0 then Some(Parsed([], b))
    else
      match DecodeRoot(b)
      case None => None
      case Some(first) =>
        match DecodeRoots(n - 1, first.rest)
        case None => None
        case Some(others) => Some(Parsed([first.value] + others.value, others.rest))
  }

  function DecodeBody(kind: Byte, b: Bytes): Option<seq<Root>> {
    if b == [] then None
    else
      match DecodeRoots(b[0], b[1..])
      case None => None
      case Some(roots) => if roots.rest == (if kind == MOON then [0, 0] else []) then Some(roots.value) else None
  }

  function DecodeWorld(head: Bytes, body: Bytes): Option<World>
    requires |head| == 81
  {
    match DecodeBody(head[0], body)
    case None => None
    case Some(roots) =>
      Pow256Eight(ValueOf(head[1..9]), ValueOf(head[9..17]), head[1..9], head[9..17]);
      Some(World(head[0], ValueOf(head[1..9]), ValueOf(head[9..17]), head[17..], roots))
  }

  function DecodeFile(b: Bytes): Option<(World, Signature)> {
    if |b| < 81 + SIGNATURE_LEN then None
    else
      match DecodeWorld(b[..81], b[81 + SIGNATURE_LEN..])
      case None => None
      case Some(w) => Some((w, b[81..81 + SIGNATURE_LEN]))
  }

  function DecodeMessage(b: Bytes): Option<World> {
    if |b| < 97 || b[..8] != Sentinel(0x7f) || b[|b| - 8..] != Sentinel(0xf7) then None
    else DecodeWorld(b[8..89], b[89..|b| - 8])
  }

  lemma {:induction false} ValueBound(b: Bytes)
    ensures ValueOf(b) < Pow256(|b|)
  {
    if b != [] {
      ValueBound(b[..|b| - 1]);
    }
  }

  lemma Pow256Eight(x: nat, y: nat, a: Bytes, b: Bytes)
    requires |a| == 8 && |b| == 8 && x == ValueOf(a) && y == ValueOf(b)
    ensures x < 0x1_0000_0000_0000_0000 && y < 0x1_0000_0000_0000_0000
  {
    ValueBound(a);
    ValueBound(b);
    Pow256Of8();
  }

  lemma Pow256Of8()
    ensures Pow256(8) == 0x1_0000_0000_0000_0000
  {
    assert Pow256(4) == 0x1_0000_0000;
  }

  // ---------------------------------------------------------------------
  // Round trip
  // ---------------------------------------------------------------------

  /** What the format can express: IPv4 in four bytes, and no private keys. */
  function CanonicalEndpoint(e: Endpoint): Endpoint {
    if IsV4(e.ip) then Endpoint(To4(e.ip), e.port) else e
  }

  function CanonicalEndpoints(es: seq<Endpoint>): seq<Endpoint> {
    if es == [] then [] else [CanonicalEndpoint(es[0])] + CanonicalEndpoints(es[1..])
  }

  function CanonicalRoot(r: Root): Root {
    Root(r.identity.(privateKey := Fill(64, 0)), CanonicalEndpoints(r.endpoints))
  }

  function CanonicalRoots(rs: seq<Root>): seq<Root> {
    if rs == [] then [] else [CanonicalRoot(rs[0])] + CanonicalRoots(rs[1..])
  }

  function Canonical(w: World): World {
    w.(roots := CanonicalRoots(w.roots))
  }

  /** The three pieces of an endpoint with an address of `n` bytes. */
  lemma EndpointParts(tag: Byte, ip: Bytes, port: Bytes, rest: Bytes)
    requires |port| == 2
    ensures var b := ([tag] + (ip + port)) + rest;
      b[0] == tag && b[1..1 + |ip|] == ip && b[1 + |ip|] == port[0] && b[2 + |ip|] == port[1] && b[3 + |ip|..] == rest
  {
  }

  lemma EndpointRoundTrip(e: Endpoint, rest: Bytes)
    ensures DecodeEndpoint(EndpointBytes(e) + rest) == Some(Parsed(CanonicalEndpoint(e), rest))
  {
    hide Mapped;
    EndpointParts(if IsV4(e.ip) then 4 else 6, CanonicalEndpoint(e).ip, U16Bytes(e.port), rest);
  }

  lemma {:induction false} EndpointsRoundTrip(es: seq<Endpoint>, rest: Bytes)
    ensures DecodeEndpoints(|es|, EndpointsBytes(es) + rest) == Some(Parsed(CanonicalEndpoints(es), rest))
    decreases |es|
  {
    hide DecodeEndpoint, EndpointBytes, CanonicalEndpoint;
    if es == [] {
      assert EndpointsBytes(es) + rest == rest;
    } else {
      assert EndpointsBytes(es) + rest == EndpointBytes(es[0]) + (EndpointsBytes(es[1..]) + rest);
      EndpointRoundTrip(es[0], EndpointsBytes(es[1..]) + rest);
      EndpointsRoundTrip(es[1..], rest);
    }
  }

  /** An identity comes back with its private key exactly when it has one and it was asked for. */
  lemma IdentityRoundTrip(i: Identity, withPrivate: bool, rest: Bytes)
    ensures DecodeIdentity(IdentityBytes(i, withPrivate) + rest) ==
      Some(Parsed(if withPrivate && !ZeroStart(i.privateKey) then i else i.(privateKey := Fill(64, 0)), rest))
  {
    hide Fill, ZeroStart;
    var b := IdentityBytes(i, withPrivate) + rest;
    assert b[..5] == i.address && b[5] == 0 && b[6..70] == i.publicKey;
    if withPrivate && !ZeroStart(i.privateKey) {
      assert b[70] == PRIVATE_KEY_LEN && b[71..135] == i.privateKey && b[135..] == rest;
    } else {
      assert b[70] == 0 && b[71..] == rest;
    }
  }

  lemma RootRoundTrip(r: Root, rest: Bytes)
    requires RootFits(r)
    ensures DecodeRoot(RootBytes(r) + rest) == Some(Parsed(CanonicalRoot(r), rest))
  {
    hide DecodeIdentity, DecodeEndpoints, IdentityBytes, EndpointsBytes, CanonicalEndpoints, Fill;
    var tail := [|r.endpoints| % 0x100] + (EndpointsBytes(r.endpoints) + rest);
    assert RootBytes(r) + rest == IdentityBytes(r.identity, false) + tail;
    IdentityRoundTrip(r.identity, false, tail);
    assert tail[1..] == EndpointsBytes(r.endpoints) + rest;
    EndpointsRoundTrip(r.endpoints, rest);
  }

  lemma {:induction false} RootsRoundTrip(rs: seq<Root>, rest: Bytes)
    requires RootsFit(rs)
    ensures DecodeRoots(|rs|, RootsBytes(rs) + rest) == Some(Parsed(CanonicalRoots(rs), rest))
    decreases |rs|
  {
    hide DecodeRoot, RootBytes, CanonicalRoot, RootFits;
    if rs == [] {
      assert RootsBytes(rs) + rest == rest;
    } else {
      assert rs[0] in rs;
      assert RootsBytes(rs) + rest == RootBytes(rs[0]) + (RootsBytes(rs[1..]) + rest);
      RootRoundTrip(rs[0], RootsBytes(rs[1..]) + rest);
      RootsRoundTrip(rs[1..], rest);
    }
  }

  lemma BodyRoundTrip(w: World)
    requires Fits(w)
    ensures DecodeBody(w.kind, Body(w)) == Some(CanonicalRoots(w.roots))
  {
    hide DecodeRoots, RootsBytes, CanonicalRoots, RootFits;
    var tail: Bytes := if w.kind == MOON then [0, 0] else [];
    assert Body(w)[1..] == RootsBytes(w.roots) + tail;
    RootsRoundTrip(w.roots, tail);
  }

  lemma HeadParts(w: World)
    ensures var h := Head(w);
      h[0] == w.kind && h[1..9] == BigEndian(w.id, 8) && h[9..17] == BigEndian(w.timestamp, 8) && h[17..] == w.nextKey
  {
    hide BigEndian;
  }

  lemma WorldRoundTrip(w: World)
    requires Fits(w)
    ensures DecodeWorld(Head(w), Body(w)) == Some(Canonical(w))
  {
    hide DecodeBody, Head, Body, BigEndian, ValueOf, CanonicalRoots, Fits;
    HeadParts(w);
    Pow256Of8();
    BigEndianRoundTrip(w.id, 8);
    BigEndianRoundTrip(w.timestamp, 8);
    BodyRoundTrip(w);
  }

  /** A distributed file can be decoded in exactly one way, signature included. */
  lemma FileRoundTrip(w: World, signature: Signature)
    requires Fits(w) && !ZeroStart(signature)
    ensures DecodeFile(File(w, signature)) == Some((Canonical(w), signature))
  {
    hide DecodeWorld, Head, Body, Canonical, Fits, ZeroStart;
    var b := File(w, signature);
    assert b[..81] == Head(w) && b[81..81 + SIGNATURE_LEN] == signature && b[81 + SIGNATURE_LEN..] == Body(w);
    WorldRoundTrip(w);
  }

  /** So can a message to be signed. */
  lemma MessageRoundTrip(w: World)
    requires Fits(w)
    ensures DecodeMessage(Message(w)) == Some(Canonical(w))
  {
    hide DecodeWorld, Head, Body, Canonical, Fits, Sentinel;
    var m := Message(w);
    assert m[..8] == Sentinel(0x7f) && m[|m| - 8..] == Sentinel(0xf7);
    assert m[8..89] == Head(w) && m[89..|m| - 8] == Body(w);
    WorldRoundTrip(w);
  }

  /** The file determines the signature if and only if the signature does not start with four zero bytes. */
  lemma SignatureRecoverable(w: World, signature: Signature)
    requires Fits(w)
    ensures (forall other: Signature :: File(w, other) == File(w, signature) ==> other == signature) <==>
      !ZeroStart(signature)
  {
    hide Head, Body, Fits, DecodeFile, Canonical;
    if ZeroStart(signature) {
      var other: Signature := signature[95 := if signature[95] == 0 then 1 else 0];
      assert other[..4] == signature[..4];
      assert File(w, other) == File(w, signature) && other[95] != signature[95];
    } else {
      forall other: Signature | File(w, other) == File(w, signature) ensures other == signature {
        assert |File(w, signature)| == 81 + 96 + |Body(w)|;
        FileRoundTrip(w, signature);
        if !ZeroStart(other) {
          FileRoundTrip(w, other);
        }
      }
    }
  }
}
