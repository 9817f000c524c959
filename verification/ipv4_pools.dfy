/** Pool and route arithmetic on IPv4 addresses, done in the signed 32-bit numbers of JavaScript. */
module Ipv4Pools {
  import opened Basics
  import opened ByteOrder
  import opened AddressBits

  const HALF: int := 0x8000_0000
  const WHOLE: int := 0x1_0000_0000

  // ---------------------------------------------------------------------
  // JavaScript numbers
  // ---------------------------------------------------------------------

  /** The signed number with the same low 32 bits. */
  function Int32(v: int): int {
    var u := v % WHOLE;
    if u >= HALF then u - WHOLE else u
  }

  /** `v >>> 0` */
  function Uint32(v: int): U32 {
    v % WHOLE
  }

  /** `1 << n`: only the low five bits of the count matter. */
  function OneShifted(n: int): int {
    Int32(Pow2(n % 32))
  }

  /** `v & ~(2^n - 1)` on a signed 32-bit number. */
  function ClearLow(v: int, n: nat): int {
    v / Pow2(n) * Pow2(n)
  }

  /** `ip.split(".").reduce((acc, octet) => (acc << 8) + octet, 0)` */
  function IpToNumber(a: Byte, b: Byte, c: Byte, d: Byte): int {
    Int32((Int32((Int32((Int32(0) + a) * 0x100) + b) * 0x100) + c) * 0x100) + d
  }

  function NumberOf(ip: U32): int {
    var o := Octets(ip);
    IpToNumber(o[0], o[1], o[2], o[3])
  }

  lemma IntZero()
    ensures Int32(0) == 0
  {
  }

  lemma SmallShift(x: int)
    requires 0 <= x < 0x1_0000
    ensures Int32(x * 0x100) == x * 0x100
  {
  }

  lemma LastShift(x: int, d: int)
    requires 0 <= x < 0x100_0000 && 0 <= d < 0x100
    ensures Int32(x * 0x100) + d == Int32(x * 0x100 + d)
  {
  }

  lemma NumberIsSigned(ip: U32)
    ensures NumberOf(ip) == Int32(ip)
  {
    hide Octets, Int32;
    OctetsRoundTrip(ip);
    IntZero();
    var o := Octets(ip);
    var a: int, b: int, c: int, d: int := o[0], o[1], o[2], o[3];
    var x := (a * 0x100 + b) * 0x100 + c;
    SmallShift(a);
    SmallShift(a * 0x100 + b);
    LastShift(x, d);
  }

  /** Signed comparison agrees with address order within a half of the address space, and is reversed across halves. */
  lemma SignedOrder(x: U32, y: U32)
    ensures Int32(x) < Int32(y) <==> if (x < HALF) == (y < HALF) then x < y else y < HALF
  {
  }

  // ---------------------------------------------------------------------
  // Bits
  // ---------------------------------------------------------------------

  type Bit = b: int | 0 <= b < 2
  type Bits = seq<Bit>

  function BitsOf(v: nat, n: nat): (r: Bits)
    ensures |r| == n
  {
    if n == 0 then [] else BitsOf(v / 2, n - 1) + [v % 2]
  }

  function ValueOfBits(bits: Bits): nat {
    if bits == [] then 0 else ValueOfBits(bits[..|bits| - 1]) * 2 + bits[|bits| - 1]
  }

  /** The octets, each padded to eight binary digits. */
  function IpToBinary(ip: U32): (r: Bits)
    ensures |r| == 32
  {
    var o := Octets(ip);
    BitsOf(o[0], 8) + BitsOf(o[1], 8) + BitsOf(o[2], 8) + BitsOf(o[3], 8)
  }

  lemma {:induction false} BitsJoin(hi: nat, lo: nat, n: nat, m: nat)
    requires lo < Pow2(m)
    ensures BitsOf(hi * Pow2(m) + lo, n + m) == BitsOf(hi, n) + BitsOf(lo, m)
    decreases m
  {
    if m > 0 {
      var half := Pow2(m - 1);
      assert hi * Pow2(m) == 2 * (hi * half);
      var v := hi * Pow2(m) + lo;
      assert v / 2 == hi * half + lo / 2 && v % 2 == lo % 2;
      BitsJoin(hi, lo / 2, n, m - 1);
    } else {
      assert BitsOf(lo, m) == [];
    }
  }

  lemma BinaryIsBits(ip: U32)
    ensures IpToBinary(ip) == BitsOf(ip, 32)
  {
    hide BitsOf, Pow2;
    var o := Octets(ip);
    OctetsRoundTrip(ip);
    Pow2Values();
    var a: int, b: int, c: int, d: int := o[0], o[1], o[2], o[3];
    var x := a * 0x100 + b;
    var y := x * 0x100 + c;
    BitsJoin(a, b, 8, 8);
    BitsJoin(x, c, 16, 8);
    BitsJoin(y, d, 24, 8);
    assert y * 0x100 + d == ip;
  }

  lemma ValueLast(bits: Bits, last: Bit)
    ensures ValueOfBits(bits + [last]) == ValueOfBits(bits) * 2 + last
  {
    assert (bits + [last])[..|bits|] == bits;
  }

  lemma ValueOfNone()
    ensures ValueOfBits([]) == 0
  {
  }

  lemma TwiceProduct(a: int, p: int)
    ensures a * (2 * p) == 2 * (a * p)
  {
  }

  lemma {:induction false} ValueJoin(a: Bits, b: Bits)
    ensures ValueOfBits(a + b) == ValueOfBits(a) * Pow2(|b|) + ValueOfBits(b)
    decreases |b|
  {
    hide ValueOfBits;
    if b == [] {
      assert a + b == a;
      ValueOfNone();
    } else {
      var b', last := b[..|b| - 1], b[|b| - 1];
      ValueJoin(a, b');
      ValueLast(b', last);
      ValueLast(a + b', last);
      assert b == b' + [last] && a + b == (a + b') + [last];
      TwiceProduct(ValueOfBits(a), Pow2(|b'|));
    }
  }

  lemma {:induction false} ValueOfZeros(n: nat)
    ensures ValueOfBits(Fill<Bit>(n, 0)) == 0
  {
    if n > 0 {
      assert Fill<Bit>(n, 0)[..n - 1] == Fill<Bit>(n - 1, 0);
      ValueOfZeros(n - 1);
    }
  }

  lemma {:induction false} BitsRoundTrip(v: nat, n: nat)
    requires v < Pow2(n)
    ensures ValueOfBits(BitsOf(v, n)) == v
  {
    if n > 0 {
      BitsRoundTrip(v / 2, n - 1);
      assert BitsOf(v, n)[..n - 1] == BitsOf(v / 2, n - 1);
    }
  }

  lemma {:induction false} ValueBound(bits: Bits)
    ensures ValueOfBits(bits) < Pow2(|bits|)
  {
    if bits != [] {
      ValueBound(bits[..|bits| - 1]);
    }
  }

  /** Groups of eight digits read as octets. */
  function BinaryToIp(bits: Bits): U32
    requires |bits| == 32
  {
    OctetBound(bits[..8]);
    OctetBound(bits[8..16]);
    OctetBound(bits[16..24]);
    OctetBound(bits[24..]);
    Ip(ValueOfBits(bits[..8]), ValueOfBits(bits[8..16]), ValueOfBits(bits[16..24]), ValueOfBits(bits[24..]))
  }

  lemma OctetBound(bits: Bits)
    requires |bits| == 8
    ensures ValueOfBits(bits) < 0x100
  {
    ValueBound(bits);
    Pow2Values();
  }

  lemma BinaryToIpIsValue(bits: Bits)
    requires |bits| == 32
    ensures BinaryToIp(bits) == ValueOfBits(bits)
  {
    hide ValueOfBits, Pow2;
    Pow2Values();
    assert bits == ((bits[..8] + bits[8..16]) + bits[16..24]) + bits[24..];
    ValueJoin(bits[..8], bits[8..16]);
    ValueJoin(bits[..8] + bits[8..16], bits[16..24]);
    ValueJoin((bits[..8] + bits[8..16]) + bits[16..24], bits[24..]);
  }

  // ---------------------------------------------------------------------
  // Common prefixes
  // ---------------------------------------------------------------------

  /** The number of leading bits that two numbers of `n` bits share. */
  function CommonBits(x: nat, y: nat, n: nat): (k: nat)
    requires x < Pow2(n) && y < Pow2(n)
    ensures k <= n
  {
    if x == y then n else CommonBits(x / 2, y / 2, n - 1)
  }

  /** The loop of `countCommonBits`: the first place where the strings differ. */
  method CountCommonBits(start: Bits, end: Bits) returns (k: nat)
    requires |start| == |end|
    ensures k <= |start| && start[..k] == end[..k] && (k < |start| ==> start[k] != end[k])
  {
    k := 0;
    while k < |start|
      invariant k <= |start| && start[..k] == end[..k]
    {
      if start[k] != end[k] {
        return;
      }
      k := k + 1;
    }
  }

  predicate Diverge(a: Bits, b: Bits, k: int) {
    |a| == |b| && 0 <= k <= |a| && a[..k] == b[..k] && (k < |a| ==> a[k] != b[k])
  }

  lemma SameUnder(a: Bits, b: Bits, i: nat, k: nat)
    requires i < k <= |a| == |b| && a[..k] == b[..k]
    ensures a[i] == b[i]
  {
    assert a[..k][i] == b[..k][i];
  }

  lemma DivergeUnique(a: Bits, b: Bits, j: int, k: int)
    requires Diverge(a, b, j) && Diverge(a, b, k)
    ensures j == k
  {
    if j < k {
      SameUnder(a, b, j, k);
    } else if k < j {
      SameUnder(a, b, k, j);
    }
  }

  lemma {:induction false} CommonBitsDiverge(x: nat, y: nat, n: nat)
    requires x < Pow2(n) && y < Pow2(n)
    ensures Diverge(BitsOf(x, n), BitsOf(y, n), CommonBits(x, y, n))
    decreases n
  {
    if x != y {
      var a, b, k := BitsOf(x / 2, n - 1), BitsOf(y / 2, n - 1), CommonBits(x / 2, y / 2, n - 1);
      CommonBitsDiverge(x / 2, y / 2, n - 1);
      var a', b' := BitsOf(x, n), BitsOf(y, n);
      assert a' == a + [x % 2] && b' == b + [y % 2];
      assert a'[..k] == a[..k] && b'[..k] == b[..k];
      if k == n - 1 {
        BitsRoundTrip(x / 2, n - 1);
        BitsRoundTrip(y / 2, n - 1);
        assert a == a[..k] && b == b[..k];
      }
    }
  }

  /** The common bits are the longest prefix under which both numbers fall into one block. */
  lemma {:induction false} CommonBitsLongest(x: nat, y: nat, n: nat, j: nat)
    requires x < Pow2(n) && y < Pow2(n) && j <= n
    ensures x / Pow2(n - j) == y / Pow2(n - j) <==> j <= CommonBits(x, y, n)
    decreases n
  {
    if x == y {
    } else if j == n {
      assert Pow2(0) == 1;
    } else {
      CommonBitsLongest(x / 2, y / 2, n - 1, j);
      HalfFirst(x, n - j);
      HalfFirst(y, n - j);
    }
  }

  lemma HalfFirst(x: nat, m: nat)
    requires m > 0
    ensures x / 2 / Pow2(m - 1) == x / Pow2(m)
  {
    var p := Pow2(m - 1);
    var q := x / 2 / p;
    DivisionBlock(x / 2, p);
    assert q * (2 * p) == 2 * (q * p);
    SameBlock(x, q, 2 * p);
  }

  lemma {:induction false} BitsPrefix(v: nat, n: nat, k: nat)
    requires k <= n
    ensures BitsOf(v, n)[..k] == BitsOf(v / Pow2(n - k), k)
    decreases n
  {
    if k < n {
      BitsPrefix(v / 2, n - 1, k);
      HalfFirst(v, n - k);
      assert BitsOf(v, n)[..k] == BitsOf(v / 2, n - 1)[..k];
    } else {
      assert Pow2(0) == 1;
    }
  }

  // ---------------------------------------------------------------------
  // Routes
  // ---------------------------------------------------------------------

  datatype Route = Route(network: U32, prefix: nat)
  datatype Range = Range(start: U32, end: U32)

  lemma U32Pow2(ip: U32)
    ensures ip < Pow2(32)
  {
    Pow2Values();
  }

  lemma MaskedInRange(ip: U32, k: nat)
    requires k <= 32
    ensures 0 <= Masked(ip, k) <= ip
  {
    hide Pow2;
    if k > 0 {
      BlockBase(ip, Pow2(32 - k));
    }
  }

  lemma BlockBase(v: nat, p: int)
    requires p >= 1
    ensures 0 <= v / p && 0 <= v / p * p <= v
  {
    var d := v / p;
    DivisionBlock(v, p);
    if d < 0 {
      MulOrder(d + 1, 0, p);
    } else {
      MulOrder(0, d, p);
    }
  }

  /** The route for a range: none if the range looks empty to the signed comparison, else the common block. */
  function RouteOf(r: Range): (route: Option<Route>)
    ensures route.Some? ==> route.value.prefix <= 32
  {
    U32Pow2(r.start);
    U32Pow2(r.end);
    var k := CommonBits(r.start, r.end, 32);
    MaskedInRange(r.start, k);
    if Int32(r.start) >= Int32(r.end) then None else Some(Route(Masked(r.start, k), k))
  }

  /** A prefix of the binary digits padded with zeros is the address with its low bits cleared. */
  lemma PaddedIsMasked(ip: U32, k: nat)
    requires k <= 32
    ensures BinaryToIp(BitsOf(ip, 32)[..k] + Fill(32 - k, 0)) == Masked(ip, k)
  {
    hide BitsOf, ValueOfBits, Fill, Pow2, BinaryToIp;
    var p, front := Pow2(32 - k), BitsOf(ip, 32)[..k];
    U32Pow2(ip);
    Pow2Sum(k, 32 - k);
    QuotientBelow(ip, p, Pow2(k));
    BitsPrefix(ip, 32, k);
    BitsRoundTrip(ip / p, k);
    BinaryToIpIsValue(front + Fill(32 - k, 0));
    ValueJoin(front, Fill(32 - k, 0));
    ValueOfZeros(32 - k);
    Pow2Zero();
  }

  lemma QuotientBelow(v: nat, p: int, q: int)
    requires p >= 1 && v < q * p
    ensures 0 <= v / p < q
  {
    var d := v / p;
    BlockBase(v, p);
    if d >= q {
      MulOrder(q, d, p);
    }
  }

  method RouteFor(range: Range) returns (route: Option<Route>)
    ensures route == RouteOf(range)
  {
    hide Int32, Octets, BitsOf, BinaryToIp, Masked, CommonBits, IpToNumber;
    NumberIsSigned(range.start);
    NumberIsSigned(range.end);
    if NumberOf(range.start) >= NumberOf(range.end) {
      return None;
    }
    var start, end := IpToBinary(range.start), IpToBinary(range.end);
    var k := CountCommonBits(start, end);
    BinaryIsBits(range.start);
    BinaryIsBits(range.end);
    U32Pow2(range.start);
    U32Pow2(range.end);
    CommonBitsDiverge(range.start, range.end, 32);
    DivergeUnique(start, end, k, CommonBits(range.start, range.end, 32));
    PaddedIsMasked(range.start, k);
    route := Some(Route(BinaryToIp(start[..k] + Fill(32 - k, 0)), k));
  }

  function Routes(ranges: seq<Range>): seq<Route> {
    if ranges == [] then []
    else (if RouteOf(ranges[0]).Some? then [RouteOf(ranges[0]).value] else []) + Routes(ranges[1..])
  }

  /** `getNetworkClassCIDR` */
  method NetworkClassCidr(ranges: seq<Range>) returns (result: seq<Route>)
    ensures result == Routes(ranges)
  {
    hide RouteOf;
    result := [];
    var i := 0;
    while i < |ranges|
      invariant i <= |ranges| && result + Routes(ranges[i..]) == Routes(ranges)
    {
      assert ranges[i..][1..] == ranges[i + 1..];
      var route := RouteFor(ranges[i]);
      if route.Some? {
        assert (result + [route.value]) + Routes(ranges[i + 1..]) == result + ([route.value] + Routes(ranges[i + 1..]));
        result := result + [route.value];
      }
      i := i + 1;
    }
    assert ranges[i..] == [];
  }

  /** `ip` lies in the block that `base` and `prefix` name. */
  predicate InBlock(ip: U32, base: U32, prefix: nat)
    requires prefix <= 32
  {
    ip / Pow2(32 - prefix) == base / Pow2(32 - prefix)
  }

  /** A range in order gets a route if and only if both ends lie in the same half of the address space. */
  lemma RouteExists(r: Range)
    requires r.start < r.end
    ensures RouteOf(r).Some? <==> (r.start < HALF) == (r.end < HALF)
  {
    SignedOrder(r.start, r.end);
  }

  /** The route covers both ends, and no longer prefix does. */
  lemma RouteLongest(r: Range, j: nat)
    requires RouteOf(r).Some? && j <= 32
    ensures var route := RouteOf(r).value;
      && route.network == Masked(r.start, route.prefix)
      && (InBlock(r.end, r.start, j) <==> j <= route.prefix)
  {
    hide Pow2, CommonBits, Int32;
    U32Pow2(r.start);
    U32Pow2(r.end);
    CommonBitsLongest(r.end, r.start, 32, j);
    CommonBitsSymmetric(r.start, r.end, 32);
  }

  lemma {:induction false} CommonBitsSymmetric(x: nat, y: nat, n: nat)
    requires x < Pow2(n) && y < Pow2(n)
    ensures CommonBits(x, y, n) == CommonBits(y, x, n)
    decreases n
  {
    if x != y {
      CommonBitsSymmetric(x / 2, y / 2, n - 1);
    }
  }

  /**
   * A range that starts in the upper half and ends in the lower one is taken for a range and gives the default route.
   */
  lemma BackwardRange(r: Range)
    requires r.end < HALF <= r.start
    ensures RouteOf(r) == Some(Route(0, 0))
  {
    SignedOrder(r.start, r.end);
    RouteLongest(r, 1);
    Pow2Values();
    Pow2Sum(31, 1);
    assert Pow2(1) == 2;
    SameBlock(r.end, 0, Pow2(31));
    SameBlock(r.start, 1, Pow2(31));
  }

  // ---------------------------------------------------------------------
  // Membership
  // ---------------------------------------------------------------------

  /** A target's prefix is absent when the text has no slash. */
  datatype Target = Target(subnet: U32, prefix: Option<int>)

  /** The low bits ignored by the mask: `1 << NaN` is `1 << 0`. */
  function IgnoredBits(prefix: Option<int>): (n: nat)
    ensures n < 32
  {
    if prefix.None? then 0 else (32 - prefix.value) % 32
  }

  predicate Matches(ip: U32, t: Target) {
    ClearLow(Int32(t.subnet), IgnoredBits(t.prefix)) == ClearLow(Int32(ip), IgnoredBits(t.prefix))
  }

  /** `isIPInSubnet`; None is an entry without a target. */
  method IsIpInSubnet(ip: U32, targets: seq<Option<Target>>) returns (found: bool)
    ensures found <==> exists i | 0 <= i < |targets| :: targets[i].Some? && Matches(ip, targets[i].value)
  {
    for i := 0 to |targets|
      invariant forall j | 0 <= j < i :: !(targets[j].Some? && Matches(ip, targets[j].value))
    {
      if targets[i].Some? && Matches(ip, targets[i].value) {
        return true;
      }
    }
    return false;
  }

  /** Clearing bits of the signed number is clearing them of the unsigned one. */
  lemma ClearSigned(x: U32, n: nat)
    requires n < 32
    ensures Pow2(n) * Pow2(32 - n) == WHOLE
    ensures Int32(x) / Pow2(n) == if x < HALF then x / Pow2(n) else x / Pow2(n) - Pow2(32 - n)
    ensures 0 <= x / Pow2(n) < Pow2(32 - n)
  {
    hide Pow2;
    var p, q := Pow2(n), Pow2(32 - n);
    Pow2Sum(n, 32 - n);
    Pow2Values();
    Commute(p, q);
    QuotientBelow(x, p, q);
    if x >= HALF {
      ShiftedQuotient(x, p, q);
    }
  }

  lemma Commute(p: int, q: int)
    ensures p * q == q * p
  {
  }

  lemma ShiftedQuotient(x: int, p: int, q: int)
    requires p >= 1
    ensures (x - q * p) / p == x / p - q
  {
    var d := x / p;
    DivisionBlock(x, p);
    assert (d - q) * p == d * p - q * p;
    SameBlock(x - q * p, d - q, p);
  }

  lemma MatchesIsBlock(ip: U32, subnet: U32, n: nat)
    requires n < 32
    ensures ClearLow(Int32(subnet), n) == ClearLow(Int32(ip), n) <==> subnet / Pow2(n) == ip / Pow2(n)
  {
    hide Pow2, Int32;
    ClearSigned(ip, n);
    ClearSigned(subnet, n);
    CancelFactor(Int32(subnet) / Pow2(n), Int32(ip) / Pow2(n), Pow2(n));
    HalfOfBlock(ip, n);
    HalfOfBlock(subnet, n);
  }

  lemma Pow2Zero()
    ensures Pow2(0) == 1
  {
  }

  lemma CancelFactor(a: int, b: int, p: int)
    requires p >= 1
    ensures a * p == b * p <==> a == b
  {
    if a < b {
      MulOrder(a + 1, b, p);
    } else if b < a {
      MulOrder(b + 1, a, p);
    }
  }

  lemma QuotientHalf(x: nat, p: int, q: int)
    requires p >= 1
    ensures x < q * p <==> x / p < q
  {
    var d := x / p;
    DivisionBlock(x, p);
    if d < q {
      MulOrder(d + 1, q, p);
    } else {
      MulOrder(q, d, p);
    }
  }

  /** The top bit decides the half, and no mask shorter than 32 bits drops it. */
  lemma HalfOfBlock(x: U32, n: nat)
    requires n < 32
    ensures x < HALF <==> x / Pow2(n) < Pow2(31 - n)
  {
    hide Pow2;
    Pow2Sum(n, 31 - n);
    Pow2Half();
    Commute(Pow2(n), Pow2(31 - n));
    QuotientHalf(x, Pow2(n), Pow2(31 - n));
  }

  /** A target matches the addresses of its block, except that a prefix of zero matches only the address itself. */
  lemma MatchesExact(ip: U32, subnet: U32, prefix: nat)
    requires prefix <= 32
    ensures Matches(ip, Target(subnet, Some(prefix))) <==>
      if prefix == 0 then ip == subnet else InBlock(ip, subnet, prefix)
  {
    hide Int32, Pow2, ClearLow;
    var n := IgnoredBits(Some(prefix));
    assert n == if prefix == 0 then 0 else 32 - prefix;
    MatchesIsBlock(ip, subnet, n);
    Pow2Zero();
  }

  /** Every address between the two ends of a range is accepted against the route of the range. */
  lemma RangeAccepted(r: Range, ip: U32)
    requires r.start < r.end && (r.start < HALF) == (r.end < HALF) && r.start <= ip <= r.end
    ensures RouteOf(r).Some?
    ensures var route := RouteOf(r).value; Matches(ip, Target(route.network, Some(route.prefix)))
  {
    hide Pow2, CommonBits, Int32, Matches;
    RouteExists(r);
    var route := RouteOf(r).value;
    var k := route.prefix;
    RouteLongest(r, k);
    RouteLongest(r, 1);
    SameHalf(r.start, r.end);
    Between(r.start, ip, r.end, Pow2(32 - k));
    MaskedSameBlock(r.start, k);
    MatchesExact(ip, route.network, k);
  }

  lemma SameHalf(x: U32, y: U32)
    requires (x < HALF) == (y < HALF)
    ensures InBlock(y, x, 1)
  {
    Pow2Sum(31, 1);
    Pow2Values();
    assert Pow2(1) == 2;
    SameBlock(x, if x < HALF then 0 else 1, Pow2(31));
    SameBlock(y, if y < HALF then 0 else 1, Pow2(31));
  }

  lemma Between(x: int, y: int, z: int, p: int)
    requires p >= 1 && x <= y <= z && x / p == z / p
    ensures y / p == x / p
  {
    DivisionBlock(x, p);
    DivisionBlock(z, p);
    SameBlock(y, x / p, p);
  }

  lemma MaskedSameBlock(x: U32, k: nat)
    requires 1 <= k <= 32
    ensures 0 <= Masked(x, k) < WHOLE && InBlock(Masked(x, k), x, k)
  {
    hide Pow2;
    MaskedInRange(x, k);
    SameBlock(Masked(x, k), x / Pow2(32 - k), Pow2(32 - k));
  }

  // ---------------------------------------------------------------------
  // Pools
  // ---------------------------------------------------------------------

  datatype Pool = Pool(start: U32, end: U32, route: Route)

  /** `(a << 24) + (b << 16) + (c << 8) + d` */
  function SumOfShifted(a: int, b: int, c: int, d: int): int {
    Int32(a * 0x100_0000) + Int32(b * 0x1_0000) + Int32(c * 0x100) + d
  }

  function SumOfOctets(ip: U32): int {
    var o := Octets(ip);
    SumOfShifted(o[0], o[1], o[2], o[3])
  }

  /** `IPv4gen` for a given subnet: the host mask, the network, and the pool between network and broadcast address. */
  function Generate(ip: U32, prefix: nat): Pool {
    var host32 := Uint32(OneShifted(32 - prefix) - 1);
    var net32 := ClearLow(SumOfOctets(ip), (32 - prefix) % 32);
    Pool(Uint32(net32 + 1), Uint32(net32 + host32 - 1), Route(Uint32(net32), prefix))
  }

  lemma SumIsSigned(ip: U32)
    ensures SumOfOctets(ip) == Int32(ip)
  {
    hide Octets;
    OctetsRoundTrip(ip);
    var o := Octets(ip);
    var a: int, b: int, c: int, d: int := o[0], o[1], o[2], o[3];
    assert Int32(b * 0x1_0000) == b * 0x1_0000 && Int32(c * 0x100) == c * 0x100;
    var x := a * 0x100_0000;
    var rest := b * 0x1_0000 + c * 0x100 + d;
    assert 0 <= rest < 0x100_0000 && x + rest == ip;
  }

  lemma {:induction false} Pow2Grows(m: nat, n: nat)
    requires m <= n
    ensures Pow2(m) <= Pow2(n)
    decreases n
  {
    if m < n {
      Pow2Grows(m, n - 1);
    }
  }

  lemma Pow2Half()
    ensures Pow2(31) == HALF
  {
    Pow2Values();
    assert Pow2(32) == 2 * Pow2(31);
  }

  /** `((1 << n) - 1) >>> 0` is the mask of the low `n` bits for every `n` below 32, the sign bit included. */
  lemma HostMask(n: nat)
    requires n < 32
    ensures 1 <= Pow2(n) <= HALF && Uint32(OneShifted(n) - 1) == Pow2(n) - 1
  {
    hide Pow2, Int32;
    Pow2Grows(n, 31);
    Pow2Half();
    MaskNumber(Pow2(n));
    assert n % 32 == n;
  }

  lemma MaskNumber(p: int)
    requires 1 <= p <= HALF
    ensures Uint32(Int32(p) - 1) == p - 1
  {
  }

  /** The pool for a network given by its signed number. */
  function PoolAt(net32: int, size: int, prefix: nat): Pool {
    Pool(Uint32(net32 + 1), Uint32(net32 + (size - 1) - 1), Route(Uint32(net32), prefix))
  }

  lemma PoolEnds(net32: int, network: U32, size: int, prefix: nat)
    requires net32 == network || net32 == network - WHOLE
    ensures PoolAt(net32, size, prefix) ==
      Pool((network + 1) % WHOLE, (network + size - 2) % WHOLE, Route(network, prefix))
  {
  }

  /** The prefix the shifts work with: a shift by 32 is a shift by 0. */
  function Effective(prefix: nat): nat {
    if prefix == 0 then 32 else prefix
  }

  /** A block of addresses lies in the address space, and so does its signed number. */
  lemma NetNumber(ip: U32, n: nat)
    requires n < 32
    ensures var p := Pow2(n); var network := ip / p * p;
      && 0 <= network <= ip && network + p <= WHOLE && network / p == ip / p
      && (Int32(ip) / p * p == network || Int32(ip) / p * p == network - WHOLE)
  {
    hide Pow2, Int32;
    var d, p, q := ip / Pow2(n), Pow2(n), Pow2(32 - n);
    ClearSigned(ip, n);
    BlockBase(ip, p);
    BlockEnds(d, p, q);
    SameBlock(d * p, d, p);
  }

  lemma GenerateIsPoolAt(ip: U32, prefix: nat)
    requires prefix <= 32
    ensures var p := Pow2(32 - Effective(prefix)); Generate(ip, prefix) == PoolAt(Int32(ip) / p * p, p, prefix)
  {
    hide Pow2, SumOfOctets, Int32, Uint32, OneShifted;
    SumIsSigned(ip);
    SameShift(prefix);
    HostMask(32 - Effective(prefix));
  }

  lemma PoolNumbers(ip: U32, prefix: nat)
    requires prefix <= 32
    ensures var pool, k := Generate(ip, prefix), Effective(prefix); var network, size := Masked(ip, k), Pow2(32 - k);
      && 0 <= network <= ip && network + size <= WHOLE && network / size == ip / size && network == ip / size * size
      && pool.route == Route(network, prefix)
      && pool.start == (network + 1) % WHOLE && pool.end == (network + size - 2) % WHOLE
  {
    hide Pow2, Int32, Generate, PoolAt;
    var p := Pow2(32 - Effective(prefix));
    var network := ip / p * p;
    NetNumber(ip, 32 - Effective(prefix));
    GenerateIsPoolAt(ip, prefix);
    PoolEnds(Int32(ip) / p * p, network, p, prefix);
  }

  lemma SameShift(prefix: nat)
    requires prefix <= 32
    ensures OneShifted(32 - prefix) == OneShifted(32 - Effective(prefix))
    ensures (32 - prefix) % 32 == 32 - Effective(prefix)
  {
    hide Int32, Pow2;
  }

  /** The addresses of a subnet but its first and its last one. */
  predicate IsHost(x: U32, ip: U32, prefix: nat)
    requires prefix <= 32
  {
    InBlock(x, ip, prefix) && x != Masked(ip, prefix) && x != Masked(ip, prefix) + Pow2(32 - prefix) - 1
  }

  ghost predicate HoldsHosts(pool: Pool, ip: U32, prefix: nat)
    requires prefix <= 32
  {
    forall x: U32 :: pool.start <= x <= pool.end <==> IsHost(x, ip, prefix)
  }

  /**
   * A generated pool is every address of its subnet but the first and the last one, exactly when the prefix is not zero
   * and the subnet is not a single address at one end of the address space.
   */
  lemma PoolExact(ip: U32, prefix: nat)
    requires prefix <= 32
    ensures HoldsHosts(Generate(ip, prefix), ip, prefix) <==> prefix != 0 && (prefix == 32 ==> 0 < ip < WHOLE - 1)
  {
    hide Pow2, Generate;
    PoolNumbers(ip, prefix);
    if prefix == 0 {
      WholeSpace(ip);
    } else if prefix == 32 {
      SingleAddress(ip);
    } else {
      forall x: U32
        ensures Generate(ip, prefix).start <= x <= Generate(ip, prefix).end <==> IsHost(x, ip, prefix)
      {
        HostOfBlock(x, ip, prefix);
      }
    }
  }

  lemma HostOfBlock(x: U32, ip: U32, prefix: nat)
    requires 1 <= prefix <= 31
    ensures var pool := Generate(ip, prefix); pool.start <= x <= pool.end <==> IsHost(x, ip, prefix)
  {
    hide Pow2, Generate, IsHost, Masked;
    var p, network, d := Pow2(32 - prefix), Masked(ip, prefix), ip / Pow2(32 - prefix);
    NextPower(32 - prefix);
    PoolNumbers(ip, prefix);
    SmallNumber(network + 1);
    SmallNumber(network + p - 2);
    InnerOfBlock(x, d, network, p);
    HostMeans(x, ip, prefix);
  }

  lemma HostMeans(x: U32, ip: U32, prefix: nat)
    requires prefix <= 32
    ensures var p, network := Pow2(32 - prefix), Masked(ip, prefix);
      IsHost(x, ip, prefix) <==> x / p == ip / p && x != network && x != network + p - 1
  {
    hide Pow2, Masked;
  }

  lemma SmallNumber(v: int)
    requires 0 <= v < WHOLE
    ensures v % WHOLE == v
  {
  }

  lemma InnerOfBlock(x: int, d: int, network: int, p: int)
    requires p >= 1 && network == d * p
    ensures network + 1 <= x <= network + p - 2 <==> x / p == d && x != network && x != network + p - 1
  {
    if x / p == d {
      DivisionBlock(x, p);
    } else if network <= x < network + p {
      SameBlock(x, d, p);
    }
  }

  /** A prefix of zero gives the pool of a single address, not the hosts of the whole space. */
  lemma WholeSpace(ip: U32)
    ensures !HoldsHosts(Generate(ip, 0), ip, 0)
  {
    hide Pow2, Generate;
    PoolNumbers(ip, 0);
    Pow2Zero();
    Pow2Values();
    var pool := Generate(ip, 0);
    EveryHost(ip);
    if ip == 0 {
      assert pool.start <= WHOLE - 1 <= pool.end && !IsHost(WHOLE - 1, ip, 0);
    } else if ip == WHOLE - 1 {
      assert pool.start <= 0 <= pool.end && !IsHost(0, ip, 0);
    } else {
      assert !(pool.start <= ip <= pool.end) && IsHost(ip, ip, 0);
    }
  }

  lemma EveryHost(ip: U32)
    ensures forall x: U32 :: IsHost(x, ip, 0) <==> 0 < x < WHOLE - 1
  {
    hide Pow2;
    Pow2Values();
    forall x: U32 ensures IsHost(x, ip, 0) <==> 0 < x < WHOLE - 1 {
      SameBlock(x, 0, WHOLE);
      SameBlock(ip, 0, WHOLE);
    }
  }

  lemma SingleAddress(ip: U32)
    ensures HoldsHosts(Generate(ip, 32), ip, 32) <==> 0 < ip < WHOLE - 1
  {
    hide Pow2, Generate;
    PoolNumbers(ip, 32);
    Pow2Zero();
    var pool := Generate(ip, 32);
    assert forall x: U32 :: !IsHost(x, ip, 32);
    if ip == 0 {
      assert pool.start <= 1 <= pool.end && !IsHost(1, ip, 32);
    } else if ip == WHOLE - 1 {
      assert pool.start <= 0 <= pool.end && !IsHost(0, ip, 32);
    }
  }

  lemma PoolSize(n: nat)
    requires 2 <= n
    ensures Pow2(n) >= 4
  {
    Pow2Sum(2, n - 2);
    assert Pow2(2) == 4;
    assert 4 * 1 <= 4 * Pow2(n - 2);
  }

  lemma BlockEnds(d: int, p: int, q: int)
    requires 0 <= d < q && p >= 1
    ensures 0 <= d * p && d * p + p <= q * p && (d - q) * p == d * p - q * p && q * p == p * q
  {
    MulOrder(d + 1, q, p);
    MulOrder(0, d, p);
  }

  /**
   * The route computed back from a generated pool is the route the pool was generated with, exactly when the subnet has
   * two hosts or more and is not the whole space.
   */
  lemma PoolRouteRoundTrip(ip: U32, prefix: nat)
    requires prefix <= 32
    ensures var pool := Generate(ip, prefix);
      RouteOf(Range(pool.start, pool.end)) == Some(pool.route) <==> 1 <= prefix <= 30
  {
    hide Generate, Pow2, RouteOf;
    if 1 <= prefix <= 30 {
      HostsGiveRoute(ip, prefix);
    } else {
      NoHostsNoRoute(ip, prefix);
    }
  }

  /** A pool without hosts is inverted, so it gives no route, or the default route where the sign changes. */
  lemma NoHostsNoRoute(ip: U32, prefix: nat)
    requires prefix == 0 || 31 <= prefix <= 32
    ensures var pool := Generate(ip, prefix); RouteOf(Range(pool.start, pool.end)) != Some(pool.route)
  {
    hide Generate, Pow2, RouteOf;
    PoolNumbers(ip, prefix);
    Pow2Zero();
    assert Pow2(1) == 2 by { PowOne(); }
    var pool, network := Generate(ip, prefix), Masked(ip, Effective(prefix));
    var range := Range(pool.start, pool.end);
    if pool.end < HALF <= pool.start {
      BackwardRange(range);
    } else {
      NoRouteSigned(range);
    }
  }

  lemma PowOne()
    ensures Pow2(1) == 2
  {
  }

  lemma NoRouteSigned(r: Range)
    requires !(r.end < HALF <= r.start) && (r.end <= r.start || r.start < HALF <= r.end)
    ensures RouteOf(r).None?
  {
    hide CommonBits, Pow2;
  }

  lemma HostsGiveRoute(ip: U32, prefix: nat)
    requires 1 <= prefix <= 30
    ensures var pool := Generate(ip, prefix); RouteOf(Range(pool.start, pool.end)) == Some(pool.route)
  {
    hide Generate, Pow2, CommonBits, Int32, RouteOf;
    PoolNumbers(ip, prefix);
    PoolSize(32 - prefix);
    var pool, p := Generate(ip, prefix), Pow2(32 - prefix);
    var range, d := Range(pool.start, pool.end), ip / p;
    SmallNumber(d * p + 1);
    SmallNumber(d * p + p - 2);
    SameBlock(pool.start, d, p);
    SameBlock(pool.end, d, p);
    HalfOfBlock(pool.start, 32 - prefix);
    HalfOfBlock(pool.end, 32 - prefix);
    RouteExists(range);
    RouteLongest(range, prefix);
    RouteLongest(range, prefix + 1);
    NextBitDiffers(d, prefix);
    MaskedByBlock(pool.start, ip, prefix);
  }

  /** The first and the last usable address differ in the bit after the prefix. */
  lemma NextBitDiffers(d: int, prefix: nat)
    requires 1 <= prefix <= 30
    ensures var p, h := Pow2(32 - prefix), Pow2(31 - prefix); (d * p + 1) / h != (d * p + p - 2) / h
  {
    var h := Pow2(31 - prefix);
    assert Pow2(32 - prefix) == 2 * h;
    NextPower(31 - prefix);
    assert d * (2 * h) == (2 * d) * h;
    SameBlock(d * (2 * h) + 1, 2 * d, h);
    assert (2 * d + 1) * h == (2 * d) * h + h;
    SameBlock(d * (2 * h) + 2 * h - 2, 2 * d + 1, h);
  }

  lemma NextPower(n: nat)
    requires n >= 1
    ensures Pow2(n) >= 2
  {
  }

  lemma MaskedByBlock(x: U32, y: U32, k: nat)
    requires 1 <= k <= 32 && x / Pow2(32 - k) == y / Pow2(32 - k)
    ensures Masked(x, k) == Masked(y, k)
  {
  }
}
