/** Addresses, destination policy and framed byte stream of the relay. */
module RelayFrames {
  import opened Basics
  import opened ByteOrder
  import opened AddressBits

  /** An IPv4 socket address; the relay refuses IPv6 destinations before they get this far. */
  datatype SocketAddr = SocketAddr(ip: U32, port: U16)

  // ---------------------------------------------------------------------
  // CIDR blocks
  // ---------------------------------------------------------------------

  datatype Cidr = Cidr(network: int, prefix: nat)

  function MakeCidr(ip: U32, prefix: nat): Option<Cidr> {
    if prefix > 32 then None else Some(Cidr(Masked(ip, prefix), prefix))
  }

  predicate Contains(c: Cidr, ip: U32)
    requires c.prefix <= 32
  {
    Masked(ip, c.prefix) == c.network
  }

  /** Prefixes above 32 are refused; any other block is the interval of all addresses that share its prefix. */
  lemma ContainsIsInterval(base: U32, prefix: nat, ip: U32)
    ensures MakeCidr(base, prefix).None? <==> prefix > 32
    ensures prefix <= 32 ==>
      var c := MakeCidr(base, prefix).value; Contains(c, ip) <==> c.network <= ip < c.network + Pow2(32 - prefix)
  {
    if prefix <= 32 {
      BlockIsInterval(base, prefix, ip);
    }
  }

  lemma BlockIsInterval(base: U32, prefix: nat, ip: U32)
    requires prefix <= 32
    ensures var network := Masked(base, prefix);
      Masked(ip, prefix) == network <==> network <= ip < network + Pow2(32 - prefix)
  {
    var p := Pow2(32 - prefix);
    if prefix == 0 {
      Pow2Values();
    } else {
      DivisionBlock(ip, p);
      if Masked(base, prefix) <= ip < Masked(base, prefix) + p {
        SameBlock(ip, base / p, p);
      }
    }
  }

  // ---------------------------------------------------------------------
  // Destination policy
  // ---------------------------------------------------------------------

  /** The block that `base` and `prefix` name, by the mask the code applies. */
  predicate Covers(ip: U32, base: U32, prefix: nat)
    requires prefix <= 32
  {
    Contains(Cidr(Masked(base, prefix), prefix), ip)
  }

  /** Not in any of the fifteen special-purpose blocks. */
  predicate IsGlobalUnicast(ip: U32) {
    && !Covers(ip, 0x0000_0000, 8) // 0.0.0.0/8
    && !Covers(ip, 0x0A00_0000, 8) // 10.0.0.0/8
    && !Covers(ip, 0x6440_0000, 10) // 100.64.0.0/10
    && !Covers(ip, 0x7F00_0000, 8) // 127.0.0.0/8
    && !Covers(ip, 0xA9FE_0000, 16) // 169.254.0.0/16
    && !Covers(ip, 0xAC10_0000, 12) // 172.16.0.0/12
    && !Covers(ip, 0xC000_0000, 24) // 192.0.0.0/24
    && !Covers(ip, 0xC000_0200, 24) // 192.0.2.0/24
    && !Covers(ip, 0xC058_6300, 24) // 192.88.99.0/24
    && !Covers(ip, 0xC0A8_0000, 16) // 192.168.0.0/16
    && !Covers(ip, 0xC612_0000, 15) // 198.18.0.0/15
    && !Covers(ip, 0xC633_6400, 24) // 198.51.100.0/24
    && !Covers(ip, 0xCB00_7100, 24) // 203.0.113.0/24
    && !Covers(ip, 0xE000_0000, 4) // 224.0.0.0/4
    && !Covers(ip, 0xF000_0000, 4) // 240.0.0.0/4
  }

  /** Outside the address ranges of those blocks. */
  predicate OutsideRanges(ip: U32) {
    && !(0x0000_0000 <= ip < 0x1000000)
    && !(0x0A00_0000 <= ip < 0xB000000)
    && !(0x6440_0000 <= ip < 0x64800000)
    && !(0x7F00_0000 <= ip < 0x80000000)
    && !(0xA9FE_0000 <= ip < 0xA9FF0000)
    && !(0xAC10_0000 <= ip < 0xAC200000)
    && !(0xC000_0000 <= ip < 0xC0000100)
    && !(0xC000_0200 <= ip < 0xC0000300)
    && !(0xC058_6300 <= ip < 0xC0586400)
    && !(0xC0A8_0000 <= ip < 0xC0A90000)
    && !(0xC612_0000 <= ip < 0xC6140000)
    && !(0xC633_6400 <= ip < 0xC6336500)
    && !(0xCB00_7100 <= ip < 0xCB007200)
    && !(0xE000_0000 <= ip < 0xF0000000)
    && !(0xF000_0000 <= ip < 0x100000000)
  }

  /** The policy read off the octets of the address. */
  predicate Public(a: Byte, b: Byte, c: Byte) {
    && a != 0 && a != 10 && a != 127 && a < 224
    && !(a == 100 && 64 <= b < 128)
    && !(a == 169 && b == 254)
    && !(a == 172 && 16 <= b < 32)
    && !(a == 192 && b == 0 && (c == 0 || c == 2))
    && !(a == 192 && b == 88 && c == 99)
    && !(a == 192 && b == 168)
    && !(a == 198 && (b == 18 || b == 19))
    && !(a == 198 && b == 51 && c == 100)
    && !(a == 203 && b == 0 && c == 113)
  }

  lemma BlockRange(ip: U32, base: U32, prefix: nat, size: int)
    requires 0 < prefix <= 32 && size == Pow2(32 - prefix) && base % size == 0
    ensures Covers(ip, base, prefix) <==> base <= ip < base + size
  {
    assert Masked(base, prefix) == base;
    BlockIsInterval(base, prefix, ip);
  }

  lemma PolicyByRanges(ip: U32)
    ensures IsGlobalUnicast(ip) <==> OutsideRanges(ip)
  {
    hide Covers, Pow2;
    Pow2Values();
    BlockRange(ip, 0x0000_0000, 8, 0x1000000);
    BlockRange(ip, 0x0A00_0000, 8, 0x1000000);
    BlockRange(ip, 0x6440_0000, 10, 0x400000);
    BlockRange(ip, 0x7F00_0000, 8, 0x1000000);
    BlockRange(ip, 0xA9FE_0000, 16, 0x10000);
    BlockRange(ip, 0xAC10_0000, 12, 0x100000);
    BlockRange(ip, 0xC000_0000, 24, 0x100);
    BlockRange(ip, 0xC000_0200, 24, 0x100);
    BlockRange(ip, 0xC058_6300, 24, 0x100);
    BlockRange(ip, 0xC0A8_0000, 16, 0x10000);
    BlockRange(ip, 0xC612_0000, 15, 0x20000);
    BlockRange(ip, 0xC633_6400, 24, 0x100);
    BlockRange(ip, 0xCB00_7100, 24, 0x100);
    BlockRange(ip, 0xE000_0000, 4, 0x10000000);
    BlockRange(ip, 0xF000_0000, 4, 0x10000000);
  }

  /** The fifteen masks say exactly what the octets say. */
  lemma PolicyByOctets(a: Byte, b: Byte, c: Byte, d: Byte)
    ensures IsGlobalUnicast(Ip(a, b, c, d)) <==> Public(a, b, c)
  {
    hide IsGlobalUnicast;
    PolicyByRanges(Ip(a, b, c, d));
  }

  // ---------------------------------------------------------------------
  // Frames
  // ---------------------------------------------------------------------

  const HEADER_LEN: int := 5
  const ADDRESS_HEADER_LEN: int := 7
  const MIN_FRAME_LEN: int := 23

  datatype Message = Message(to: SocketAddr, payload: Bytes)

  /** What `write_frame` puts on the stream; None when the payload is too large. */
  function WriteFrame(m: Message): Option<Bytes> {
    if ADDRESS_HEADER_LEN + |m.payload| > 0xffff then None
    else Some([0x17, 3, 3] + U16Bytes(ADDRESS_HEADER_LEN + |m.payload|) +
      ([4] + Octets(m.to.ip) + U16Bytes(m.to.port) + m.payload))
  }

  datatype FrameResult = Parsed(message: Message) | Protocol | Destination

  predicate Allowed(to: SocketAddr, minPort: U16) {
    IsGlobalUnicast(to.ip) && to.port >= minPort
  }

  function ParseFrame(frame: Bytes, minPort: U16): FrameResult {
    if |frame| < MIN_FRAME_LEN then Protocol
    else if frame[0] != 4 then Protocol
    else
      var to := SocketAddr(Ip(frame[1], frame[2], frame[3], frame[4]), U16Of(frame[5], frame[6]));
      if !Allowed(to, minPort) then Destination else Parsed(Message(to, frame[ADDRESS_HEADER_LEN..]))
  }

  datatype Config = Config(minPort: U16, maxFrameLen: nat, handshake: nat, idle: nat)

  /** The length announced by a record header; None when the header is refused. */
  function FrameLength(header: Bytes, cfg: Config): (r: Option<nat>)
    requires |header| == HEADER_LEN
    ensures r.Some? ==> MIN_FRAME_LEN <= r.value <= cfg.maxFrameLen
  {
    if header[..3] != [0x17, 3, 3] then None
    else
      var n := U16Of(header[3], header[4]);
      if MIN_FRAME_LEN <= n <= cfg.maxFrameLen then Some(n) else None
  }

  /**
   * The requests in a byte stream: refused destinations are skipped, a protocol error or an incomplete record ends it.
   */
  function Requests(bytes: Bytes, cfg: Config): seq<Message>
    decreases |bytes|
  {
    if |bytes| < HEADER_LEN then []
    else
      match FrameLength(bytes[..HEADER_LEN], cfg)
      case None => []
      case Some(n) =>
        if |bytes| < HEADER_LEN + n then []
        else
          var rest := bytes[HEADER_LEN + n..];
          match ParseFrame(bytes[HEADER_LEN..HEADER_LEN + n], cfg.minPort)
          case Protocol => []
          case Destination => Requests(rest, cfg)
          case Parsed(m) => [m] + Requests(rest, cfg)
  }

  // ---------------------------------------------------------------------
  // Round trip
  // ---------------------------------------------------------------------

  predicate Sendable(m: Message, cfg: Config) {
    16 <= |m.payload| <= cfg.maxFrameLen - ADDRESS_HEADER_LEN && ADDRESS_HEADER_LEN + |m.payload| <= 0xffff
  }

  function Encode(ms: seq<Message>): Bytes
    requires forall m | m in ms :: WriteFrame(m).Some?
  {
    if ms == [] then [] else WriteFrame(ms[0]).value + Encode(ms[1..])
  }

  function Admissible(ms: seq<Message>, cfg: Config): seq<Message> {
    if ms == [] then []
    else if Allowed(ms[0].to, cfg.minPort) then [ms[0]] + Admissible(ms[1..], cfg)
    else Admissible(ms[1..], cfg)
  }

  lemma AddressRoundTrip(ip: U32, n: U16)
    ensures var o := Octets(ip); Ip(o[0], o[1], o[2], o[3]) == ip
    ensures U16Of(U16Bytes(n)[0], U16Bytes(n)[1]) == n
  {
    hide Octets, Ip;
    OctetsRoundTrip(ip);
  }

  function FrameBody(m: Message): Bytes {
    [4] + Octets(m.to.ip) + U16Bytes(m.to.port) + m.payload
  }

  /**
   * Byte by byte: four octets and a big-endian port lead to the payload behind them, if the octets are public, the port
   * is no lower than permitted, and at least 16 bytes follow.
   */
  lemma FrameExact(kind: Byte, a: Byte, b: Byte, c: Byte, d: Byte, hi: Byte, lo: Byte, payload: Bytes, minPort: U16)
    ensures var frame, port := [kind, a, b, c, d, hi, lo] + payload, hi * 0x100 + lo;
      ParseFrame(frame, minPort) ==
        if |payload| < 16 || kind != 4 then Protocol
        else if Public(a, b, c) && port >= minPort then Parsed(Message(SocketAddr(Ip(a, b, c, d), port), payload))
        else Destination
  {
    hide IsGlobalUnicast, Public;
    PolicyByOctets(a, b, c, d);
    assert ([kind, a, b, c, d, hi, lo] + payload)[ADDRESS_HEADER_LEN..] == payload;
  }

  lemma BodyRoundTrip(m: Message, minPort: U16)
    requires |m.payload| >= 16
    ensures ParseFrame(FrameBody(m), minPort) == if Allowed(m.to, minPort) then Parsed(m) else Destination
  {
    hide Allowed, Ip, U16Of, Octets, U16Bytes;
    AddressRoundTrip(m.to.ip, m.to.port);
    AddressShape(m.to.ip, m.to.port);
    var frame, o, q := FrameBody(m), Octets(m.to.ip), U16Bytes(m.to.port);
    assert frame[1] == o[0] && frame[2] == o[1] && frame[3] == o[2] && frame[4] == o[3];
    assert frame[5] == q[0] && frame[6] == q[1];
    assert frame[ADDRESS_HEADER_LEN..] == m.payload;
  }

  lemma AddressShape(ip: U32, n: U16)
    ensures |Octets(ip)| == 4 && |U16Bytes(n)| == 2
  {
  }

  /** The first record of a stream that begins with a written frame. */
  lemma FirstRecord(m: Message, tail: Bytes, cfg: Config)
    requires Sendable(m, cfg)
    ensures Requests(WriteFrame(m).value + tail, cfg) ==
      (if Allowed(m.to, cfg.minPort) then [m] else []) + Requests(tail, cfg)
  {
    hide Allowed, Ip, U16Of, Octets, U16Bytes, ParseFrame;
    AddressShape(m.to.ip, m.to.port);
    var n := ADDRESS_HEADER_LEN + |m.payload|;
    AddressShape(m.to.ip, n);
    AddressRoundTrip(m.to.ip, n);
    var body, bytes := FrameBody(m), WriteFrame(m).value + tail;
    var header := [0x17, 3, 3] + U16Bytes(n);
    assert WriteFrame(m).value == header + body;
    assert bytes[..HEADER_LEN] == header;
    assert header[..3] == [0x17, 3, 3] && header[3] == U16Bytes(n)[0] && header[4] == U16Bytes(n)[1];
    assert FrameLength(header, cfg) == Some(n);
    assert bytes[HEADER_LEN..HEADER_LEN + n] == body;
    assert bytes[HEADER_LEN + n..] == tail;
    BodyRoundTrip(m, cfg.minPort);
  }

  /** Reading back any list of written frames gives exactly those messages whose destination is allowed, in order. */
  lemma {:induction false} StreamRoundTrip(ms: seq<Message>, tail: Bytes, cfg: Config)
    requires forall m | m in ms :: Sendable(m, cfg)
    ensures forall m | m in ms :: WriteFrame(m).Some?
    ensures Requests(Encode(ms) + tail, cfg) == Admissible(ms, cfg) + Requests(tail, cfg)
  {
    hide Requests, WriteFrame, Allowed;
    Encodable(ms, cfg);
    if ms == [] {
      assert Encode(ms) + tail == tail;
    } else {
      Encodable(ms[1..], cfg);
      assert Encode(ms) + tail == WriteFrame(ms[0]).value + (Encode(ms[1..]) + tail);
      FirstRecord(ms[0], Encode(ms[1..]) + tail, cfg);
      StreamRoundTrip(ms[1..], tail, cfg);
    }
  }

  lemma Encodable(ms: seq<Message>, cfg: Config)
    requires forall m | m in ms :: Sendable(m, cfg)
    ensures forall m | m in ms :: WriteFrame(m).Some?
  {
  }

  /** With allowed destinations nothing is lost, reordered or altered. */
  lemma {:induction false} AllowedListRoundTrip(ms: seq<Message>, cfg: Config)
    requires forall m | m in ms :: Sendable(m, cfg) && Allowed(m.to, cfg.minPort)
    ensures forall m | m in ms :: WriteFrame(m).Some?
    ensures Requests(Encode(ms), cfg) == ms
  {
    hide WriteFrame, Allowed;
    Encodable(ms, cfg);
    StreamRoundTrip(ms, [], cfg);
    AllAdmissible(ms, cfg);
    assert Encode(ms) + [] == Encode(ms);
  }

  lemma {:induction false} AllAdmissible(ms: seq<Message>, cfg: Config)
    requires forall m | m in ms :: Allowed(m.to, cfg.minPort)
    ensures Admissible(ms, cfg) == ms
  {
    hide Allowed;
    if ms != [] {
      AllAdmissible(ms[1..], cfg);
    }
  }

  // ---------------------------------------------------------------------
  // Reading from TCP
  // ---------------------------------------------------------------------

  /** What one `read` call returns, and the time that passes before and during it. */
  datatype Got = Data(count: nat) | Closed | Blocked | Fault
  datatype Tick = Tick(lag: nat, took: nat, got: Got)

  datatype ReadResult = Done | Eof | TimedOut | Failed

  /** How the request loop ended. */
  datatype Outcome = Refused | Broken(why: ReadResult)

  lemma NextChunk(start: Bytes, stream: Bytes, at: nat, count: nat)
    requires at <= |stream| && count <= |stream[at..]|
    ensures (start + stream[..at]) + stream[at..][..count] == start + stream[..at + count]
    ensures stream[at..][..count] == stream[at..at + count]
    ensures stream[at..][count..] == stream[at + count..]
  {
  }

  /** A connection: the bytes still to be read, the clock, and an arbitrary schedule of what the network does. */
  class TcpStream {
    var pending: Bytes
    var now: nat
    var calls: nat
    const schedule: nat -> Tick

    constructor (bytes: Bytes, schedule: nat -> Tick)
      ensures pending == bytes && now == 0
    {
      pending, now, calls := bytes, 0, 0;
      this.schedule := schedule;
    }

    /** The clock as read at the top of the loop in `read_exact_deadline`. */
    method Clock() returns (t: nat)
      modifies this`now
      ensures t == now && now >= old(now)
    {
      now := now + schedule(calls).lag;
      t := now;
    }

    /**
     * One `read` into `buffer[from..upto]`. End of stream comes after the last byte; a read that times out takes time.
     */
    method Read(buffer: array<Byte>, from: nat, upto: nat) returns (got: Got)
      requires from < upto <= buffer.Length
      modifies this`pending, this`now, this`calls, buffer
      ensures now >= old(now)
      ensures got.Data? ==> 0 < got.count <= upto - from && got.count <= |old(pending)|
      ensures got.Data? ==> buffer[..from + got.count] == old(buffer[..from]) + old(pending)[..got.count]
      ensures got.Data? ==> pending == old(pending)[got.count..]
      ensures !got.Data? ==> pending == old(pending) && buffer[..from] == old(buffer[..from])
      ensures got.Closed? ==> pending == []
      ensures got.Blocked? ==> now > old(now)
    {
      var tick := schedule(calls);
      calls := calls + 1;
      now := now + tick.took;
      got := tick.got;
      if got.Data? {
        var n := if got.count < upto - from then got.count else upto - from;
        n := if n < |pending| then n else |pending|;
        if n > 0 {
          forall i | 0 <= i < n {
            buffer[from + i] := pending[i];
          }
          assert buffer[..from + n] == old(buffer[..from]) + pending[..n];
          pending := pending[n..];
          got := Data(n);
        } else {
          got := Blocked;
        }
      }
      if got.Closed? && pending != [] {
        got := Fault;
      }
      if got.Blocked? {
        now := now + 1;
      }
    }

    /** One turn of the loop in `read_exact_deadline`: the bytes that came in time, or how the call ends. */
    method Turn(buffer: array<Byte>, from: nat, upto: nat, deadline: nat) returns (end: Option<ReadResult>, count: nat)
      requires from < upto <= buffer.Length
      modifies this`pending, this`now, this`calls, buffer
      ensures now >= old(now) && |pending| <= |old(pending)| && count <= upto - from && count <= |old(pending)|
      ensures end.None? ==> now < deadline && (count == 0 ==> now > old(now))
      ensures end.None? ==> buffer[..from + count] == old(buffer[..from]) + old(pending)[..count]
      ensures end.None? ==> pending == old(pending)[count..]
      ensures end.Some? ==> !end.value.Done?
      ensures end == Some(Eof) ==> old(pending) == []
      ensures end == Some(TimedOut) ==> now >= deadline
    {
      var at := Clock();
      if at >= deadline {
        return Some(TimedOut), 0;
      }
      var got := Read(buffer, from, upto);
      match got {
        case Closed => return Some(Eof), 0;
        case Data(n) => end, count := if now >= deadline then Some(TimedOut) else None, n;
        case Blocked => end, count := if now >= deadline then Some(TimedOut) else None, 0;
        case Fault => return Some(Failed), 0;
      }
    }

    /**
     * `read_exact_deadline`: a filled buffer holds exactly the next bytes of the stream, however they arrive, and in
     * time.
     */
    method ReadExact(buffer: array<Byte>, from: nat, upto: nat, deadline: nat) returns (r: ReadResult)
      requires from <= upto <= buffer.Length
      modifies this`pending, this`now, this`calls, buffer
      ensures now >= old(now) && |pending| <= |old(pending)|
      ensures r.Done? ==> upto - from <= |old(pending)| && (from < upto ==> now < deadline)
      ensures r.Done? ==> buffer[..upto] == old(buffer[..from]) + old(pending)[..upto - from]
      ensures r.Done? ==> pending == old(pending)[upto - from..]
      ensures r.Eof? ==> pending == [] && |old(pending)| < upto - from
      ensures r.TimedOut? ==> now >= deadline
    {
      var offset := from;
      ghost var start, stream := buffer[..from], pending;
      while offset < upto
        invariant from <= offset <= upto && now >= old(now) && offset - from <= |stream|
        invariant buffer[..offset] == start + stream[..offset - from]
        invariant pending == stream[offset - from..]
        invariant offset > from ==> now < deadline
        decreases (upto - offset) + (if now < deadline then deadline - now else 0)
      {
        var end, count := Turn(buffer, offset, upto, deadline);
        if end.Some? {
          return end.value;
        }
        NextChunk(start, stream, offset - from, count);
        offset := offset + count;
      }
      r := Done;
    }

    /**
      * `read_record_header`: the first byte, which comes at `first`, may take the idle timeout, the others share the
      * handshake timeout.
      */
    method ReadHeader(header: array<Byte>, cfg: Config) returns (r: ReadResult, ghost first: nat)
      requires header.Length == HEADER_LEN
      modifies this`pending, this`now, this`calls, header
      ensures now >= old(now) && |pending| <= |old(pending)|
      ensures r.Done? ==> |old(pending)| >= HEADER_LEN && header[..] == old(pending)[..HEADER_LEN]
      ensures r.Done? ==> pending == old(pending)[HEADER_LEN..]
      ensures r.Done? ==> old(now) <= first < old(now) + cfg.idle && first <= now < first + cfg.handshake
      ensures r.TimedOut? ==>
        now >= old(now) + cfg.idle || (first < old(now) + cfg.idle && now >= first + cfg.handshake)
      ensures r.Eof? ==> pending == [] && |old(pending)| < HEADER_LEN
    {
      ghost var stream := pending;
      r := ReadExact(header, 0, 1, now + cfg.idle);
      first := now;
      if r.Done? {
        r := ReadExact(header, 1, HEADER_LEN, now + cfg.handshake);
        if r.Done? {
          NextChunk([], stream, 1, HEADER_LEN - 1);
          assert header[..] == header[..HEADER_LEN];
        }
      }
    }

    /**
      * The request loop of `relay_requests`, reduced to what it reads: always a prefix of the requests in the stream,
      * and all of them once the loop ends by refusing a record or at the end of the stream.
      * `unread` is the stream behind the last complete record.
      */
    method ReadRequests(cfg: Config) returns (ms: seq<Message>, outcome: Outcome, ghost unread: Bytes)
      modifies this`pending, this`now, this`calls
      ensures Requests(old(pending), cfg) == ms + Requests(unread, cfg)
      ensures outcome.Refused? || outcome.why.Eof? ==> ms == Requests(old(pending), cfg)
    {
      hide ParseFrame, FrameLength;
      ms, unread := [], pending;
      while true
        invariant Requests(old(pending), cfg) == ms + Requests(unread, cfg)
        invariant unread == pending
        decreases |pending|
      {
        var header := new Byte[HEADER_LEN];
        var r, _ := ReadHeader(header, cfg);
        if !r.Done? {
          return ms, Broken(r), unread;
        }
        var length := FrameLength(header[..], cfg);
        if length.None? {
          return ms, Refused, unread;
        }
        var n := length.value;
        var frame := new Byte[n];
        r := ReadExact(frame, 0, n, now + cfg.handshake);
        if !r.Done? {
          return ms, Broken(r), unread;
        }
        NextChunk([], unread, HEADER_LEN, n);
        assert frame[..] == frame[..n];
        var parsed := ParseFrame(frame[..], cfg.minPort);
        match parsed {
          case Protocol => return ms, Refused, unread;
          case Destination =>
          case Parsed(m) => ms := ms + [m];
        }
        unread := pending;
      }
    }
  }
}
