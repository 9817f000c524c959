/**
 * Response credit of one relayed connection: the requester and the responder thread share a table of credits.
 * Each lock region, and each operation outside the lock, is one step; a schedule interleaves the two threads.
 */
module RelayCredit {
  import opened Basics
  import opened ByteOrder
  import opened AddressBits
  import opened RelayFrames
  import RelayRate

  const MAX_RESPONSE_CREDIT: nat := 16384
  const PACKET_BUFFER: nat := 4096

  datatype Limits = Limits(maxDestinations: nat, minPort: U16)

  /** The requester, as far as `relay_requests` has come. */
  datatype Requester =
    | Polling                                     // before the check of `running`
    | Reading
    | Fresh(message: Message) 
    | Looked(message: Message, isNew: bool)       // after `contains_key`
    | Admitted(message: Message)                  // after the check of the table size
    | Sending(message: Message)                   // after both rate windows
    | Closing
    | Ended

  /** The responder, as far as the loop of the response thread has come. */
  datatype Responder =
    | Waiting                                     // before the check of `running`
    | Receiving
    | Charging(source: SocketAddr, length: nat)
    | Charged(source: SocketAddr, length: nat)    // after the credit was taken
    | Writing(source: SocketAddr, length: nat)    // after both rate windows
    | Stopping
    | Stopped

  /** What happened so far for one destination. It exists only for the proof: the relay does not keep it. */
  datatype Ledger = Ledger(sent: nat, granted: nat, forfeited: nat, dropped: nat, delivered: nat)

  const EMPTY: Ledger := Ledger(0, 0, 0, 0, 0)

  datatype State = State(
    running: bool, credits: map<SocketAddr, nat>, requester: Requester, responder: Responder,
    books: map<SocketAddr, Ledger>)

  const INIT: State := State(true, map[], Polling, Waiting, map[])

  datatype Input = Frame(bytes: Bytes) | ReadFailed
  datatype Packet = Datagram(source: SocketAddr, length: nat) | Quiet | Broken

  /** One scheduled step. `ok` answers the rate windows, the UDP send or the TCP write, whichever is due. */
  datatype Event = Request(input: Input, ok: bool) | Response(packet: Packet, ok: bool, written: nat)

  function CreditOf(s: State, a: SocketAddr): nat {
    if a in s.credits then s.credits[a] else 0
  }

  function BookOf(s: State, a: SocketAddr): Ledger {
    if a in s.books then s.books[a] else EMPTY
  }

  function Min(a: nat, b: nat): nat {
    if a < b then a else b
  }

  /** `saturating_mul(4).max(512)` */
  function Additional(length: nat): nat {
    var quadruple := if 4 * length > RelayRate.U64_MAX then RelayRate.U64_MAX else 4 * length;
    if quadruple < 512 then 512 else quadruple
  }

  function Raised(credit: nat, length: nat): nat {
    var sum := credit + Additional(length);
    Min(if sum > RelayRate.U64_MAX then RelayRate.U64_MAX else sum, MAX_RESPONSE_CREDIT)
  }

  /** The send and the grant, in one lock region. */
  function Send(s: State, m: Message): State {
    var n, credit, book := |m.payload|, CreditOf(s, m.to), BookOf(s, m.to);
    var raised := Raised(credit, n);
    var lost := if raised <= credit + Additional(n) then credit + Additional(n) - raised else 0;
    var book' := book.(sent := book.sent + n, granted := book.granted + Additional(n),
      forfeited := book.forfeited + lost);
    s.(credits := s.credits[m.to := raised], books := s.books[m.to := book'])
  }

  function RequestStep(s: State, input: Input, ok: bool, limits: Limits): State {
    match s.requester
    case Polling => s.(requester := if s.running then Reading else Closing)
    case Reading =>
      if input.ReadFailed? then s.(requester := Closing)
      else (
        match ParseFrame(input.bytes, limits.minPort)
        case Protocol => s.(requester := Closing)
        case Destination => s.(requester := Polling)
        case Parsed(m) => s.(requester := Fresh(m))
      )
    case Fresh(m) => s.(requester := Looked(m, m.to !in s.credits))
    case Looked(m, isNew) =>
      s.(requester := if isNew && |s.credits| >= limits.maxDestinations then Polling else Admitted(m))
    case Admitted(m) => s.(requester := if ok then Sending(m) else Polling)
    case Sending(m) => if ok then Send(s, m).(requester := Polling) else s.(requester := Closing)
    case Closing => s.(running := false, requester := Ended)
    case Ended => s
  }

  /** Takes the credit for a reply, or drops it: unknown source, or too little credit. */
  function Charge(s: State, source: SocketAddr, length: nat): State {
    if source !in s.credits || length > s.credits[source] then s.(responder := Waiting)
    else s.(credits := s.credits[source := s.credits[source] - length], responder := Charged(source, length))
  }

  /** Books the outcome of a charged reply, of which `written` bytes reached the client. */
  function Settle(s: State, source: SocketAddr, length: nat, written: nat, next: Responder): State
    requires written <= length
  {
    var book := BookOf(s, source);
    var book' := book.(delivered := book.delivered + written, dropped := book.dropped + (length - written));
    s.(books := s.books[source := book'], responder := next)
  }

  function ResponseStep(s: State, packet: Packet, ok: bool, written: nat): State {
    match s.responder
    case Waiting => s.(responder := if s.running then Receiving else Stopping)
    case Receiving => (
      match packet
      case Datagram(source, length) => s.(responder := Charging(source, Min(length, PACKET_BUFFER)))
      case Quiet => s.(responder := Waiting)
      case Broken => s.(responder := Stopping)
    )
    case Charging(source, length) => Charge(s, source, length)
    case Charged(source, length) =>
      if ok then s.(responder := Writing(source, length)) else Settle(s, source, length, 0, Waiting)
    case Writing(source, length) =>
      if ok then Settle(s, source, length, length, Waiting)
      else Settle(s, source, length, Min(written, length), Stopping)
    case Stopping => s.(running := false, responder := Stopped)
    case Stopped => s
  }

  function Step(s: State, e: Event, limits: Limits): State {
    match e
    case Request(input, ok) => RequestStep(s, input, ok, limits)
    case Response(packet, ok, written) => ResponseStep(s, packet, ok, written)
  }

  function Run(s: State, schedule: seq<Event>, limits: Limits): State
    decreases |schedule|
  {
    if schedule == [] then s else Run(Step(s, schedule[0], limits), schedule[1..], limits)
  }

  // ---------------------------------------------------------------------
  // The invariant
  // ---------------------------------------------------------------------

  /** Bytes charged to `a` and not yet settled. */
  function InFlight(s: State, a: SocketAddr): nat {
    match s.responder
    case Charged(source, length) => if source == a then length else 0
    case Writing(source, length) => if source == a then length else 0
    case _ => 0
  }

  /** Every granted byte is available, in flight, delivered, dropped, or was above the cap. */
  predicate Balanced(s: State, a: SocketAddr) {
    var book := BookOf(s, a);
    && CreditOf(s, a) + InFlight(s, a) + book.delivered + book.dropped + book.forfeited == book.granted
    && book.granted <= 32 * book.sent
    && CreditOf(s, a) <= MAX_RESPONSE_CREDIT
  }

  function Carried(r: Requester): Option<Message> {
    match r
    case Fresh(m) => Some(m)
    case Looked(m, _) => Some(m)
    case Admitted(m) => Some(m)
    case Sending(m) => Some(m)
    case _ => None
  }

  /** A message on its way passed the policy, and once admitted it has room in the table. */
  predicate RequesterOk(s: State, limits: Limits) {
    && (Carried(s.requester).Some? ==>
          var m := Carried(s.requester).value; |m.payload| >= 16 && Allowed(m.to, limits.minPort))
    && (s.requester.Looked? && !s.requester.isNew ==> s.requester.message.to in s.credits)
    && (s.requester.Admitted? || s.requester.Sending? ==>
          s.requester.message.to in s.credits || |s.credits| < limits.maxDestinations)
  }

  predicate ResponderOk(s: State) {
    (s.responder.Charging? || s.responder.Charged? || s.responder.Writing?) ==> s.responder.length <= PACKET_BUFFER
  }

  ghost predicate Inv(s: State, limits: Limits) {
    && |s.credits| <= limits.maxDestinations
    && (forall a | a in s.credits :: Allowed(a, limits.minPort))
    && (forall a :: Balanced(s, a))
    && RequesterOk(s, limits) && ResponderOk(s)
  }

  lemma GrantBound(length: nat)
    requires length >= 16
    ensures Additional(length) <= 32 * length
  {
  }

  lemma InitInv(limits: Limits)
    ensures Inv(INIT, limits)
  {
  }

  lemma PutSize(m: map<SocketAddr, nat>, a: SocketAddr, v: nat)
    ensures |m[a := v]| == if a in m then |m| else |m| + 1
  {
    assert m[a := v].Keys == m.Keys + {a};
  }

  lemma SendInv(s: State, limits: Limits)
    requires Inv(s, limits) && s.requester.Sending?
    ensures Inv(Send(s, s.requester.message).(requester := Polling), limits)
  {
    hide Allowed, Additional;
    var m := s.requester.message;
    var s' := Send(s, m).(requester := Polling);
    PutSize(s.credits, m.to, Raised(CreditOf(s, m.to), |m.payload|));
    GrantBound(|m.payload|);
    forall a ensures Balanced(s', a) {
      assert Balanced(s, a);
      assert InFlight(s', a) == InFlight(s, a);
    }
  }

  /** Steps that move neither credit nor ledger. */
  lemma Unmoved(s: State, s': State, limits: Limits)
    requires Inv(s, limits) && s'.credits == s.credits && s'.books == s.books
    requires forall a :: InFlight(s', a) == InFlight(s, a)
    requires RequesterOk(s', limits) && ResponderOk(s')
    ensures Inv(s', limits)
  {
    hide Allowed, RequesterOk, ResponderOk, InFlight;
    forall a ensures Balanced(s', a) {
      assert Balanced(s, a);
    }
  }

  lemma ParsedIsAllowed(frame: Bytes, minPort: U16)
    requires ParseFrame(frame, minPort).Parsed?
    ensures var m := ParseFrame(frame, minPort).message; |m.payload| >= 16 && Allowed(m.to, minPort)
  {
    hide Allowed;
  }

  lemma ThreadsOk(s: State, limits: Limits)
    requires Inv(s, limits)
    ensures RequesterOk(s, limits) && ResponderOk(s)
  {
  }

  /** Steps of the requester other than a send leave credit, ledger and responder alone. */
  lemma RequestLeaves(s: State, input: Input, ok: bool, limits: Limits)
    requires !(s.requester.Sending? && ok)
    ensures var s' := RequestStep(s, input, ok, limits);
      s'.credits == s.credits && s'.books == s.books && s'.responder == s.responder
  {
    hide ParseFrame, Send;
  }

  lemma RequestKeeps(s: State, input: Input, ok: bool, limits: Limits)
    requires RequesterOk(s, limits) && !(s.requester.Sending? && ok)
    ensures RequesterOk(RequestStep(s, input, ok, limits), limits)
  {
    hide Allowed, Send, ParseFrame;
    if s.requester.Reading? && input.Frame? && ParseFrame(input.bytes, limits.minPort).Parsed? {
      ParsedIsAllowed(input.bytes, limits.minPort);
    }
  }

  lemma SameFlight(s: State, s': State)
    requires s'.responder == s.responder
    ensures forall a :: InFlight(s', a) == InFlight(s, a)
    ensures ResponderOk(s) ==> ResponderOk(s')
  {
  }

  lemma RequestInv(s: State, input: Input, ok: bool, limits: Limits)
    requires Inv(s, limits)
    ensures Inv(RequestStep(s, input, ok, limits), limits)
  {
    if s.requester.Sending? && ok {
      hide Inv, Send;
      SendInv(s, limits);
    } else {
      hide *;
      ThreadsOk(s, limits);
      var s' := RequestStep(s, input, ok, limits);
      RequestLeaves(s, input, ok, limits);
      RequestKeeps(s, input, ok, limits);
      SameFlight(s, s');
      Unmoved(s, s', limits);
    }
  }

  lemma ChargeInv(s: State, limits: Limits)
    requires Inv(s, limits) && s.responder.Charging?
    ensures Inv(Charge(s, s.responder.source, s.responder.length), limits)
  {
    hide Allowed;
    var s' := Charge(s, s.responder.source, s.responder.length);
    if s'.credits != s.credits {
      PutSize(s.credits, s.responder.source, s'.credits[s.responder.source]);
    }
    forall a ensures Balanced(s', a) {
      assert Balanced(s, a);
    }
  }

  lemma SettleInv(s: State, written: nat, next: Responder, limits: Limits)
    requires Inv(s, limits) && (s.responder.Charged? || s.responder.Writing?) && written <= s.responder.length
    requires next.Waiting? || next.Stopping?
    ensures Inv(Settle(s, s.responder.source, s.responder.length, written, next), limits)
  {
    hide Allowed;
    var s' := Settle(s, s.responder.source, s.responder.length, written, next);
    forall a ensures Balanced(s', a) {
      assert Balanced(s, a);
    }
  }

  lemma ResponseInv(s: State, packet: Packet, ok: bool, written: nat, limits: Limits)
    requires Inv(s, limits)
    ensures Inv(ResponseStep(s, packet, ok, written), limits)
  {
    hide Allowed, Charge, Settle;
    match s.responder
    case Charging(_, _) => ChargeInv(s, limits);
    case Charged(_, length) =>
      if ok { QuietInv(s, packet, ok, written, limits); } else { SettleInv(s, 0, Waiting, limits); }
    case Writing(_, length) =>
      if ok { SettleInv(s, length, Waiting, limits); } else { SettleInv(s, Min(written, length), Stopping, limits); }
    case _ => QuietInv(s, packet, ok, written, limits);
  }

  /** Steps of the responder that move neither credit nor ledger. */
  lemma QuietInv(s: State, packet: Packet, ok: bool, written: nat, limits: Limits)
    requires Inv(s, limits) && !s.responder.Charging? && !s.responder.Writing? && (s.responder.Charged? ==> ok)
    ensures Inv(ResponseStep(s, packet, ok, written), limits)
  {
    hide Inv, Allowed;
    ThreadsOk(s, limits);
    Unmoved(s, ResponseStep(s, packet, ok, written), limits);
  }

  lemma StepInv(s: State, e: Event, limits: Limits)
    requires Inv(s, limits)
    ensures Inv(Step(s, e, limits), limits)
  {
    hide Inv, RequestStep, ResponseStep;
    match e
    case Request(input, ok) => RequestInv(s, input, ok, limits);
    case Response(packet, ok, written) => ResponseInv(s, packet, ok, written, limits);
  }

  lemma {:induction false} RunInv(s: State, schedule: seq<Event>, limits: Limits)
    requires Inv(s, limits)
    ensures Inv(Run(s, schedule, limits), limits)
    decreases |schedule|
  {
    hide Inv, Step;
    if schedule != [] {
      StepInv(s, schedule[0], limits);
      RunInv(Step(s, schedule[0], limits), schedule[1..], limits);
    }
  }

  // ---------------------------------------------------------------------
  // What every run guarantees
  // ---------------------------------------------------------------------

  /**
   * For every destination, under every interleaving: the credit is capped, delivered bytes plus remaining credit never
   * exceed what was granted, and at most 32 bytes come back for each byte sent. The table is bounded and holds only
   * destinations the policy allows.
   */
  lemma CreditSafe(schedule: seq<Event>, limits: Limits, a: SocketAddr)
    ensures var s := Run(INIT, schedule, limits); var book := BookOf(s, a);
      && CreditOf(s, a) <= MAX_RESPONSE_CREDIT
      && book.delivered + CreditOf(s, a) <= book.granted
      && book.delivered <= 32 * book.sent
      && |s.credits| <= limits.maxDestinations
      && forall d | d in s.credits :: Allowed(d, limits.minPort)
  {
    hide Run, Allowed;
    InitInv(limits);
    RunInv(INIT, schedule, limits);
    assert Balanced(Run(INIT, schedule, limits), a);
  }

  /** Ledgers only grow, and each grant is at most 32 bytes a byte sent. */
  predicate Grows(before: Ledger, after: Ledger) {
    && before.sent <= after.sent && before.forfeited <= after.forfeited && before.dropped <= after.dropped
    && before.delivered <= after.delivered
    && before.granted <= after.granted <= before.granted + 32 * (after.sent - before.sent)
  }

  lemma RequestGrows(s: State, input: Input, ok: bool, limits: Limits, a: SocketAddr)
    requires Inv(s, limits)
    ensures Grows(BookOf(s, a), BookOf(RequestStep(s, input, ok, limits), a))
  {
    hide Inv, Allowed, Additional, ParseFrame;
    ThreadsOk(s, limits);
    if s.requester.Sending? {
      GrantBound(|s.requester.message.payload|);
    }
  }

  lemma StepGrows(s: State, e: Event, limits: Limits, a: SocketAddr)
    requires Inv(s, limits)
    ensures Grows(BookOf(s, a), BookOf(Step(s, e, limits), a))
  {
    hide Inv, RequestStep;
    if e.Request? {
      RequestGrows(s, e.input, e.ok, limits, a);
    }
  }

  lemma {:induction false} RunGrows(s: State, schedule: seq<Event>, limits: Limits, a: SocketAddr)
    requires Inv(s, limits)
    ensures Grows(BookOf(s, a), BookOf(Run(s, schedule, limits), a))
    decreases |schedule|
  {
    hide Inv, Step;
    if schedule != [] {
      var s' := Step(s, schedule[0], limits);
      StepInv(s, schedule[0], limits);
      StepGrows(s, schedule[0], limits, a);
      RunGrows(s', schedule[1..], limits, a);
    }
  }

  /**
   * Between any two moments of a run: a destination is answered with at most one full credit and one packet beyond 32
   * times what it was sent meanwhile.
   */
  lemma WindowBound(past: seq<Event>, span: seq<Event>, limits: Limits, a: SocketAddr)
    ensures var s := Run(INIT, past, limits); var s' := Run(s, span, limits);
      BookOf(s', a).delivered - BookOf(s, a).delivered
        <= MAX_RESPONSE_CREDIT + PACKET_BUFFER + 32 * (BookOf(s', a).sent - BookOf(s, a).sent)
  {
    hide Run, Allowed;
    InitInv(limits);
    RunInv(INIT, past, limits);
    var s := Run(INIT, past, limits);
    RunInv(s, span, limits);
    RunGrows(s, span, limits, a);
    assert Balanced(s, a);
    assert Balanced(Run(s, span, limits), a);
  }

  /** A source that was never contacted has no credit, so nothing it sends is delivered. */
  lemma UnknownSourceSilent(schedule: seq<Event>, limits: Limits, a: SocketAddr)
    requires BookOf(Run(INIT, schedule, limits), a).sent == 0
    ensures BookOf(Run(INIT, schedule, limits), a).delivered == 0 && CreditOf(Run(INIT, schedule, limits), a) == 0
  {
    hide Run, Allowed;
    InitInv(limits);
    RunInv(INIT, schedule, limits);
    assert Balanced(Run(INIT, schedule, limits), a);
  }

  // ---------------------------------------------------------------------
  // What is permitted is done
  // ---------------------------------------------------------------------

  lemma RunCons(s: State, e: Event, n: nat, limits: Limits)
    ensures Run(s, Fill(n + 1, e), limits) == Run(Step(s, e, limits), Fill(n, e), limits)
    ensures Run(s, Fill(0, e), limits) == s
  {
    assert Fill(n + 1, e)[1..] == Fill(n, e);
  }

  /** A message has room if its destination is known or the table is not full. */
  predicate HasRoom(s: State, to: SocketAddr, limits: Limits) {
    to in s.credits || |s.credits| < limits.maxDestinations
  }

  /** The request steps until the message is sent or dropped. */
  function RequestSteps(s: State, m: Message, limits: Limits): nat {
    if !Allowed(m.to, limits.minPort) then 2 else if !HasRoom(s, m.to, limits) then 4 else 6
  }

  /**
   * A request that arrives while the rate windows have room is sent exactly if the policy allows its destination and
   * the destination is known or the table is not full. Then the credit grows by four times the length, or by 512 if
   * that is more, up to the cap. Otherwise nothing changes.
   */
  lemma RequestExact(s: State, m: Message, limits: Limits)
    requires s.running && s.requester.Polling? && 16 <= |m.payload| <= 0xffff
    requires CreditOf(s, m.to) <= MAX_RESPONSE_CREDIT
    ensures var e := Request(Frame(FrameBody(m)), true);
      var s', n := Run(s, Fill(RequestSteps(s, m, limits), e), limits), |m.payload|;
      if Allowed(m.to, limits.minPort) && HasRoom(s, m.to, limits) then
        && s' == s.(credits := s'.credits, books := s'.books) && BookOf(s', m.to).sent == BookOf(s, m.to).sent + n
        && s'.credits == s.credits[
             m.to := Min(CreditOf(s, m.to) + (if 4 * n < 512 then 512 else 4 * n), MAX_RESPONSE_CREDIT)]
      else s' == s
  {
    hide Run, Allowed, ParseFrame, FrameBody;
    var e := Request(Frame(FrameBody(m)), true);
    BodyRoundTrip(m, limits.minPort);
    var s1 := s.(requester := Reading);
    var steps := RequestSteps(s, m, limits);
    RunCons(s, e, steps - 1, limits);
    RunCons(s1, e, steps - 2, limits);
    RunCons(s, e, 0, limits);
    if Allowed(m.to, limits.minPort) {
      var s2, s3 := s.(requester := Fresh(m)), s.(requester := Looked(m, m.to !in s.credits));
      RunCons(s2, e, steps - 3, limits);
      RunCons(s3, e, steps - 4, limits);
      if HasRoom(s, m.to, limits) {
        var s4, s5 := s.(requester := Admitted(m)), s.(requester := Sending(m));
        RunCons(s4, e, 1, limits);
        RunCons(s5, e, 0, limits);
        RunCons(Step(s5, e, limits), e, 0, limits);
      }
    }
  }

  function ResponseSteps(s: State, source: SocketAddr, length: nat): nat {
    if source in s.credits && length <= s.credits[source] then 5 else 3
  }

  /**
   * A reply that arrives while the rate windows have room and the client reads is delivered exactly if its source was
   * contacted and has that much credit left, which it then uses up. Otherwise nothing changes.
   */
  lemma ResponseExact(s: State, source: SocketAddr, length: nat, limits: Limits)
    requires s.running && s.responder.Waiting? && length <= PACKET_BUFFER
    ensures var f := Response(Datagram(source, length), true, 0);
      var s' := Run(s, Fill(ResponseSteps(s, source, length), f), limits);
      if source in s.credits && length <= s.credits[source] then
        && s' == s.(credits := s.credits[source := s.credits[source] - length], books := s'.books)
        && BookOf(s', source) == BookOf(s, source).(delivered := BookOf(s, source).delivered + length)
      else s' == s
  {
    hide Run;
    var f, steps := Response(Datagram(source, length), true, 0), ResponseSteps(s, source, length);
    var s1, s2 := s.(responder := Receiving), s.(responder := Charging(source, length));
    RunCons(s, f, steps - 1, limits);
    RunCons(s1, f, steps - 2, limits);
    RunCons(s2, f, steps - 3, limits);
    RunCons(s, f, 0, limits);
    if source in s.credits && length <= s.credits[source] {
      var spent := s.(credits := s.credits[source := s.credits[source] - length]);
      var s3, s4 := spent.(responder := Charged(source, length)), spent.(responder := Writing(source, length));
      RunCons(s3, f, 1, limits);
      RunCons(s4, f, 0, limits);
      RunCons(Step(s4, f, limits), f, 0, limits);
    }
  }

  lemma {:induction false} RunJoin(s: State, a: seq<Event>, b: seq<Event>, limits: Limits)
    ensures Run(s, a + b, limits) == Run(Run(s, a, limits), b, limits)
    decreases |a|
  {
    hide Step;
    if a == [] {
      assert a + b == b;
    } else {
      assert (a + b)[1..] == a[1..] + b;
      RunJoin(Step(s, a[0], limits), a[1..], b, limits);
    }
  }

  /** The factor 32 is reached: a 16-byte request to any allowed destination can be answered with 512 bytes. */
  lemma BoundReached(m: Message, limits: Limits)
    requires |m.payload| == 16 && Allowed(m.to, limits.minPort) && limits.maxDestinations >= 1
    ensures exists schedule ::
      var book := BookOf(Run(INIT, schedule, limits), m.to); book.sent == 16 && book.delivered == 512
  {
    hide Run, Allowed, FrameBody;
    var request, response := Request(Frame(FrameBody(m)), true), Response(Datagram(m.to, 512), true, 0);
    RequestExact(INIT, m, limits);
    var s := Run(INIT, Fill(6, request), limits);
    NothingDelivered(m, limits);
    ResponseExact(s, m.to, 512, limits);
    var schedule := Fill(6, request) + Fill(5, response);
    RunJoin(INIT, Fill(6, request), Fill(5, response), limits);
    var book := BookOf(Run(INIT, schedule, limits), m.to);
    assert book.sent == 16 && book.delivered == 512;
  }

  lemma NothingDelivered(m: Message, limits: Limits)
    requires |m.payload| == 16 && Allowed(m.to, limits.minPort) && limits.maxDestinations >= 1
    ensures var s := Run(INIT, Fill(6, Request(Frame(FrameBody(m)), true)), limits);
      BookOf(s, m.to).delivered == 0 && BookOf(s, m.to).sent == 16 && CreditOf(s, m.to) == 512
  {
    hide Run, Allowed, FrameBody;
    RequestExact(INIT, m, limits);
    InitInv(limits);
    RunInv(INIT, Fill(6, Request(Frame(FrameBody(m)), true)), limits);
    assert Balanced(Run(INIT, Fill(6, Request(Frame(FrameBody(m)), true)), limits), m.to);
  }
}
