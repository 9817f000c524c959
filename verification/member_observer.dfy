/**
 * How observed member states become announcements. Any number of pollers read a member's row, ask the controller, and
 * write back later in one transaction; a schedule interleaves their reads and writes.
 */
module MemberObserver {
  import opened Basics

  type PollId = nat

  /** Milliseconds on the controller's clock. */
  type Time = nat

  const UNKNOWN: nat := 5

  const CONTINUOUS_MS: nat := 45_000
  const SETTLE_MS: nat := 30_000

  /** The columns that decide about announcements. `observedAt` is the revision pollers compare. */
  datatype Row = Row(
    observedAt: Option<Time>, online: Option<bool>, notifyFirst: bool,
    status: Option<nat>, pending: Option<nat>, pendingSince: Option<Time>)

  /** What the controller answered: `known` when it speaks of this member, `status` as derived from its paths. */
  datatype Observation = Observation(known: bool, online: bool, status: nat, clock: Time)

  datatype Kind = Online | Offline | Changed

  /** An enqueued event: the revision it departs from and the time in its key, none when the patch holds no time. */
  datatype Announcement = Announcement(kind: Kind, seen: Option<Time>, key: Option<Time>)

  /** A poller between its read and its write. */
  datatype Poll = Poll(base: Row, o: Observation)

  /** `stamps` are the revisions the row has had. It exists only for the proof. */
  datatype State = State(row: Row, polls: map<PollId, Poll>, ledger: seq<Announcement>, stamps: set<Time>)

  datatype Event =
    | Read(poll: PollId, o: Observation)
    | Write(poll: PollId)
    | Crash(poll: PollId)

  // ---------------------------------------------------------------------
  // One observation
  // ---------------------------------------------------------------------

  /** A changed path of a member that stays online has to last before it counts. */
  function Connected(db: Row, row: Row, o: Observation): Row {
    if o.status == UNKNOWN then row
    else if db.online == Some(true) && o.online && db.status.Some? && db.status != Some(o.status) then
      var continuous := db.observedAt.Some? && o.clock - db.observedAt.value <= CONTINUOUS_MS;
      if continuous && db.pending == Some(o.status) && db.pendingSince.Some?
         && o.clock - db.pendingSince.value >= SETTLE_MS then
        row.(status := Some(o.status), pending := None, pendingSince := None)
      else if !continuous || db.pending != Some(o.status) then
        row.(pending := Some(o.status), pendingSince := Some(o.clock))
      else row
    else row.(status := Some(o.status), pending := None, pendingSince := None)
  }

  /** `observeMember`: the row this observation makes of the row that was read. */
  function Observed(db: Row, o: Observation): Row {
    var row :=
      if o.status == UNKNOWN && db.pending.Some? then db.(pending := None, pendingSince := None) else db;
    if !o.known then row
    else Connected(db, row.(online := Some(o.online), notifyFirst := false, observedAt := Some(o.clock)), o)
  }

  function KindOf(online: bool): Kind {
    if online then Online else Offline
  }

  /** `statusEventTypes` returns one event at most. */
  function EventOf(db: Row, o: Observation): Option<Kind> {
    if !o.known then None
    else if db.observedAt.None? then
      if db.notifyFirst && o.online then Some(Online) else None
    else if db.online != Some(o.online) then Some(KindOf(o.online))
    else
      var status := Observed(db, o).status;
      if o.online && status.Some? && db.status.Some? && status != db.status && status != Some(UNKNOWN) then
        Some(Changed)
      else None
  }

  /** The patch holds only columns whose value differs from the one that was read. */
  function Patched<T(==)>(now: T, base: T, target: T): T {
    if target == base then now else target
  }

  function Merge(now: Row, base: Row, target: Row): Row {
    Row(Patched(now.observedAt, base.observedAt, target.observedAt), Patched(now.online, base.online, target.online),
        Patched(now.notifyFirst, base.notifyFirst, target.notifyFirst), Patched(now.status, base.status, target.status),
        Patched(now.pending, base.pending, target.pending),
        Patched(now.pendingSince, base.pendingSince, target.pendingSince))
  }

  // ---------------------------------------------------------------------
  // Pollers
  // ---------------------------------------------------------------------

  function StampOf(row: Row): set<Time> {
    if row.observedAt.Some? then {row.observedAt.value} else {}
  }

  function INIT(row: Row): State {
    State(row, map[], [], StampOf(row))
  }

  /**
   * `persistObservedMember`: without an event the patch is written to whatever the row is by now; with one only if the
   * revision is still the one that was read.
   */
  function Persist(s: State, p: Poll): State {
    var target := Observed(p.base, p.o);
    var merged := Merge(s.row, p.base, target);
    var event := EventOf(p.base, p.o);
    if event.None? then s.(row := merged, stamps := s.stamps + StampOf(merged))
    else if s.row.observedAt == p.base.observedAt then
      var key := if target.observedAt == p.base.observedAt then None else target.observedAt;
      s.(row := merged, stamps := s.stamps + StampOf(merged),
         ledger := s.ledger + [Announcement(event.value, p.base.observedAt, key)])
    else s
  }

  function Step(s: State, e: Event): State {
    match e
    case Read(p, o) => s.(polls := s.polls[p := Poll(s.row, o)])
    case Write(p) => if p in s.polls then Persist(s, s.polls[p]).(polls := s.polls - {p}) else s
    case Crash(p) => s.(polls := s.polls - {p})
  }

  function Run(s: State, schedule: seq<Event>): State
    decreases |schedule|
  {
    if schedule == [] then s else Run(Step(s, schedule[0]), schedule[1..])
  }

  // ---------------------------------------------------------------------
  // Revisions
  // ---------------------------------------------------------------------

  /** How often events departed from a revision. */
  function Departures(ledger: seq<Announcement>, seen: Option<Time>): nat {
    if ledger == [] then 0
    else Departures(ledger[..|ledger| - 1], seen) + Bit(ledger[|ledger| - 1].seen == seen)
  }

  function Bit(b: bool): nat {
    if b then 1 else 0
  }

  predicate Carries(o: Observation, seen: Option<Time>) {
    o.known && Some(o.clock) == seen
  }

  /** How often the controller's clock showed this time to a poller. */
  function Readings(schedule: seq<Event>, seen: Option<Time>): nat {
    if schedule == [] then 0
    else Bit(schedule[0].Read? && Carries(schedule[0].o, seen)) + Readings(schedule[1..], seen)
  }

  /** How often a revision can come about: as the first one and at every reading. */
  function Copies(row: Row, schedule: seq<Event>, seen: Option<Time>): nat {
    Bit(row.observedAt == seen) + Readings(schedule, seen)
  }

  /** Pollers that may still write this revision. */
  function Bearers(s: State, seen: Option<Time>): set<PollId> {
    set p | p in s.polls && Carries(s.polls[p].o, seen)
  }

  function Charge(s: State, seen: Option<Time>): nat {
    Departures(s.ledger, seen) + Bit(s.row.observedAt == seen) + |Bearers(s, seen)|
  }

  lemma BearersWithout(s: State, s': State, p: PollId, seen: Option<Time>)
    requires s'.polls == s.polls - {p}
    ensures |Bearers(s', seen)| == |Bearers(s, seen)| - Bit(p in s.polls && Carries(s.polls[p].o, seen))
  {
    assert Bearers(s', seen) == Bearers(s, seen) - {p};
    Without(Bearers(s, seen), p);
  }

  lemma BearersWith(s: State, s': State, p: PollId, poll: Poll, seen: Option<Time>)
    requires s'.polls == s.polls[p := poll]
    ensures |Bearers(s', seen)| <= |Bearers(s, seen)| + Bit(Carries(poll.o, seen))
  {
    hide Bearers;
    OtherBearers(s, s', p, poll, seen);
    Without(Bearers(s', seen), p);
    Without(Bearers(s, seen), p);
  }

  lemma OtherBearers(s: State, s': State, p: PollId, poll: Poll, seen: Option<Time>)
    requires s'.polls == s.polls[p := poll]
    ensures Bearers(s', seen) - {p} == Bearers(s, seen) - {p}
    ensures p in Bearers(s', seen) <==> Carries(poll.o, seen)
  {
    forall q | q != p ensures q in Bearers(s', seen) <==> q in Bearers(s, seen) {
      assert q in s'.polls <==> q in s.polls;
    }
  }

  lemma DeparturesGrow(ledger: seq<Announcement>, a: Announcement, seen: Option<Time>)
    ensures Departures(ledger + [a], seen) == Departures(ledger, seen) + Bit(a.seen == seen)
  {
    assert (ledger + [a])[..|ledger|] == ledger;
  }

  /** Writing uses up the poller's own reading. */
  lemma PersistCharge(s: State, p: Poll, seen: Option<Time>)
    ensures var s' := Persist(s, p);
      Departures(s'.ledger, seen) + Bit(s'.row.observedAt == seen)
      <= Departures(s.ledger, seen) + Bit(s.row.observedAt == seen) + Bit(Carries(p.o, seen))
  {
    var s' := Persist(s, p);
    if s'.ledger != s.ledger {
      DeparturesGrow(s.ledger, s'.ledger[|s.ledger|], seen);
    }
  }

  lemma StepCharge(s: State, e: Event, seen: Option<Time>)
    ensures Charge(Step(s, e), seen) <= Charge(s, seen) + Bit(e.Read? && Carries(e.o, seen))
  {
    hide Persist, Bearers, Departures;
    var s' := Step(s, e);
    match e
    case Read(p, o) => BearersWith(s, s', p, Poll(s.row, o), seen);
    case Write(p) =>
      if p in s.polls {
        PersistCharge(s, s.polls[p], seen);
        BearersWithout(s, s', p, seen);
      }
    case Crash(p) => BearersWithout(s, s', p, seen);
  }

  lemma {:induction false} RunCharge(s: State, schedule: seq<Event>, seen: Option<Time>)
    ensures Charge(Run(s, schedule), seen) <= Charge(s, seen) + Readings(schedule, seen)
    decreases |schedule|
  {
    hide Charge, Step;
    if schedule != [] {
      StepCharge(s, schedule[0], seen);
      RunCharge(Step(s, schedule[0]), schedule[1..], seen);
    }
  }

  /**
   * Under every interleaving events depart from a revision at most as often as it can come about; from the state before
   * the first observation, which no reading brings back, at most once.
   */
  lemma DeparturesBounded(row: Row, schedule: seq<Event>, seen: Option<Time>)
    ensures Departures(Run(INIT(row), schedule).ledger, seen) <= Copies(row, schedule, seen)
    ensures Departures(Run(INIT(row), schedule).ledger, None) <= 1
  {
    hide Run;
    assert Bearers(INIT(row), seen) == {} && Bearers(INIT(row), None) == {};
    RunCharge(INIT(row), schedule, seen);
    RunCharge(INIT(row), schedule, None);
    NoReading(schedule);
  }

  lemma {:induction false} NoReading(schedule: seq<Event>)
    ensures Readings(schedule, None) == 0
  {
    if schedule != [] {
      NoReading(schedule[1..]);
    }
  }

  /** No revision can come about more than `m` times. */
  ghost predicate AtMost(row: Row, schedule: seq<Event>, m: nat) {
    forall seen :: Copies(row, schedule, seen) <= m
  }

  ghost predicate DepartOnce(row: Row, schedule: seq<Event>) {
    forall seen :: Departures(Run(INIT(row), schedule).ledger, seen) <= 1
  }

  // ---------------------------------------------------------------------
  // Announcements alternate
  // ---------------------------------------------------------------------

  /** The announcements that say the member came or went. */
  function Switches(ledger: seq<Announcement>): seq<Kind> {
    if ledger == [] then []
    else
      var last := ledger[|ledger| - 1].kind;
      Switches(ledger[..|ledger| - 1]) + (if last == Changed then [] else [last])
  }

  predicate Alternate(kinds: seq<Kind>) {
    forall i | 0 < i < |kinds| :: kinds[i] != kinds[i - 1]
  }

  /** Every key holds a time of its own, so the outbox takes none of them for a repetition. */
  predicate KeysApart(ledger: seq<Announcement>) {
    && (forall i | 0 <= i < |ledger| :: ledger[i].key.Some?)
    && (forall i, j | 0 <= i < j < |ledger| :: ledger[i].key != ledger[j].key)
  }

  /** A row whose first observation cannot change `online` without an event. */
  predicate Settled(row: Row) {
    row.observedAt.Some? || (row.notifyFirst && row.online == Some(false))
  }

  /** Revisions that were, are on their way, or come later: each is one reading. */
  function Uses(s: State, schedule: seq<Event>, t: Time): nat {
    Bit(t in s.stamps) + |Bearers(s, Some(t))| + Readings(schedule, Some(t))
  }

  ghost predicate Once(s: State, schedule: seq<Event>) {
    forall t :: Uses(s, schedule, t) <= 1
  }

  predicate BaseOk(s: State, base: Row) {
    && Settled(base)
    && StampOf(base) <= s.stamps
    && (base.observedAt == s.row.observedAt ==> base.online == s.row.online)
  }

  predicate BasesOk(s: State) {
    forall p | p in s.polls :: BaseOk(s, s.polls[p].base)
  }

  predicate LedgerOk(s: State) {
    var switches := Switches(s.ledger);
    && Alternate(switches)
    && (switches != [] ==> s.row.online == Some(switches[|switches| - 1] == Online))
    && KeysApart(s.ledger)
    && (forall a | a in s.ledger && a.key.Some? :: a.key.value in s.stamps)
  }

  predicate Inv(s: State) {
    BaseOk(s, s.row) && BasesOk(s) && LedgerOk(s)
  }

  lemma SwitchesGrow(ledger: seq<Announcement>, a: Announcement)
    ensures Switches(ledger + [a]) == Switches(ledger) + (if a.kind == Changed then [] else [a.kind])
  {
    assert (ledger + [a])[..|ledger|] == ledger;
  }

  /** A write that changes the revision moves to one the row never had. */
  predicate Moves(s: State, s': State) {
    && s.stamps <= s'.stamps && StampOf(s'.row) <= s'.stamps
    && (if s'.row.observedAt == s.row.observedAt then
          s'.row.online == s.row.online && s'.row.notifyFirst == s.row.notifyFirst
        else s'.row.observedAt.Some? && s'.row.observedAt.value !in s.stamps)
  }

  lemma BasesStay(s: State, s': State)
    requires BasesOk(s) && BaseOk(s, s.row) && Moves(s, s') && s'.polls.Keys <= s.polls.Keys
    requires forall p | p in s'.polls :: s'.polls[p] == s.polls[p]
    ensures BasesOk(s') && BaseOk(s', s'.row)
  {
    forall p | p in s'.polls ensures BaseOk(s', s'.polls[p].base) {
      assert BaseOk(s, s.polls[p].base);
    }
  }

  /** From a settled row `online` changes with an event, and events change it to its opposite. */
  lemma EventFacts(base: Row, o: Observation)
    requires Settled(base)
    ensures var target, event := Observed(base, o), EventOf(base, o);
      && target.observedAt == (if o.known then Some(o.clock) else base.observedAt)
      && (!o.known ==> event.None? && target.notifyFirst == base.notifyFirst)
      && (if event.None? || event.value == Changed then target.online == base.online
          else event == Some(KindOf(o.online)) && base.online != Some(o.online) == target.online)
  {
  }

  /** The ledger stays in order when an event arrives that changes `online` to its opposite. */
  lemma LedgerGrows(s: State, s': State, a: Announcement)
    requires LedgerOk(s) && s'.ledger == s.ledger + [a] && s.stamps <= s'.stamps
    requires a.key.Some? && a.key.value in s'.stamps - s.stamps
    requires if a.kind == Changed then s'.row.online == s.row.online
             else s.row.online != Some(a.kind == Online) == s'.row.online
    ensures LedgerOk(s')
  {
    SwitchesGrow(s.ledger, a);
    forall i | 0 <= i < |s.ledger| ensures s.ledger[i].key != a.key {
      assert s.ledger[i] in s.ledger;
    }
  }

  /** The write of a poller whose reading is its own. */
  lemma PersistMoves(s: State, p: Poll)
    requires Inv(s) && BaseOk(s, p.base) && (p.o.known ==> p.o.clock !in s.stamps)
    ensures var s' := Persist(s, p); Moves(s, s') && LedgerOk(s')
    ensures Persist(s, p).stamps <= s.stamps + (if p.o.known then {p.o.clock} else {})
  {
    hide Observed, EventOf, LedgerOk, BasesOk;
    EventFacts(p.base, p.o);
    var s' := Persist(s, p);
    if s'.ledger == s.ledger {
      LedgerKept(s, s');
    } else {
      LedgerGrows(s, s', s'.ledger[|s.ledger|]);
    }
  }

  lemma LedgerKept(s: State, s': State)
    requires LedgerOk(s) && s'.row.online == s.row.online && s'.ledger == s.ledger && s.stamps <= s'.stamps
    ensures LedgerOk(s')
  {
  }

  lemma StepOnce(s: State, e: Event, rest: seq<Event>)
    requires Inv(s) && Once(s, [e] + rest)
    ensures Inv(Step(s, e)) && Once(Step(s, e), rest)
  {
    hide Inv, Persist, LedgerOk, BasesOk, BaseOk;
    var s' := Step(s, e);
    assert ([e] + rest)[1..] == rest;
    match e
    case Read(p, o) =>
      ReadInv(s, p, o);
      forall t ensures Uses(s', rest, t) <= 1 {
        assert Uses(s, [e] + rest, t) <= 1;
        BearersWith(s, s', p, Poll(s.row, o), Some(t));
      }
    case Write(p) =>
      if p in s.polls {
        WriteInv(s, p, [e] + rest);
        forall t ensures Uses(s', rest, t) <= 1 {
          assert Uses(s, [e] + rest, t) <= 1;
          BearersWithout(s, s', p, Some(t));
        }
      } else {
        forall t ensures Uses(s', rest, t) <= 1 {
          assert Uses(s, [e] + rest, t) <= 1;
        }
      }
    case Crash(p) =>
      CrashInv(s, p);
      forall t ensures Uses(s', rest, t) <= 1 {
        assert Uses(s, [e] + rest, t) <= 1;
        BearersWithout(s, s', p, Some(t));
      }
  }

  lemma ReadInv(s: State, p: PollId, o: Observation)
    requires Inv(s)
    ensures Inv(Step(s, Read(p, o)))
  {
    var s' := Step(s, Read(p, o));
    forall q | q in s'.polls ensures BaseOk(s', s'.polls[q].base) {
      assert q != p ==> BaseOk(s, s.polls[q].base);
    }
  }

  lemma CrashInv(s: State, p: PollId)
    requires Inv(s)
    ensures Inv(Step(s, Crash(p)))
  {
    BasesStay(s, Step(s, Crash(p)));
  }

  /** A poller's reading is not among the revisions yet. */
  lemma OwnReading(s: State, p: PollId, schedule: seq<Event>)
    requires Once(s, schedule) && p in s.polls && s.polls[p].o.known
    ensures s.polls[p].o.clock !in s.stamps
  {
    var t := s.polls[p].o.clock;
    assert p in Bearers(s, Some(t));
    assert Uses(s, schedule, t) <= 1;
  }

  lemma WriteInv(s: State, p: PollId, schedule: seq<Event>)
    requires Inv(s) && Once(s, schedule) && p in s.polls
    ensures Inv(Step(s, Write(p)))
    ensures Step(s, Write(p)).stamps <= s.stamps + (if s.polls[p].o.known then {s.polls[p].o.clock} else {})
  {
    hide Persist, LedgerOk, Once;
    var poll, s' := s.polls[p], Step(s, Write(p));
    if poll.o.known {
      OwnReading(s, p, schedule);
    }
    PersistMoves(s, poll);
    BasesStay(s, s');
    LedgerKept(Persist(s, poll), s');
  }

  lemma {:induction false} RunOnce(s: State, schedule: seq<Event>)
    requires Inv(s) && Once(s, schedule)
    ensures Inv(Run(s, schedule))
    decreases |schedule|
  {
    hide Inv, Once, Step;
    if schedule != [] {
      assert schedule == [schedule[0]] + schedule[1..];
      StepOnce(s, schedule[0], schedule[1..]);
      RunOnce(Step(s, schedule[0]), schedule[1..]);
    }
  }

  /**
   * When no two pollers see the same time, announcements that a settled member came or went alternate under every
   * interleaving, and no two announcements share a key.
   */
  lemma SwitchesAlternate(row: Row, schedule: seq<Event>)
    requires Settled(row) && AtMost(row, schedule, 1)
    ensures Alternate(Switches(Run(INIT(row), schedule).ledger))
    ensures KeysApart(Run(INIT(row), schedule).ledger)
  {
    hide Run;
    var s := INIT(row);
    forall t ensures Uses(s, schedule, t) <= 1 {
      assert Bearers(s, Some(t)) == {};
      assert Copies(row, schedule, Some(t)) <= 1;
    }
    RunOnce(s, schedule);
  }

  // ---------------------------------------------------------------------
  // Both conditions are needed
  // ---------------------------------------------------------------------

  lemma {:induction false} RunJoin(s: State, a: seq<Event>, b: seq<Event>)
    ensures Run(s, a + b) == Run(Run(s, a), b)
    decreases |a|
  {
    if a == [] {
      assert a + b == b;
    } else {
      assert (a + b)[1..] == a[1..] + b;
      RunJoin(Step(s, a[0]), a[1..], b);
    }
  }

  lemma {:induction false} ReadingsJoin(a: seq<Event>, b: seq<Event>, seen: Option<Time>)
    ensures Readings(a + b, seen) == Readings(a, seen) + Readings(b, seen)
  {
    if a == [] {
      assert a + b == b;
    } else {
      assert (a + b)[1..] == a[1..] + b;
      ReadingsJoin(a[1..], b, seen);
    }
  }

  /** The controller says whether the member is there and nothing about its path. */
  function Saw(online: bool, clock: Time): Observation {
    Observation(true, online, UNKNOWN, clock)
  }

  predicate Opposite(row: Row) {
    row.online != Some(true)
  }

  /** One poll that finds the member switched over. */
  function Flip(row: Row, clock: Time): seq<Event> {
    [Read(0, Saw(Opposite(row), clock)), Write(0)]
  }

  function Flipped(row: Row, clock: Time): Row {
    Observed(row, Saw(Opposite(row), clock))
  }

  lemma RunTwo(s: State, e: Event, f: Event)
    ensures Run(s, [e, f]) == Step(Step(s, e), f)
  {
    assert [e, f][1..] == [f] && [f][1..] == [];
    assert Run(Step(s, e), [f]) == Run(Step(Step(s, e), f), []);
  }

  lemma FlipRun(s: State, clock: Time)
    requires s.row.observedAt.Some? && s.polls == map[]
    ensures var s' := Run(s, Flip(s.row, clock));
      && s'.polls == map[] && s'.row == Flipped(s.row, clock) && s'.row.observedAt == Some(clock)
      && |s'.ledger| == |s.ledger| + 1 && s'.ledger[..|s.ledger|] == s.ledger
      && s'.ledger[|s.ledger|].seen == s.row.observedAt
  {
    hide Run;
    var e, f := Read(0, Saw(Opposite(s.row), clock)), Write(0);
    RunTwo(s, e, f);
    assert Step(Step(s, e), f).polls == map[];
  }

  lemma ReadingsFlip(row: Row, clock: Time, seen: Option<Time>)
    ensures Readings(Flip(row, clock), seen) == Bit(Some(clock) == seen)
  {
    var schedule := Flip(row, clock);
    assert schedule[1..] == [Write(0)] && schedule[1..][1..] == [];
    assert Readings([Write(0)], seen) == 0 + Readings([], seen);
  }

  /** The member switches `n` times within one millisecond of the controller's clock, and once more later. */
  function Flips(row: Row, t: Time, n: nat): seq<Event>
    decreases n
  {
    if n == 0 then Flip(row, t + 1) else Flip(row, t) + Flips(Flipped(row, t), t, n - 1)
  }

  lemma {:induction false} FlipsRun(s: State, t: Time, n: nat)
    requires s.row.observedAt == Some(t) && s.polls == map[]
    ensures Departures(Run(s, Flips(s.row, t, n)).ledger, Some(t)) == Departures(s.ledger, Some(t)) + n + 1
    decreases n
  {
    hide Run, Flip, Flipped;
    var clock := if n == 0 then t + 1 else t;
    var s' := Run(s, Flip(s.row, clock));
    FlipRun(s, clock);
    assert s'.ledger == s.ledger + [s'.ledger[|s.ledger|]];
    DeparturesGrow(s.ledger, s'.ledger[|s.ledger|], Some(t));
    if n > 0 {
      RunJoin(s, Flip(s.row, t), Flips(Flipped(s.row, t), t, n - 1));
      FlipsRun(s', t, n - 1);
    }
  }

  lemma {:induction false} FlipsReadings(row: Row, t: Time, n: nat, seen: Option<Time>)
    ensures Readings(Flips(row, t, n), seen) == (if seen == Some(t) then n else Bit(seen == Some(t + 1)))
    decreases n
  {
    hide Flip, Flipped, Readings;
    if n == 0 {
      ReadingsFlip(row, t + 1, seen);
    } else {
      ReadingsFlip(row, t, seen);
      ReadingsJoin(Flip(row, t), Flips(Flipped(row, t), t, n - 1), seen);
      FlipsReadings(Flipped(row, t), t, n - 1, seen);
    }
  }

  /** The bound is reached: `m` events depart from one revision that can come about `m` times. */
  lemma DeparturesReached(row: Row, t: Time, m: nat)
    requires row.observedAt == Some(t) && m >= 1
    ensures AtMost(row, Flips(row, t, m - 1), m)
    ensures Departures(Run(INIT(row), Flips(row, t, m - 1)).ledger, Some(t)) == m
  {
    hide Run, Flips;
    var schedule := Flips(row, t, m - 1);
    FlipsRun(INIT(row), t, m - 1);
    forall seen ensures Copies(row, schedule, seen) <= m {
      FlipsReadings(row, t, m - 1, seen);
    }
  }

  /** Each revision gives rise to its events at most once in every run exactly when no time is seen twice. */
  lemma DepartOnceExact(m: nat)
    requires m >= 1
    ensures (forall row, schedule | AtMost(row, schedule, m) :: DepartOnce(row, schedule)) <==> m == 1
  {
    hide Run, AtMost, Copies, Departures, Flips;
    if m == 1 {
      forall row, schedule | AtMost(row, schedule, m) ensures DepartOnce(row, schedule) {
        OnceEach(row, schedule);
      }
    } else {
      var row := Row(Some(0), Some(false), false, None, None, None);
      DeparturesReached(row, 0, m);
      assert !DepartOnce(row, Flips(row, 0, m - 1));
    }
  }

  lemma OnceEach(row: Row, schedule: seq<Event>)
    requires AtMost(row, schedule, 1)
    ensures DepartOnce(row, schedule)
  {
    hide Run, Copies, Departures;
    forall seen ensures Departures(Run(INIT(row), schedule).ledger, seen) <= 1 {
      DeparturesBounded(row, schedule, seen);
      assert Copies(row, schedule, seen) <= 1;
    }
  }

  ghost predicate AlwaysAlternate(row: Row, m: nat) {
    forall schedule | AtMost(row, schedule, m) :: Alternate(Switches(Run(INIT(row), schedule).ledger))
  }

  /** Two pollers read the same row; one of them sees the time the row carries already. */
  function SameTime(row: Row, t: Time): seq<Event> {
    [Read(0, Saw(Opposite(row), t)), Read(1, Saw(Opposite(row), t + 1)), Write(0), Write(1)]
  }

  /** What a member must be seen as for its first observation to change the row silently. */
  predicate Silent(row: Row) {
    !row.notifyFirst && Opposite(row)
  }

  /** Two pollers take the first observation; the second one writes after the member has switched over. */
  function LateFirst(row: Row): seq<Event> {
    var b := Silent(row);
    [Read(0, Saw(b, 0)), Read(1, Saw(b, 1)), Write(0), Read(2, Saw(!b, 2)),
     Write(2), Write(1), Read(3, Saw(!b, 3)), Write(3)]
  }

  lemma RunFour(s: State, e: Event, f: Event, g: Event, h: Event)
    ensures Run(s, [e, f, g, h]) == Step(Step(Step(Step(s, e), f), g), h)
  {
    assert [e, f, g, h] == [e, f] + [g, h];
    RunJoin(s, [e, f], [g, h]);
    RunTwo(s, e, f);
    RunTwo(Step(Step(s, e), f), g, h);
  }

  lemma ReadingsFour(e: Event, f: Event, g: Event, h: Event, seen: Option<Time>)
    ensures Readings([e, f, g, h], seen) ==
      Readings([e], seen) + Readings([f], seen) + Readings([g], seen) + Readings([h], seen)
  {
    hide Readings;
    assert [e, f, g, h] == [e] + ([f] + ([g] + [h]));
    ReadingsJoin([e], [f] + ([g] + [h]), seen);
    ReadingsJoin([f], [g] + [h], seen);
    ReadingsJoin([g], [h], seen);
  }

  lemma SwitchesTwo(a: Announcement, b: Announcement)
    requires a.kind == b.kind != Changed
    ensures !Alternate(Switches([a, b]))
  {
    assert [a, b][..1] == [a] && [a][..0] == [];
    assert Switches([a]) == Switches([]) + [a.kind] == [a.kind];
    assert Switches([a, b]) == Switches([a]) + [b.kind];
    assert Switches([a, b])[1] == Switches([a, b])[0];
  }

  lemma SameTimeRun(s: State, t: Time)
    requires s.row.observedAt == Some(t) && s.polls == map[] && s.ledger == []
    ensures !Alternate(Switches(Run(s, SameTime(s.row, t)).ledger))
  {
    hide Run, Switches;
    var b := Opposite(s.row);
    var e, f, g, h := Read(0, Saw(b, t)), Read(1, Saw(b, t + 1)), Write(0), Write(1);
    RunFour(s, e, f, g, h);
    var s2 := Step(Step(s, e), f);
    var s3 := Step(s2, g);
    var s4 := Step(s3, h);
    assert s3.row.observedAt == Some(t) && |s3.ledger| == 1 && s3.ledger[0].kind == KindOf(b);
    assert s4.ledger == [s3.ledger[0], s4.ledger[1]] && s4.ledger[1].kind == KindOf(b);
    SwitchesTwo(s4.ledger[0], s4.ledger[1]);
  }

  lemma SameTimeReadings(row: Row, t: Time, seen: Option<Time>)
    ensures Readings(SameTime(row, t), seen) == Bit(seen == Some(t)) + Bit(seen == Some(t + 1))
  {
    var b := Opposite(row);
    ReadingsFour(Read(0, Saw(b, t)), Read(1, Saw(b, t + 1)), Write(0), Write(1), seen);
  }

  lemma LateFirstRun(row: Row)
    requires !Settled(row)
    ensures !Alternate(Switches(Run(INIT(row), LateFirst(row)).ledger))
  {
    hide Run, Switches;
    var s, b := INIT(row), Silent(row);
    var first := [Read(0, Saw(b, 0)), Read(1, Saw(b, 1)), Write(0), Read(2, Saw(!b, 2))];
    var second := [Write(2), Write(1), Read(3, Saw(!b, 3)), Write(3)];
    assert LateFirst(row) == first + second;
    RunJoin(s, first, second);
    RunFour(s, first[0], first[1], first[2], first[3]);
    var s1 := Run(s, first);
    assert s1.row.online == Some(b) && s1.row.observedAt == Some(0) && s1.ledger == [];
    assert s1.polls.Keys == {1, 2} && s1.polls[1] == Poll(row, Saw(b, 1)) && s1.polls[2] == Poll(s1.row, Saw(!b, 2));
    LateSecond(s1, row, b);
  }

  /** The late write brings back the first state, so the switch is announced again. */
  lemma LateSecond(s: State, row: Row, b: bool)
    requires row.observedAt.None? && row.online != Some(b) && !(row.notifyFirst && b)
    requires s.row.online == Some(b) && s.row.observedAt == Some(0) && s.ledger == []
    requires s.polls.Keys == {1, 2} && s.polls[1] == Poll(row, Saw(b, 1)) && s.polls[2] == Poll(s.row, Saw(!b, 2))
    ensures !Alternate(Switches(Run(s, [Write(2), Write(1), Read(3, Saw(!b, 3)), Write(3)]).ledger))
  {
    hide Run, Switches;
    var e, f, g, h := Write(2), Write(1), Read(3, Saw(!b, 3)), Write(3);
    RunFour(s, e, f, g, h);
    var s1 := Step(s, e);
    assert |s1.ledger| == 1 && s1.ledger[0].kind == KindOf(!b);
    var s2 := Step(s1, f);
    assert s2.row.observedAt == Some(1) && s2.row.online == Some(b) && s2.ledger == s1.ledger;
    var s4 := Step(Step(s2, g), h);
    assert s4.ledger == [s1.ledger[0], s4.ledger[1]] && s4.ledger[1].kind == KindOf(!b);
    SwitchesTwo(s4.ledger[0], s4.ledger[1]);
  }

  lemma LateFirstReadings(row: Row, seen: Option<Time>)
    ensures Readings(LateFirst(row), seen) ==
      Bit(seen == Some(0)) + Bit(seen == Some(1)) + Bit(seen == Some(2)) + Bit(seen == Some(3))
  {
    var b := Silent(row);
    var first := [Read(0, Saw(b, 0)), Read(1, Saw(b, 1)), Write(0), Read(2, Saw(!b, 2))];
    var second := [Write(2), Write(1), Read(3, Saw(!b, 3)), Write(3)];
    assert LateFirst(row) == first + second;
    ReadingsJoin(first, second, seen);
    ReadingsFour(first[0], first[1], first[2], first[3], seen);
    ReadingsFour(second[0], second[1], second[2], second[3], seen);
  }

  /** A first observation, and then two pollers of which one sees that same time. */
  lemma SameTimeFirst(row: Row)
    requires Settled(row) && row.observedAt.None?
    ensures !AlwaysAlternate(row, 2)
  {
    hide Run, Switches, Readings;
    var e, f := Read(0, Saw(false, 0)), Write(0);
    var s := Run(INIT(row), [e, f]);
    RunTwo(INIT(row), e, f);
    assert s.row.observedAt == Some(0) && s.polls == map[] && s.ledger == [];
    var schedule := [e, f] + SameTime(s.row, 0);
    RunJoin(INIT(row), [e, f], SameTime(s.row, 0));
    SameTimeRun(s, 0);
    forall seen ensures Copies(row, schedule, seen) <= 2 {
      ReadingsJoin([e, f], SameTime(s.row, 0), seen);
      SameTimeReadings(s.row, 0, seen);
      ReadingsTwo(e, f, seen);
    }
  }

  lemma ReadingsTwo(e: Event, f: Event, seen: Option<Time>)
    requires e.Read? && f.Write?
    ensures Readings([e, f], seen) == Bit(Carries(e.o, seen))
    ensures seen.None? ==> Readings([e, f], seen) == 0
  {
    assert [e, f][1..] == [f] && [f][1..] == [];
    assert Readings([f], seen) == 0 + Readings([], seen);
  }

  lemma SameTimeLater(row: Row)
    requires row.observedAt.Some?
    ensures !AlwaysAlternate(row, 2)
  {
    hide Run, Switches, Readings;
    var t := row.observedAt.value;
    var schedule := SameTime(row, t);
    SameTimeRun(INIT(row), t);
    forall seen ensures Copies(row, schedule, seen) <= 2 {
      SameTimeReadings(row, t, seen);
    }
  }

  lemma LateFirstFails(row: Row)
    requires !Settled(row)
    ensures !AlwaysAlternate(row, 1)
  {
    hide Run, Switches, Readings;
    var schedule := LateFirst(row);
    LateFirstRun(row);
    forall seen ensures Copies(row, schedule, seen) <= 1 {
      LateFirstReadings(row, seen);
      NoReading(schedule);
    }
  }

  lemma AlternateFewer(row: Row, m: nat, n: nat)
    requires m <= n && AlwaysAlternate(row, n)
    ensures AlwaysAlternate(row, m)
  {
    hide Run, Switches, Copies, Alternate;
    forall schedule | AtMost(row, schedule, m) ensures Alternate(Switches(Run(INIT(row), schedule).ledger)) {
      assert AtMost(row, schedule, n);
    }
  }

  /**
   * The announcements that a member came or went alternate in every run exactly when no time is seen twice and the
   * first observation cannot change `online` silently.
   */
  lemma AlternateExact(row: Row, m: nat)
    requires m >= 1
    ensures AlwaysAlternate(row, m) <==> m == 1 && Settled(row)
  {
    hide Run, Switches, AtMost, Alternate;
    if m == 1 && Settled(row) {
      forall schedule | AtMost(row, schedule, m) ensures Alternate(Switches(Run(INIT(row), schedule).ledger)) {
        SwitchesAlternate(row, schedule);
      }
    } else if AlwaysAlternate(row, m) {
      if Settled(row) {
        AlternateFewer(row, 2, m);
        if row.observedAt.Some? {
          SameTimeLater(row);
        } else {
          SameTimeFirst(row);
        }
      } else {
        AlternateFewer(row, 1, m);
        LateFirstFails(row);
      }
    }
  }

  // ---------------------------------------------------------------------
  // A changed path
  // ---------------------------------------------------------------------

  /** What one poller after the other makes of a row. */
  function Seen(row: Row, os: seq<Observation>): Row
    decreases |os|
  {
    if os == [] then row else Seen(Observed(row, os[0]), os[1..])
  }

  /** A poller whose read and write nobody separates leaves the row as it saw it, and announces what it must. */
  lemma AlonePersists(s: State, p: PollId, o: Observation)
    ensures var s' := Step(Step(s, Read(p, o)), Write(p));
      && s'.row == Observed(s.row, o) && |s'.ledger| == |s.ledger| + Bit(EventOf(s.row, o).Some?)
      && (EventOf(s.row, o).Some? ==> s'.ledger[|s.ledger|].kind == EventOf(s.row, o).value)
  {
  }

  /** The member is there by path `b` in all of these, and no two are more than 45 seconds apart. */
  predicate Lasting(since: Time, os: seq<Observation>, b: nat)
    decreases |os|
  {
    os == [] ||
    (os[0].known && os[0].online && os[0].status == b && since <= os[0].clock <= since + 45_000 &&
     Lasting(os[0].clock, os[1..], b))
  }

  function LastClock(since: Time, os: seq<Observation>): Time {
    if os == [] then since else os[|os| - 1].clock
  }

  /** The member is known to be there by path `a`, and path `b` was first seen at `first`. */
  predicate Pending(row: Row, a: nat, b: nat, first: Time, last: Time) {
    && row.online == Some(true) && row.status == Some(a) && row.pending == Some(b) && row.pendingSince == Some(first)
    && row.observedAt == Some(last)
  }

  lemma {:induction false} StaysPending(row: Row, os: seq<Observation>, a: nat, b: nat, first: Time, last: Time)
    requires a != b && b != UNKNOWN && Pending(row, a, b, first, last) && Lasting(last, os, b)
    requires forall i | 0 <= i < |os| :: os[i].clock < first + 30_000
    ensures Pending(Seen(row, os), a, b, first, LastClock(last, os))
    decreases |os|
  {
    if os != [] {
      assert os[0].clock < first + 30_000;
      StaysPending(Observed(row, os[0]), os[1..], a, b, first, os[0].clock);
    }
  }

  /**
   * A member stays online and is first seen by another path at time t. As long as that path lasts, the change is
   * announced by the first observation 30 seconds or more after t, and by none before; then the new path is the known
   * one.
   */
  lemma ChangeExact(row: Row, e: Observation, os: seq<Observation>, o: Observation, a: nat, b: nat)
    requires a != b && b != UNKNOWN && row.online == Some(true) && row.observedAt.Some? && row.status == Some(a)
    requires row.pending != Some(b) && e.known && e.online && e.status == b
    requires Lasting(e.clock, os + [o], b) && forall i | 0 <= i < |os| :: os[i].clock < e.clock + 30_000
    ensures EventOf(row, e).None?
    ensures var seen := Seen(Observed(row, e), os);
      && EventOf(seen, o) == (if o.clock >= e.clock + 30_000 then Some(Changed) else None)
      && Observed(seen, o).status == Some(if o.clock >= e.clock + 30_000 then b else a)
      && (o.clock >= e.clock + 30_000 ==> Observed(seen, o).pending.None?)
  {
    LastingParts(e.clock, os, o, b);
    StaysPending(Observed(row, e), os, a, b, e.clock, e.clock);
  }

  lemma {:induction false} LastingParts(since: Time, os: seq<Observation>, o: Observation, b: nat)
    requires Lasting(since, os + [o], b)
    ensures Lasting(since, os, b) && Lasting(LastClock(since, os), [o], b)
    decreases |os|
  {
    if os == [] {
      assert os + [o] == [o];
    } else {
      assert (os + [o])[1..] == os[1..] + [o];
      LastingParts(os[0].clock, os[1..], o, b);
    }
  }

  /** Seeing the known path again, or nothing about the path, or nobody looking for 45 seconds, starts it all over. */
  lemma ChangeForgotten(row: Row, o: Observation, a: nat, b: nat, first: Time, last: Time)
    requires a != b && Pending(row, a, b, first, last) && o.known && o.online
    ensures EventOf(row, o) != Some(Changed) || (o.status == b && first + 30_000 <= o.clock <= last + 45_000)
    ensures o.status in {a, UNKNOWN} ==> Observed(row, o).pending.None?
    ensures o.status == b != UNKNOWN && o.clock > last + 45_000 ==> Observed(row, o).pendingSince == Some(o.clock)
  {
  }
}
