/**
 * The notification outbox: several workers, the sweeper, expiry, clean-up and manual retries over one table.
 * Each database call and each send is one step; a schedule interleaves them.
 */
module Outbox {
  import opened Basics

  type DeliveryId = nat
  type WorkerId = nat

  const EXPIRY_MS: int := 86_400_000
  const SWEEP_MS: int := 120_000
  const KEEP_MS: int := 30 * 86_400_000
  const BATCH: nat := 10

  /** A login is identified by its session; other events bring their own key. */
  datatype EventKey = Login(session: nat) | Other(text: string)

  datatype Status = Pending | Sending | Sent | Unknown | Failed | Cancelled

  /** `fingerprint` identifies the destination the message was written for. */
  datatype Row = Row(
    eventKey: EventKey, fingerprint: string, status: Status, attempts: nat, createdAt: int, updatedAt: int)

  datatype Options = Options(enabled: bool, fingerprint: string)

  datatype Job = Job(id: DeliveryId, fingerprint: string)

  /** Where a worker is in `drainNotifications`. */
  datatype Worker =
    | Idle
    | Expired                                                // expired rows are cancelled
    | Configured(options: Options)                           // the options are read
    | Swept(options: Options)                                // stale sends are marked unknown
    | Working(options: Options, jobs: seq<Job>)
    | Claimed(options: Options, job: Job, jobs: seq<Job>)    // the first job is claimed
    | Reported(options: Options, job: Job, ok: bool, jobs: seq<Job>) // the gateway has answered or failed

  /**
   * What happened to one delivery: how often it was claimed, sent, retried, confirmed and refused by the gateway, and
   * given up by the sweeper. It exists only for the proof: the rows do not hold it.
   */
  datatype Record = Record(
    eventKey: EventKey, attempts: nat, sends: nat, retries: nat, queuedFor: string, sentTo: set<string>,
    confirmed: nat, refused: nat, swept: nat)

  /** `recorded` are the sessions whose `notificationRecordedAt` is set. */
  datatype State = State(
    now: int, options: Options, rows: map<DeliveryId, Row>, recorded: set<nat>, workers: map<WorkerId, Worker>,
    records: map<DeliveryId, Record>)

  datatype Event =
    | Pass(ms: nat)                                 // time passes
    | Configure(options: Options)                   // an administrator saves other options
    | Enqueue(id: DeliveryId, text: string, template: bool)          // `template`: the event type is switched on
    | RecordLogin(id: DeliveryId, session: nat, template: bool)      // by the sign-in hook or by a drain
    | Retry(id: DeliveryId, seen: Options)          // with the options read just before
    | Work(worker: WorkerId, listing: seq<DeliveryId>, ok: bool)
    | Crash(worker: WorkerId)

  function INIT(now: int, options: Options): State {
    State(now, options, map[], {}, map[], map[])
  }

  function WorkerOf(s: State, w: WorkerId): Worker {
    if w in s.workers then s.workers[w] else Idle
  }

  function Goto(s: State, w: WorkerId, pc: Worker): State {
    s.(workers := s.workers[w := pc])
  }

  // ---------------------------------------------------------------------
  // Database calls
  // ---------------------------------------------------------------------

  function WithStatus(row: Row, status: Status, now: int): Row {
    row.(status := status, updatedAt := now)
  }

  function Expire(s: State): State {
    s.(rows := map id | id in s.rows ::
      var row := s.rows[id];
      if row.status.Pending? && row.createdAt < s.now - EXPIRY_MS then WithStatus(row, Cancelled, s.now) else row)
  }

  /** A send that has been under way for too long. */
  predicate Stale(s: State, id: DeliveryId) {
    id in s.rows && s.rows[id].status.Sending? && s.rows[id].updatedAt < s.now - SWEEP_MS
  }

  function Sweep(s: State): State {
    s.(rows := map id | id in s.rows :: if Stale(s, id) then WithStatus(s.rows[id], Unknown, s.now) else s.rows[id],
       records := map id | id in s.records ::
         if Stale(s, id) then s.records[id].(swept := s.records[id].swept + 1) else s.records[id])
  }

  predicate Kept(row: Row, now: int) {
    row.createdAt >= now - KEEP_MS || row.status.Pending? || row.status.Sending?
  }

  function Clean(s: State): State {
    s.(rows := map id | id in s.rows && Kept(s.rows[id], s.now) :: s.rows[id])
  }

  /** The pending rows among those the database lists, ten at most. */
  function Listed(s: State, listing: seq<DeliveryId>, room: nat): seq<Job> {
    if listing == [] || room == 0 then []
    else if listing[0] in s.rows && s.rows[listing[0]].status.Pending? then
      [Job(listing[0], s.rows[listing[0]].fingerprint)] + Listed(s, listing[1..], room - 1)
    else Listed(s, listing[1..], room)
  }

  function RecordOf(s: State, id: DeliveryId): Record {
    if id in s.records then s.records[id] else Record(Other(""), 0, 0, 0, "", {}, 0, 0, 0)
  }

  predicate Claimable(s: State, id: DeliveryId) {
    id in s.rows && s.rows[id].status.Pending?
  }

  /** `updateMany` with the condition that the row is still pending. */
  function Claim(s: State, id: DeliveryId): State
    requires Claimable(s, id)
  {
    var row, record := s.rows[id], RecordOf(s, id);
    s.(rows := s.rows[id := WithStatus(row, Sending, s.now).(attempts := row.attempts + 1)],
       records := s.records[id := record.(attempts := record.attempts + 1)])
  }

  /** `update` of one row; it raises when the row is gone. */
  function Finish(s: State, id: DeliveryId, status: Status): State
    requires id in s.rows
  {
    s.(rows := s.rows[id := WithStatus(s.rows[id], status, s.now)])
  }

  /** The message goes out, and the gateway confirms it or not. */
  function Dispatch(s: State, job: Job, options: Options, ok: bool): State {
    var record := RecordOf(s, job.id);
    s.(records := s.records[job.id := record.(
         sends := record.sends + 1, sentTo := record.sentTo + {options.fingerprint},
         confirmed := record.confirmed + (if ok then 1 else 0), refused := record.refused + (if ok then 0 else 1))])
  }

  function WorkStep(s: State, w: WorkerId, listing: seq<DeliveryId>, ok: bool): State {
    match WorkerOf(s, w)
    case Idle => Goto(Expire(s), w, Expired)
    case Expired => Goto(s, w, Configured(s.options))
    case Configured(o) => Goto(Sweep(s), w, Swept(o))
    case Swept(o) => if o.enabled then Goto(s, w, Working(o, Listed(s, listing, BATCH))) else Goto(s, w, Idle)
    case Working(o, jobs) =>
      if jobs == [] then Goto(Clean(s), w, Idle)
      else if Claimable(s, jobs[0].id) then Goto(Claim(s, jobs[0].id), w, Claimed(o, jobs[0], jobs[1..]))
      else Goto(s, w, Working(o, jobs[1..]))
    case Claimed(o, job, jobs) =>
      if job.fingerprint != o.fingerprint then
        if job.id in s.rows then Goto(Finish(s, job.id, Cancelled), w, Working(o, jobs)) else Goto(s, w, Idle)
      else Goto(Dispatch(s, job, o, ok), w, Reported(o, job, ok, jobs))
    case Reported(o, job, sent, jobs) =>
      if job.id in s.rows then Goto(Finish(s, job.id, if sent then Sent else Unknown), w, Working(o, jobs))
      else Goto(s, w, Idle)
  }

  predicate KeyTaken(s: State, eventKey: EventKey) {
    exists id | id in s.rows :: s.rows[id].eventKey == eventKey
  }

  /** Ids are random and never reused; a row whose event key exists is skipped. */
  function EnqueueStep(s: State, id: DeliveryId, eventKey: EventKey, template: bool): State {
    if !s.options.enabled || !template || id in s.records || KeyTaken(s, eventKey) then s
    else
      s.(rows := s.rows[id := Row(eventKey, s.options.fingerprint, Pending, 0, s.now, s.now)],
         records := s.records[id := Record(eventKey, 0, 0, 0, s.options.fingerprint, {}, 0, 0, 0)])
  }

  /** `recordLoginSession`: one transaction that enqueues and marks the session, unless it is marked already. */
  function RecordLoginStep(s: State, id: DeliveryId, session: nat, template: bool): State {
    if session in s.recorded then s
    else EnqueueStep(s, id, Login(session), template).(recorded := s.recorded + {session})
  }

  function RetryStep(s: State, id: DeliveryId, seen: Options): State {
    if seen.enabled && id in s.rows && (s.rows[id].status.Unknown? || s.rows[id].status.Failed?) &&
      s.rows[id].fingerprint == seen.fingerprint then
      s.(rows := s.rows[id := WithStatus(s.rows[id], Pending, s.now)],
         records := s.records[id := RecordOf(s, id).(retries := RecordOf(s, id).retries + 1)])
    else s
  }

  function Step(s: State, e: Event): State {
    match e
    case Pass(ms) => s.(now := s.now + ms)
    case Configure(options) => s.(options := options)
    case Enqueue(id, text, template) => EnqueueStep(s, id, Other(text), template)
    case RecordLogin(id, session, template) => RecordLoginStep(s, id, session, template)
    case Retry(id, seen) => RetryStep(s, id, seen)
    case Work(w, listing, ok) => WorkStep(s, w, listing, ok)
    case Crash(w) => Goto(s, w, Idle)
  }

  function Run(s: State, schedule: seq<Event>): State
    decreases |schedule|
  {
    if schedule == [] then s else Run(Step(s, schedule[0]), schedule[1..])
  }

  // ---------------------------------------------------------------------
  // The invariant
  // ---------------------------------------------------------------------

  /** Workers that have claimed `id` and not yet sent it. */
  function Holders(s: State, id: DeliveryId): set<WorkerId> {
    set w | w in s.workers && Holds(s.workers[w], id)
  }

  function IsPending(s: State, id: DeliveryId): nat {
    if id in s.rows && s.rows[id].status.Pending? then 1 else 0
  }

  /** Sends are covered by attempts, attempts by the first chance and the retries. */
  predicate Accounted(s: State, id: DeliveryId) {
    var record := RecordOf(s, id);
    && record.sends + |Holders(s, id)| <= record.attempts
    && (id in s.records ==> record.attempts + IsPending(s, id) <= 1 + record.retries)
    && record.sentTo <= {record.queuedFor}
    && (id in s.rows ==>
      id in s.records && s.rows[id].attempts == record.attempts && s.rows[id].fingerprint == record.queuedFor)
    && (id in s.records && record.eventKey.Login? ==> record.eventKey.session in s.recorded)
  }

  predicate JobOk(s: State, job: Job) {
    job.id in s.records && job.fingerprint == s.records[job.id].queuedFor
  }

  /** Every job a worker has in hand. */
  function JobsOf(pc: Worker): seq<Job> {
    match pc
    case Working(_, jobs) => jobs
    case Claimed(_, job, jobs) => [job] + jobs
    case Reported(_, job, _, jobs) => [job] + jobs
    case _ => []
  }

  predicate WorkerOk(s: State, pc: Worker) {
    forall job | job in JobsOf(pc) :: JobOk(s, job)
  }

  predicate WorkersOk(s: State) {
    forall w | w in s.workers :: WorkerOk(s, s.workers[w])
  }

  predicate KeysUnique(s: State) {
    forall i, j | i in s.rows && j in s.rows && s.rows[i].eventKey == s.rows[j].eventKey :: i == j
  }

  /** A session has at most one delivery, ever. */
  predicate LoginsUnique(s: State) {
    forall i, j | i in s.records && j in s.records && s.records[i].eventKey.Login? &&
      s.records[i].eventKey == s.records[j].eventKey :: i == j
  }

  ghost predicate Inv(s: State) {
    (forall id :: Accounted(s, id)) && WorkersOk(s) && KeysUnique(s) && LoginsUnique(s)
  }

  /** Records gain nothing and keep their keys. */
  predicate SameKeys(s: State, s': State) {
    && s'.records.Keys == s.records.Keys
    && forall id | id in s.records :: s'.records[id].eventKey == s.records[id].eventKey
  }

  lemma LoginsStay(s: State, s': State)
    requires LoginsUnique(s) && SameKeys(s, s')
    ensures LoginsUnique(s')
  {
  }

  // ---------------------------------------------------------------------
  // Steps keep it
  // ---------------------------------------------------------------------

  lemma HoldersMoved(s: State, s': State, w: WorkerId, pc: Worker, id: DeliveryId)
    requires s'.workers == s.workers[w := pc]
    ensures |Holders(s', id)| ==
      |Holders(s, id)| - (if Holds(WorkerOf(s, w), id) then 1 else 0) + (if Holds(pc, id) then 1 else 0)
  {
    hide Holders;
    OtherHolders(s, s', w, pc, id);
    Without(Holders(s, id), w);
    Without(Holders(s', id), w);
  }

  predicate Holds(pc: Worker, id: DeliveryId) {
    pc.Claimed? && pc.job.id == id
  }

  lemma OtherHolders(s: State, s': State, w: WorkerId, pc: Worker, id: DeliveryId)
    requires s'.workers == s.workers[w := pc]
    ensures Holders(s, id) - {w} == Holders(s', id) - {w}
    ensures w in Holders(s, id) <==> Holds(WorkerOf(s, w), id)
    ensures w in Holders(s', id) <==> Holds(pc, id)
  {
    forall v | v != w ensures v in Holders(s, id) <==> v in Holders(s', id) {
      assert v in s'.workers <==> v in s.workers;
    }
  }

  /** Rows only leave, or lose the status pending; nothing else changes but the position of one worker. */
  predicate Loses(s: State, s': State) {
    forall id | id in s'.rows ::
      && id in s.rows && s'.rows[id].attempts == s.rows[id].attempts
      && s'.rows[id].fingerprint == s.rows[id].fingerprint
      && s'.rows[id].eventKey == s.rows[id].eventKey && (s'.rows[id].status.Pending? ==> s.rows[id].status.Pending?)
  }

  /** Records are the same but for what the sweeper gave up. */
  predicate SameButSwept(s: State, s': State) {
    && s'.records.Keys == s.records.Keys
    && forall id | id in s.records :: s'.records[id] == s.records[id].(swept := s'.records[id].swept)
  }

  lemma LosingStep(s: State, s': State, w: WorkerId, pc: Worker)
    requires Inv(s) && Loses(s, s') && SameButSwept(s, s') && s'.recorded == s.recorded
    requires s'.workers == s.workers[w := pc]
    requires !pc.Claimed? && WorkerOk(s, pc)
    ensures Inv(s')
  {
    hide Holders, WorkerOf;
    forall id ensures Accounted(s', id) {
      assert Accounted(s, id);
      HoldersMoved(s, s', w, pc, id);
    }
    hide WorkersOk, KeysUnique, LoginsUnique;
    LoginsStay(s, s');
    SameRecordsWorkers(s, s', w, pc);
    KeysStay(s, s');
  }

  lemma SameRecordsWorkers(s: State, s': State, w: WorkerId, pc: Worker)
    requires WorkersOk(s) && SameButSwept(s, s') && s'.workers == s.workers[w := pc] && WorkerOk(s, pc)
    ensures WorkersOk(s')
  {
    RecordsKeepJobs(s, s', w, pc);
  }

  lemma KeysStay(s: State, s': State)
    requires KeysUnique(s) && Loses(s, s')
    ensures KeysUnique(s')
  {
  }

  lemma ListedOk(s: State, listing: seq<DeliveryId>, room: nat)
    requires forall id :: Accounted(s, id)
    ensures forall job | job in Listed(s, listing, room) :: JobOk(s, job)
  {
    if listing != [] && room > 0 {
      assert Accounted(s, listing[0]);
      if listing[0] in s.rows && s.rows[listing[0]].status.Pending? {
        ListedOk(s, listing[1..], room - 1);
      } else {
        ListedOk(s, listing[1..], room);
      }
    }
  }

  lemma ClaimStep(s: State, w: WorkerId, o: Options, job: Job, jobs: seq<Job>)
    requires Inv(s) && WorkerOf(s, w) == Working(o, [job] + jobs) && Claimable(s, job.id)
    ensures Inv(Goto(Claim(s, job.id), w, Claimed(o, job, jobs)))
  {
    hide Holders;
    var pc := Claimed(o, job, jobs);
    var s' := Goto(Claim(s, job.id), w, pc);
    assert Accounted(s, job.id);
    forall id ensures Accounted(s', id) {
      assert Accounted(s, id);
      HoldersMoved(s, s', w, pc, id);
    }
    assert WorkerOk(s, Working(o, [job] + jobs));
    RecordsKeepJobs(s, s', w, pc);
    LoginsStay(s, s');
  }

  /** Records keep their destination, so jobs stay what they are. */
  lemma RecordsKeepJobs(s: State, s': State, w: WorkerId, pc: Worker)
    requires WorkersOk(s) && WorkerOk(s, pc) && s'.workers == s.workers[w := pc]
    requires forall id | id in s.records :: id in s'.records && s'.records[id].queuedFor == s.records[id].queuedFor
    ensures WorkersOk(s')
  {
    forall v | v in s'.workers ensures WorkerOk(s', s'.workers[v]) {
      assert WorkerOk(s, s'.workers[v]);
      forall job | job in JobsOf(s'.workers[v]) ensures JobOk(s', job) {
        assert JobOk(s, job);
      }
    }
  }

  lemma DispatchStep(s: State, w: WorkerId, o: Options, job: Job, ok: bool, jobs: seq<Job>)
    requires Inv(s) && WorkerOf(s, w) == Claimed(o, job, jobs) && job.fingerprint == o.fingerprint
    ensures Inv(Goto(Dispatch(s, job, o, ok), w, Reported(o, job, ok, jobs)))
  {
    hide Holders;
    var pc := Reported(o, job, ok, jobs);
    var s' := Goto(Dispatch(s, job, o, ok), w, pc);
    assert WorkerOk(s, Claimed(o, job, jobs)) && job in JobsOf(Claimed(o, job, jobs)) && JobOk(s, job);
    forall id ensures Accounted(s', id) {
      assert Accounted(s, id);
      HoldersMoved(s, s', w, pc, id);
    }
    RecordsKeepJobs(s, s', w, pc);
    LoginsStay(s, s');
  }

  lemma WorkInv(s: State, w: WorkerId, listing: seq<DeliveryId>, ok: bool)
    requires Inv(s)
    ensures Inv(WorkStep(s, w, listing, ok))
  {
    hide Inv, Accounted, KeysUnique, LoginsUnique, Listed, JobOk, Claim, Dispatch;
    InHand(s, w);
    var s' := WorkStep(s, w, listing, ok);
    match WorkerOf(s, w)
    case Idle => LosingStep(s, s', w, Expired);
    case Expired => LosingStep(s, s', w, Configured(s.options));
    case Configured(o) => LosingStep(s, s', w, Swept(o));
    case Swept(o) =>
      ListedInv(s, listing);
      LosingStep(s, s', w, if o.enabled then Working(o, Listed(s, listing, BATCH)) else Idle);
    case Working(o, jobs) =>
      if jobs == [] {
        LosingStep(s, s', w, Idle);
      } else if Claimable(s, jobs[0].id) {
        assert jobs == [jobs[0]] + jobs[1..];
        ClaimStep(s, w, o, jobs[0], jobs[1..]);
      } else {
        LosingStep(s, s', w, Working(o, jobs[1..]));
      }
    case Claimed(o, job, jobs) =>
      if job.fingerprint != o.fingerprint {
        LosingStep(s, s', w, if job.id in s.rows then Working(o, jobs) else Idle);
      } else {
        DispatchStep(s, w, o, job, ok, jobs);
      }
    case Reported(o, job, sent, jobs) => LosingStep(s, s', w, if job.id in s.rows then Working(o, jobs) else Idle);
  }

  lemma InHand(s: State, w: WorkerId)
    requires Inv(s)
    ensures WorkerOk(s, WorkerOf(s, w))
  {
  }

  lemma ListedInv(s: State, listing: seq<DeliveryId>)
    requires Inv(s)
    ensures forall job | job in Listed(s, listing, BATCH) :: JobOk(s, job)
  {
    ListedOk(s, listing, BATCH);
  }

  lemma EnqueueInv(s: State, id: DeliveryId, text: string, template: bool)
    requires Inv(s)
    ensures Inv(EnqueueStep(s, id, Other(text), template))
  {
    var s' := EnqueueStep(s, id, Other(text), template);
    if s' != s {
      forall i ensures Accounted(s', i) {
        assert Accounted(s, i);
        SameHolders(s, s', i);
      }
      RecordsStay(s, s');
    }
  }

  lemma RecordLoginInv(s: State, id: DeliveryId, session: nat, template: bool)
    requires Inv(s)
    ensures Inv(RecordLoginStep(s, id, session, template))
  {
    hide Holders;
    var s' := RecordLoginStep(s, id, session, template);
    if s' != s {
      forall i ensures Accounted(s', i) {
        assert Accounted(s, i);
        SameHolders(s, s', i);
      }
      RecordsStay(s, s');
      FirstOfSession(s, s', id, session);
    }
  }

  /** No earlier delivery belongs to a session that was not recorded. */
  lemma FirstOfSession(s: State, s': State, id: DeliveryId, session: nat)
    requires Inv(s) && session !in s.recorded && (s'.records == s.records || id !in s.records)
    requires s'.records == s.records || exists record ::
      s'.records == s.records[id := record] && record.eventKey == Login(session)
    ensures LoginsUnique(s')
  {
    hide Holders;
    forall i, j | i in s'.records && j in s'.records && s'.records[i].eventKey.Login? &&
      s'.records[i].eventKey == s'.records[j].eventKey
      ensures i == j
    {
      assert Accounted(s, i) && Accounted(s, j);
    }
  }

  lemma RecordsStay(s: State, s': State)
    requires WorkersOk(s) && s'.workers == s.workers
    requires forall id | id in s.records :: id in s'.records && s'.records[id].queuedFor == s.records[id].queuedFor
    ensures WorkersOk(s')
  {
    forall v | v in s'.workers ensures WorkerOk(s', s'.workers[v]) {
      assert WorkerOk(s, s.workers[v]);
      forall job | job in JobsOf(s'.workers[v]) ensures JobOk(s', job) {
        assert JobOk(s, job);
      }
    }
  }

  lemma RetryInv(s: State, id: DeliveryId, seen: Options)
    requires Inv(s)
    ensures Inv(RetryStep(s, id, seen))
  {
    hide Holders;
    var s' := RetryStep(s, id, seen);
    if s' != s {
      forall i ensures Accounted(s', i) {
        assert Accounted(s, i);
        SameHolders(s, s', i);
      }
      RecordsStay(s, s');
      assert Accounted(s, id);
      LoginsStay(s, s');
    }
  }

  lemma SameHolders(s: State, s': State, id: DeliveryId)
    requires s'.workers == s.workers
    ensures Holders(s', id) == Holders(s, id)
  {
  }

  lemma SettingsInv(s: State, now: int, options: Options)
    requires Inv(s)
    ensures Inv(s.(now := now, options := options))
  {
    var s' := s.(now := now, options := options);
    forall i ensures Accounted(s', i) {
      assert Accounted(s, i);
      SameHolders(s, s', i);
    }
    RecordsStay(s, s');
  }

  lemma StepInv(s: State, e: Event)
    requires Inv(s)
    ensures Inv(Step(s, e))
  {
    hide Inv, WorkStep, EnqueueStep, RecordLoginStep, RetryStep;
    match e
    case Pass(ms) => SettingsInv(s, s.now + ms, s.options);
    case Configure(options) => SettingsInv(s, s.now, options);
    case Enqueue(id, text, template) => EnqueueInv(s, id, text, template);
    case RecordLogin(id, session, template) => RecordLoginInv(s, id, session, template);
    case Retry(id, seen) => RetryInv(s, id, seen);
    case Work(w, listing, ok) => WorkInv(s, w, listing, ok);
    case Crash(w) => LosingStep(s, Goto(s, w, Idle), w, Idle);
  }

  lemma {:induction false} RunInv(s: State, schedule: seq<Event>)
    requires Inv(s)
    ensures Inv(Run(s, schedule))
    decreases |schedule|
  {
    hide Inv, Step;
    if schedule != [] {
      StepInv(s, schedule[0]);
      RunInv(Step(s, schedule[0]), schedule[1..]);
    }
  }

  lemma InitInv(now: int, options: Options)
    ensures Inv(INIT(now, options))
  {
  }

  // ---------------------------------------------------------------------
  // What every run guarantees
  // ---------------------------------------------------------------------

  /**
   * Under every interleaving each delivery is sent at most as often as it was attempted, and attempted at most once
   * more than it was retried by hand. It is only ever sent to the destination it was queued for.
   */
  lemma SendsBounded(now: int, options: Options, schedule: seq<Event>, id: DeliveryId)
    ensures var s := Run(INIT(now, options), schedule); var record := RecordOf(s, id);
      && record.sends <= record.attempts <= 1 + record.retries
      && record.sentTo <= {record.queuedFor}
      && (id in s.rows ==> s.rows[id].attempts == record.attempts)
  {
    hide Run, INIT, Holders;
    InitInv(now, options);
    RunInv(INIT(now, options), schedule);
    assert Accounted(Run(INIT(now, options), schedule), id);
  }

  /** Without a manual retry nothing is sent twice. */
  lemma NoBlindResend(now: int, options: Options, schedule: seq<Event>, id: DeliveryId)
    requires RecordOf(Run(INIT(now, options), schedule), id).retries == 0
    ensures RecordOf(Run(INIT(now, options), schedule), id).sends <= 1
  {
    hide Run, INIT, RecordOf;
    SendsBounded(now, options, schedule, id);
  }

  /** At most one row for each event. */
  lemma EventsQueuedOnce(now: int, options: Options, schedule: seq<Event>)
    ensures KeysUnique(Run(INIT(now, options), schedule))
  {
    hide Run, INIT, Accounted, WorkersOk;
    InitInv(now, options);
    RunInv(INIT(now, options), schedule);
  }

  /**
   * A login has at most one delivery ever, even after its row was cleaned up, so without a retry it is announced at
   * most once.
   */
  lemma LoginAnnouncedOnce(now: int, options: Options, schedule: seq<Event>, i: DeliveryId, j: DeliveryId)
    requires var s := Run(INIT(now, options), schedule);
      i in s.records && j in s.records && s.records[i].eventKey.Login? && s.records[i].eventKey == s.records[j].eventKey
    ensures i == j
    ensures var record := RecordOf(Run(INIT(now, options), schedule), i); record.sends <= 1 + record.retries
  {
    hide Run, INIT, Accounted, WorkersOk;
    InitInv(now, options);
    RunInv(INIT(now, options), schedule);
    SendsBounded(now, options, schedule, i);
  }

  // ---------------------------------------------------------------------
  // What a status says
  // ---------------------------------------------------------------------

  /** A worker between its claim and its report. */
  predicate Engages(pc: Worker, id: DeliveryId) {
    (pc.Claimed? || pc.Reported?) && pc.job.id == id
  }

  predicate Engaged(s: State, w: WorkerId, id: DeliveryId) {
    w in s.workers && Engages(s.workers[w], id)
  }

  /** What the gateway said is what the worker will report. */
  predicate ReportTrue(s: State, pc: Worker, id: DeliveryId) {
    pc.Reported? && pc.job.id == id ==>
      if pc.ok then RecordOf(s, id).confirmed >= 1 else RecordOf(s, id).refused >= 1
  }

  /** The status of a row is what happened to it; unless the sweeper gave up, one worker at most is engaged. */
  ghost predicate Honest(s: State, id: DeliveryId) {
    var record := RecordOf(s, id);
    && (id in s.rows && s.rows[id].status.Sent? ==> record.confirmed >= 1)
    && (id in s.rows && s.rows[id].status.Unknown? ==> record.refused + record.swept >= 1)
    && (id in s.rows ==> !s.rows[id].status.Failed?)
    && (record.swept == 0 ==> forall w | Engaged(s, w, id) :: id in s.rows && s.rows[id].status.Sending?)
    && (record.swept == 0 ==> forall v, w | Engaged(s, v, id) && Engaged(s, w, id) :: v == w)
    && (forall w | w in s.workers :: ReportTrue(s, s.workers[w], id))
  }

  ghost predicate AllHonest(s: State) {
    forall id :: Honest(s, id)
  }

  /** A worker takes a step that is none of its business with `id`. */
  lemma OtherStep(s: State, s': State, w: WorkerId, pc: Worker, id: DeliveryId)
    requires Honest(s, id) && s'.workers == s.workers[w := pc] && RecordOf(s', id) == RecordOf(s, id)
    requires (id in s'.rows <==> id in s.rows) && (id in s.rows ==> s'.rows[id].status == s.rows[id].status)
    requires !Engages(pc, id)
    ensures Honest(s', id)
  {
    forall v | Engaged(s', v, id) ensures Engaged(s, v, id) {
    }
    forall v | v in s'.workers ensures ReportTrue(s', s'.workers[v], id) {
      assert v != w ==> ReportTrue(s, s.workers[v], id);
    }
  }

  /** Rows leave, or get the status cancelled, while nobody is engaged with them. */
  lemma IdleRowStep(s: State, s': State, w: WorkerId, pc: Worker, id: DeliveryId)
    requires Honest(s, id) && s'.workers == s.workers[w := pc] && RecordOf(s', id) == RecordOf(s, id)
    requires id in s.rows && !s.rows[id].status.Sending? && !Engages(pc, id)
    requires id in s'.rows ==> s'.rows[id].status == s.rows[id].status || s'.rows[id].status.Cancelled?
    ensures Honest(s', id)
  {
    forall v | Engaged(s', v, id) ensures Engaged(s, v, id) {
    }
    forall v | v in s'.workers ensures ReportTrue(s', s'.workers[v], id) {
      assert v != w ==> ReportTrue(s, s.workers[v], id);
    }
  }

  lemma SweepHonest(s: State, w: WorkerId, o: Options, id: DeliveryId)
    requires Inv(s) && Honest(s, id) && WorkerOf(s, w) == Configured(o)
    ensures Honest(Goto(Sweep(s), w, Swept(o)), id)
  {
    hide Holders;
    var s' := Goto(Sweep(s), w, Swept(o));
    assert Accounted(s, id);
    if !Stale(s, id) {
      assert RecordOf(s', id) == RecordOf(s, id);
      OtherStep(s, s', w, Swept(o), id);
    } else {
      assert RecordOf(s', id).swept >= 1;
      forall v | v in s'.workers ensures ReportTrue(s', s'.workers[v], id) {
        assert v != w ==> ReportTrue(s, s.workers[v], id);
      }
    }
  }

  lemma ClaimHonest(s: State, w: WorkerId, o: Options, job: Job, jobs: seq<Job>, id: DeliveryId)
    requires Inv(s) && Honest(s, id) && WorkerOf(s, w).Working? && Claimable(s, job.id)
    ensures Honest(Goto(Claim(s, job.id), w, Claimed(o, job, jobs)), id)
  {
    hide Holders, Inv;
    var pc := Claimed(o, job, jobs);
    var s' := Goto(Claim(s, job.id), w, pc);
    if job.id != id {
      OtherStep(s, s', w, pc, id);
    } else {
      assert RecordOf(s', id).swept == RecordOf(s, id).swept;
      forall v | Engaged(s', v, id) && v != w ensures Engaged(s, v, id) {
      }
      forall v | v in s'.workers ensures ReportTrue(s', s'.workers[v], id) {
        assert v != w ==> ReportTrue(s, s.workers[v], id);
      }
    }
  }

  lemma DispatchHonest(s: State, w: WorkerId, o: Options, job: Job, ok: bool, jobs: seq<Job>, id: DeliveryId)
    requires Honest(s, id) && WorkerOf(s, w) == Claimed(o, job, jobs)
    ensures Honest(Goto(Dispatch(s, job, o, ok), w, Reported(o, job, ok, jobs)), id)
  {
    var pc := Reported(o, job, ok, jobs);
    var s' := Goto(Dispatch(s, job, o, ok), w, pc);
    if job.id != id {
      OtherStep(s, s', w, pc, id);
    } else {
      assert Engaged(s, w, id);
      forall v | Engaged(s', v, id) ensures Engaged(s, v, id) {
      }
      forall v | v in s'.workers ensures ReportTrue(s', s'.workers[v], id) {
        assert v != w ==> ReportTrue(s, s.workers[v], id);
      }
    }
  }

  /** A worker ends its engagement, and writes what came of it if the row is still there. */
  lemma FinishHonest(s: State, w: WorkerId, pc: Worker, status: Status, id: DeliveryId, job: DeliveryId)
    requires Honest(s, id) && Engaged(s, w, job) && !Engages(pc, id) && job in s.rows
    requires status.Cancelled? || (status.Sent? && RecordOf(s, job).confirmed >= 1) ||
      (status.Unknown? && RecordOf(s, job).refused >= 1)
    ensures Honest(Goto(Finish(s, job, status), w, pc), id)
  {
    var s' := Goto(Finish(s, job, status), w, pc);
    if job != id {
      OtherStep(s, s', w, pc, id);
    } else {
      forall v | Engaged(s', v, id) ensures Engaged(s, v, id) && v != w {
      }
      forall v | v in s'.workers ensures ReportTrue(s', s'.workers[v], id) {
        assert v != w ==> ReportTrue(s, s.workers[v], id);
      }
    }
  }

  lemma ExpireHonest(s: State, w: WorkerId, id: DeliveryId)
    requires Honest(s, id)
    ensures Honest(Goto(Expire(s), w, Expired), id)
  {
    hide Honest;
    var s' := Goto(Expire(s), w, Expired);
    if id in s.rows && s'.rows[id] != s.rows[id] {
      IdleRowStep(s, s', w, Expired, id);
    } else {
      OtherStep(s, s', w, Expired, id);
    }
  }

  lemma CleanHonest(s: State, w: WorkerId, id: DeliveryId)
    requires Honest(s, id)
    ensures Honest(Goto(Clean(s), w, Idle), id)
  {
    hide Honest;
    var s' := Goto(Clean(s), w, Idle);
    if id in s.rows && id !in s'.rows {
      IdleRowStep(s, s', w, Idle, id);
    } else {
      OtherStep(s, s', w, Idle, id);
    }
  }

  lemma WorkHonest(s: State, w: WorkerId, listing: seq<DeliveryId>, ok: bool, id: DeliveryId)
    requires Inv(s) && AllHonest(s)
    ensures Honest(WorkStep(s, w, listing, ok), id)
  {
    hide Inv, Listed, Claim, Dispatch, Sweep, Finish, Honest, Stale, Expire, Clean;
    var s' := WorkStep(s, w, listing, ok);
    assert Honest(s, id);
    match WorkerOf(s, w)
    case Idle => ExpireHonest(s, w, id);
    case Expired => OtherStep(s, s', w, Configured(s.options), id);
    case Configured(o) => SweepHonest(s, w, o, id);
    case Swept(o) => OtherStep(s, s', w, if o.enabled then Working(o, Listed(s, listing, BATCH)) else Idle, id);
    case Working(o, jobs) =>
      if jobs == [] {
        CleanHonest(s, w, id);
      } else if Claimable(s, jobs[0].id) {
        ClaimHonest(s, w, o, jobs[0], jobs[1..], id);
      } else {
        OtherStep(s, s', w, Working(o, jobs[1..]), id);
      }
    case Claimed(o, job, jobs) =>
      if job.fingerprint == o.fingerprint {
        DispatchHonest(s, w, o, job, ok, jobs, id);
      } else if job.id in s.rows {
        FinishHonest(s, w, Working(o, jobs), Cancelled, id, job.id);
      } else {
        OtherStep(s, s', w, Idle, id);
      }
    case Reported(o, job, sent, jobs) =>
      Reports(s, w, job.id);
      if job.id in s.rows {
        FinishHonest(s, w, Working(o, jobs), if sent then Sent else Unknown, id, job.id);
      } else {
        OtherStep(s, s', w, Idle, id);
      }
  }

  lemma Reports(s: State, w: WorkerId, id: DeliveryId)
    requires AllHonest(s) && w in s.workers
    ensures ReportTrue(s, s.workers[w], id)
  {
    assert Honest(s, id);
  }

  lemma EnqueueHonest(s: State, n: DeliveryId, eventKey: EventKey, template: bool, id: DeliveryId)
    requires Inv(s) && Honest(s, id)
    ensures Honest(EnqueueStep(s, n, eventKey, template), id)
  {
    hide Holders;
    var s' := EnqueueStep(s, n, eventKey, template);
    if s' != s {
      assert Accounted(s, id) && WorkersOk(s);
      forall w | Engaged(s', w, id) ensures Engaged(s, w, id) && id in s.records {
        assert WorkerOk(s, s.workers[w]) && s.workers[w].job in JobsOf(s.workers[w]);
        assert JobOk(s, s.workers[w].job);
      }
      forall w | w in s'.workers ensures ReportTrue(s', s'.workers[w], id) {
        assert ReportTrue(s, s.workers[w], id);
        if s.workers[w].Reported? && s.workers[w].job.id == id {
          assert Engaged(s', w, id);
        }
      }
    }
  }

  lemma SameHonest(s: State, s': State, id: DeliveryId)
    requires Honest(s, id) && s'.workers == s.workers && RecordOf(s', id) == RecordOf(s, id)
    requires (id in s'.rows <==> id in s.rows) && (id in s.rows ==> s'.rows[id].status == s.rows[id].status)
    ensures Honest(s', id)
  {
    forall w | Engaged(s', w, id) ensures Engaged(s, w, id) {
    }
    forall w | w in s'.workers ensures ReportTrue(s', s'.workers[w], id) {
      assert ReportTrue(s, s.workers[w], id);
    }
  }

  lemma RetryHonest(s: State, n: DeliveryId, seen: Options, id: DeliveryId)
    requires Honest(s, id)
    ensures Honest(RetryStep(s, n, seen), id)
  {
    var s' := RetryStep(s, n, seen);
    if s' == s || n != id {
      SameHonest(s, s', id);
    } else {
      forall w | Engaged(s', w, id) ensures Engaged(s, w, id) {
      }
      forall w | w in s'.workers ensures ReportTrue(s', s'.workers[w], id) {
        assert ReportTrue(s, s.workers[w], id);
      }
    }
  }

  lemma StepHonest(s: State, e: Event)
    requires Inv(s) && AllHonest(s)
    ensures AllHonest(Step(s, e))
  {
    hide Inv, WorkStep, EnqueueStep, RetryStep, Honest;
    forall id ensures Honest(Step(s, e), id) {
      assert Honest(s, id);
      match e
      case Pass(ms) => SameHonest(s, Step(s, e), id);
      case Configure(options) => SameHonest(s, Step(s, e), id);
      case Enqueue(n, text, template) => EnqueueHonest(s, n, Other(text), template, id);
      case RecordLogin(n, session, template) =>
        EnqueueHonest(s, n, Login(session), template, id);
        if session !in s.recorded {
          SameHonest(EnqueueStep(s, n, Login(session), template), Step(s, e), id);
        }
      case Retry(n, seen) => RetryHonest(s, n, seen, id);
      case Work(w, listing, ok) => WorkHonest(s, w, listing, ok, id);
      case Crash(w) => OtherStep(s, Step(s, e), w, Idle, id);
    }
  }

  lemma {:induction false} RunHonest(s: State, schedule: seq<Event>)
    requires Inv(s) && AllHonest(s)
    ensures Inv(Run(s, schedule)) && AllHonest(Run(s, schedule))
    decreases |schedule|
  {
    hide Inv, AllHonest, Step;
    if schedule != [] {
      StepInv(s, schedule[0]);
      StepHonest(s, schedule[0]);
      RunHonest(Step(s, schedule[0]), schedule[1..]);
    }
  }

  lemma RunFromInit(now: int, options: Options, schedule: seq<Event>)
    ensures Inv(Run(INIT(now, options), schedule)) && AllHonest(Run(INIT(now, options), schedule))
  {
    hide Run, Inv;
    InitInv(now, options);
    RunHonest(INIT(now, options), schedule);
  }

  /**
   * In every run a row that is sent was confirmed by the gateway, and one that is unknown was refused by it or given
   * up by the sweeper.
   */
  lemma StatusIsTrue(now: int, options: Options, schedule: seq<Event>, id: DeliveryId)
    ensures var s := Run(INIT(now, options), schedule); id in s.rows ==>
      && (s.rows[id].status.Sent? ==> RecordOf(s, id).confirmed >= 1)
      && (s.rows[id].status.Unknown? ==> RecordOf(s, id).refused + RecordOf(s, id).swept >= 1)
  {
    hide Run, INIT, Inv;
    RunFromInit(now, options, schedule);
    assert Honest(Run(INIT(now, options), schedule), id);
  }

  // ---------------------------------------------------------------------
  // A confirmed delivery is not sent again
  // ---------------------------------------------------------------------

  /** Sent, or cleaned up after that, and nobody has it in hand. */
  predicate Finished(s: State, id: DeliveryId) {
    && id in s.records && (id in s.rows ==> s.rows[id].status.Sent?)
    && forall w | w in s.workers :: !Engages(s.workers[w], id)
  }

  lemma WorkFinished(s: State, w: WorkerId, listing: seq<DeliveryId>, ok: bool, id: DeliveryId)
    requires Finished(s, id)
    ensures var s' := WorkStep(s, w, listing, ok); Finished(s', id) && s'.records[id] == s.records[id]
  {
    hide Listed;
  }

  lemma FinishedStays(s: State, e: Event, id: DeliveryId)
    requires Finished(s, id)
    ensures var s' := Step(s, e); Finished(s', id) && s'.records[id] == s.records[id]
  {
    hide WorkStep;
    if e.Work? {
      WorkFinished(s, e.worker, e.listing, e.ok, id);
    }
  }

  lemma {:induction false} FinishedForever(s: State, more: seq<Event>, id: DeliveryId)
    requires Finished(s, id)
    ensures var s' := Run(s, more); Finished(s', id) && s'.records[id] == s.records[id]
    decreases |more|
  {
    hide Step, Finished;
    assert id in s.records by { KnownRecord(s, id); }
    if more != [] {
      FinishedStays(s, more[0], id);
      KnownRecord(Step(s, more[0]), id);
      FinishedForever(Step(s, more[0]), more[1..], id);
    }
  }

  lemma KnownRecord(s: State, id: DeliveryId)
    requires Finished(s, id)
    ensures id in s.records
  {
  }

  /**
   * In every run a row that is sent, and that the sweeper never gave up, stays sent until it is cleaned up and is never
   * sent again, whatever workers, retries and crashes follow.
   */
  lemma SentIsFinal(now: int, options: Options, schedule: seq<Event>, more: seq<Event>, id: DeliveryId)
    requires var s := Run(INIT(now, options), schedule);
      id in s.rows && s.rows[id].status.Sent? && RecordOf(s, id).swept == 0
    ensures var s := Run(INIT(now, options), schedule); var s' := Run(s, more);
      && RecordOf(s', id) == RecordOf(s, id) && RecordOf(s', id).confirmed >= 1
      && (id in s'.rows ==> s'.rows[id].status.Sent?)
  {
    hide Run, INIT, Holders;
    RunFromInit(now, options, schedule);
    var s := Run(INIT(now, options), schedule);
    assert Honest(s, id) && Accounted(s, id);
    forall w | w in s.workers ensures !Engages(s.workers[w], id) {
      assert Engaged(s, w, id) <==> Engages(s.workers[w], id);
    }
    FinishedForever(s, more, id);
  }

  // ---------------------------------------------------------------------
  // The life of a row
  // ---------------------------------------------------------------------

  /** What a step of a worker does to one row, read off the position of the worker. */
  datatype Effect = Nothing | Lost | Became(status: Status)

  /** A drain begins by cancelling what waited for more than a day. */
  predicate Expires(s: State, w: WorkerId, id: DeliveryId)
    requires id in s.rows
  {
    WorkerOf(s, w).Idle? && s.rows[id].status.Pending? && s.now - s.rows[id].createdAt > 24 * 60 * 60 * 1000
  }

  /** It gives up what has been under way for more than two minutes. */
  predicate GivesUp(s: State, w: WorkerId, id: DeliveryId)
    requires id in s.rows
  {
    WorkerOf(s, w).Configured? && s.rows[id].status.Sending? && s.now - s.rows[id].updatedAt > 2 * 60 * 1000
  }

  /** It ends by deleting what is finished and older than thirty days. */
  predicate Deletes(s: State, w: WorkerId, id: DeliveryId)
    requires id in s.rows
  {
    && WorkerOf(s, w).Working? && WorkerOf(s, w).jobs == []
    && s.now - s.rows[id].createdAt > 30 * 24 * 60 * 60 * 1000
    && s.rows[id].status !in {Pending, Sending}
  }

  /** In between, each job is claimed if it is still pending, and its send is reported as the gateway answered. */
  function EffectOf(s: State, w: WorkerId, id: DeliveryId): Effect
    requires id in s.rows
  {
    var pc := WorkerOf(s, w);
    if Deletes(s, w, id) then Lost
    else if Expires(s, w, id) then Became(Cancelled)
    else if GivesUp(s, w, id) then Became(Unknown)
    else if pc.Working? && pc.jobs != [] && pc.jobs[0].id == id && s.rows[id].status.Pending? then Became(Sending)
    else if pc.Claimed? && pc.job.id == id && pc.job.fingerprint != pc.options.fingerprint then Became(Cancelled)
    else if pc.Reported? && pc.job.id == id then Became(if pc.ok then Sent else Unknown)
    else Nothing
  }

  /** Exactly these rows are cancelled, given up, claimed, reported and deleted by a step, and no others change. */
  lemma WorkEffects(s: State, w: WorkerId, listing: seq<DeliveryId>, ok: bool, id: DeliveryId)
    requires id in s.rows
    ensures var s' := WorkStep(s, w, listing, ok);
      match EffectOf(s, w, id)
      case Lost => id !in s'.rows
      case Became(status) =>
        id in s'.rows && s'.rows[id] == s.rows[id].(
          status := status, updatedAt := s.now,
          attempts := s.rows[id].attempts + (if status.Sending? then 1 else 0))
      case Nothing => id in s'.rows && s'.rows[id] == s.rows[id]
    ensures forall n | n !in s.rows :: n !in WorkStep(s, w, listing, ok).rows
  {
    hide Listed, Dispatch;
    DispatchRows(s, w, ok);
  }

  lemma DispatchRows(s: State, w: WorkerId, ok: bool)
    ensures var pc := WorkerOf(s, w); pc.Claimed? ==> Dispatch(s, pc.job, pc.options, ok).rows == s.rows
  {
  }

  /** Outside drains a row changes only by a manual retry, which needs the current destination. */
  lemma OtherEffects(s: State, e: Event, id: DeliveryId)
    requires Inv(s) && !e.Work? && id in s.rows
    ensures id in Step(s, e).rows
    ensures var row := s.rows[id];
      Step(s, e).rows[id] ==
        if e.Retry? && e.id == id && e.seen.enabled && e.seen.fingerprint == row.fingerprint &&
           (row.status.Unknown? || row.status.Failed?)
        then row.(status := Pending, updatedAt := s.now) else row
  {
    hide Holders;
    assert Accounted(s, id);
  }

  /** An event is queued exactly if messages are switched on, for its type too, and no row has its key. */
  lemma EnqueueExact(s: State, id: DeliveryId, text: string, template: bool)
    requires Inv(s) && id !in s.records
    ensures var s' := Step(s, Enqueue(id, text, template));
      if s.options.enabled && template && (forall n | n in s.rows :: s.rows[n].eventKey != Other(text)) then
        s'.rows == s.rows[id := Row(Other(text), s.options.fingerprint, Pending, 0, s.now, s.now)]
      else s' == s
  {
  }

  /** A login is queued at most once, by whoever records it first, and is recorded even if nothing is queued. */
  lemma RecordLoginExact(s: State, id: DeliveryId, session: nat, template: bool)
    requires Inv(s) && id !in s.records
    ensures var s' := Step(s, RecordLogin(id, session, template));
      && session in s'.recorded
      && (session in s.recorded ==> s' == s)
      && (session !in s.recorded && s.options.enabled && template &&
          (forall n | n in s.rows :: s.rows[n].eventKey != Login(session)) ==>
            s'.rows == s.rows[id := Row(Login(session), s.options.fingerprint, Pending, 0, s.now, s.now)])
      && (!s.options.enabled || !template ==> s'.rows == s.rows)
  {
  }

  // ---------------------------------------------------------------------
  // A drain delivers
  // ---------------------------------------------------------------------

  lemma {:induction false} RunJoin(s: State, a: seq<Event>, b: seq<Event>)
    ensures Run(s, a + b) == Run(Run(s, a), b)
    decreases |a|
  {
    hide Step;
    if a == [] {
      assert a + b == b;
    } else {
      assert (a + b)[1..] == a[1..] + b;
      RunJoin(Step(s, a[0]), a[1..], b);
    }
  }

  lemma RunOne(s: State, e: Event, rest: seq<Event>)
    ensures Run(s, [e] + rest) == Run(Step(s, e), rest) && Run(s, []) == s
  {
    assert ([e] + rest)[1..] == rest;
  }

  predicate ByWorker(schedule: seq<Event>, w: WorkerId) {
    forall i | 0 <= i < |schedule| :: schedule[i].Work? && schedule[i].worker == w
  }

  /** What becomes of a job: another destination cancels it, otherwise the gateway decides. */
  function Fate(matches: bool, ok: bool): Status {
    if !matches then Cancelled else if ok then Sent else Unknown
  }

  /** Nothing happened to this delivery. */
  predicate Untouched(s: State, s': State, n: DeliveryId) {
    n in s.rows ==> n in s'.rows && s'.rows[n] == s.rows[n] && RecordOf(s', n) == RecordOf(s, n)
  }

  predicate Delivered(s: State, s': State, job: Job, o: Options, ok: bool) {
    && job.id in s.rows && job.id in s'.rows
    && s'.rows[job.id].status == Fate(job.fingerprint == o.fingerprint, ok)
    && s'.rows[job.id].createdAt == s.rows[job.id].createdAt
    && RecordOf(s', job.id).sends == RecordOf(s, job.id).sends + (if job.fingerprint == o.fingerprint then 1 else 0)
  }

  lemma ClaimIs(s: State, w: WorkerId, o: Options, job: Job, jobs: seq<Job>, ok: bool)
    requires WorkerOf(s, w) == Working(o, [job] + jobs) && Claimable(s, job.id)
    ensures Step(s, Work(w, [], ok)) == Goto(Claim(s, job.id), w, Claimed(o, job, jobs))
  {
    hide Claim;
    assert ([job] + jobs)[1..] == jobs && ([job] + jobs)[0] == job;
  }

  lemma CancelIs(s: State, w: WorkerId, o: Options, job: Job, jobs: seq<Job>, ok: bool)
    requires WorkerOf(s, w) == Claimed(o, job, jobs) && job.fingerprint != o.fingerprint && job.id in s.rows
    ensures Step(s, Work(w, [], ok)) == Goto(Finish(s, job.id, Cancelled), w, Working(o, jobs))
  {
  }

  lemma SendIs(s: State, w: WorkerId, o: Options, job: Job, jobs: seq<Job>, ok: bool)
    requires WorkerOf(s, w) == Claimed(o, job, jobs) && job.fingerprint == o.fingerprint
    ensures Step(s, Work(w, [], ok)) == Goto(Dispatch(s, job, o, ok), w, Reported(o, job, ok, jobs))
  {
    hide Dispatch;
  }

  lemma ReportIs(s: State, w: WorkerId, o: Options, job: Job, jobs: seq<Job>, sent: bool, ok: bool)
    requires WorkerOf(s, w) == Reported(o, job, sent, jobs) && job.id in s.rows
    ensures Step(s, Work(w, [], ok)) == Goto(Finish(s, job.id, Fate(true, sent)), w, Working(o, jobs))
  {
  }

  /** One job, from the claim to the report, without anybody in between. */
  lemma JobAlone(s: State, w: WorkerId, o: Options, job: Job, jobs: seq<Job>, ok: bool)
    returns (schedule: seq<Event>, s': State)
    requires WorkerOf(s, w) == Working(o, [job] + jobs) && Claimable(s, job.id)
    ensures ByWorker(schedule, w) && s' == Run(s, schedule) && WorkerOf(s', w) == Working(o, jobs)
    ensures s'.rows.Keys == s.rows.Keys && s'.now == s.now && Delivered(s, s', job, o, ok)
    ensures forall n | n != job.id :: Untouched(s, s', n)
  {
    hide Run, Step;
    var e := Work(w, [], ok);
    ClaimIs(s, w, o, job, jobs, ok);
    var s1 := Goto(Claim(s, job.id), w, Claimed(o, job, jobs));
    if job.fingerprint != o.fingerprint {
      CancelIs(s1, w, o, job, jobs, ok);
      s' := Goto(Finish(s1, job.id, Cancelled), w, Working(o, jobs));
      schedule := [e] + ([e] + []);
      RunOne(s, e, [e] + []);
      RunOne(s1, e, []);
      RunOne(s', e, []);
    } else {
      SendIs(s1, w, o, job, jobs, ok);
      var s2 := Goto(Dispatch(s1, job, o, ok), w, Reported(o, job, ok, jobs));
      ReportIs(s2, w, o, job, jobs, ok, ok);
      s' := Goto(Finish(s2, job.id, Fate(true, ok)), w, Working(o, jobs));
      schedule := [e] + ([e] + ([e] + []));
      RunOne(s, e, [e] + ([e] + []));
      RunOne(s1, e, [e] + []);
      RunOne(s2, e, []);
      RunOne(s', e, []);
    }
  }

  predicate DistinctJobs(jobs: seq<Job>) {
    forall i, j | 0 <= i < j < |jobs| :: jobs[i].id != jobs[j].id
  }

  predicate AllClaimable(s: State, jobs: seq<Job>) {
    forall i | 0 <= i < |jobs| :: Claimable(s, jobs[i].id)
  }

  predicate Outside(jobs: seq<Job>, n: DeliveryId) {
    forall i | 0 <= i < |jobs| :: jobs[i].id != n
  }

  predicate AllDelivered(s: State, s': State, jobs: seq<Job>, o: Options, answers: seq<bool>)
    requires |answers| == |jobs|
  {
    forall i | 0 <= i < |jobs| :: Delivered(s, s', jobs[i], o, answers[i])
  }

  lemma StillClaimable(s: State, s': State, jobs: seq<Job>)
    requires jobs != [] && DistinctJobs(jobs) && AllClaimable(s, jobs)
    requires forall n | n != jobs[0].id :: Untouched(s, s', n)
    ensures DistinctJobs(jobs[1..]) && AllClaimable(s', jobs[1..]) && Outside(jobs[1..], jobs[0].id)
  {
    hide RecordOf;
    var rest := jobs[1..];
    forall i | 0 <= i < |rest| ensures Claimable(s', rest[i].id) {
      assert rest[i] == jobs[i + 1] && Claimable(s, jobs[i + 1].id) && jobs[0].id != jobs[i + 1].id;
      assert Untouched(s, s', rest[i].id);
    }
  }

  lemma DeliveredBoth(s: State, s1: State, s': State, jobs: seq<Job>, o: Options, answers: seq<bool>)
    requires jobs != [] && |answers| == |jobs| && DistinctJobs(jobs) && AllClaimable(s, jobs)
    requires Delivered(s, s1, jobs[0], o, answers[0]) && Untouched(s1, s', jobs[0].id)
    requires forall n | n != jobs[0].id :: Untouched(s, s1, n)
    requires AllDelivered(s1, s', jobs[1..], o, answers[1..])
    ensures AllDelivered(s, s', jobs, o, answers)
  {
    hide RecordOf;
    forall i | 0 <= i < |jobs| ensures Delivered(s, s', jobs[i], o, answers[i]) {
      if i > 0 {
        assert Delivered(s1, s', jobs[1..][i - 1], o, answers[1..][i - 1]);
        assert Claimable(s, jobs[i].id) && jobs[0].id != jobs[i].id;
        assert Untouched(s, s1, jobs[i].id);
      }
    }
  }

  /** Jobs that are in nobody else's hands are dealt with one after the other. */
  lemma {:induction false} JobsAlone(s: State, w: WorkerId, o: Options, jobs: seq<Job>, answers: seq<bool>)
    returns (schedule: seq<Event>, s': State)
    requires WorkerOf(s, w) == Working(o, jobs) && |answers| == |jobs| && DistinctJobs(jobs) && AllClaimable(s, jobs)
    ensures ByWorker(schedule, w) && s' == Run(s, schedule) && WorkerOf(s', w) == Working(o, [])
    ensures s'.rows.Keys == s.rows.Keys && s'.now == s.now && AllDelivered(s, s', jobs, o, answers)
    ensures forall n | Outside(jobs, n) :: Untouched(s, s', n)
    decreases |jobs|
  {
    hide Run, WorkerOf, RecordOf, Delivered, DistinctJobs;
    if jobs == [] {
      schedule, s' := [], s;
      RunOne(s, Crash(w), []);
    } else {
      var job, rest := jobs[0], jobs[1..];
      assert jobs == [job] + rest && Claimable(s, jobs[0].id);
      var first, s1 := JobAlone(s, w, o, job, rest, answers[0]);
      StillClaimable(s, s1, jobs);
      var later, s2 := JobsAlone(s1, w, o, rest, answers[1..]);
      schedule, s' := first + later, s2;
      RunJoin(s, first, later);
      DeliveredBoth(s, s1, s', jobs, o, answers);
      forall n | Outside(jobs, n) ensures Untouched(s, s', n) {
        assert jobs[0].id != n && Outside(rest, n) by {
          assert forall i | 0 <= i < |rest| :: rest[i] == jobs[i + 1];
        }
        assert Untouched(s, s1, n) && Untouched(s1, s', n);
      }
    }
  }

  /** Pending, and not for more than a day. */
  predicate Waiting(s: State, id: DeliveryId) {
    Claimable(s, id) && s.now - s.rows[id].createdAt <= EXPIRY_MS
  }

  predicate AllWaiting(s: State, listing: seq<DeliveryId>) {
    forall i | 0 <= i < |listing| :: Waiting(s, listing[i])
  }

  function JobsFor(s: State, listing: seq<DeliveryId>): (jobs: seq<Job>)
    requires AllWaiting(s, listing)
    ensures |jobs| == |listing|
    ensures forall i | 0 <= i < |jobs| ::
      Waiting(s, listing[i]) && jobs[i] == Job(listing[i], s.rows[listing[i]].fingerprint)
  {
    if listing == [] then []
    else
      assert Waiting(s, listing[0]);
      [Job(listing[0], s.rows[listing[0]].fingerprint)] + JobsFor(s, listing[1..])
  }

  lemma {:induction false} ListedAll(s: State, listing: seq<DeliveryId>, room: nat)
    requires AllWaiting(s, listing) && |listing| <= room
    ensures Listed(s, listing, room) == JobsFor(s, listing)
    decreases |listing|
  {
    if listing != [] {
      assert Waiting(s, listing[0]);
      ListedAll(s, listing[1..], room - 1);
    }
  }

  /** The steps before the first claim leave what is waiting alone. */
  lemma DrainBegins(s: State, w: WorkerId, listing: seq<DeliveryId>) returns (schedule: seq<Event>, s': State)
    requires Inv(s) && WorkerOf(s, w).Idle? && s.options.enabled && AllWaiting(s, listing) && |listing| <= BATCH
    ensures ByWorker(schedule, w) && s' == Run(s, schedule) && s'.now == s.now && AllWaiting(s', listing)
    ensures WorkerOf(s', w) == Working(s.options, JobsFor(s', listing))
    ensures forall i | 0 <= i < |listing| :: Untouched(s, s', listing[i])
  {
    hide Run, Inv, Holders, Step, Sweep, Expire, Waiting, Untouched;
    var e, o := Work(w, listing, true), s.options;
    var s1 := Goto(Expire(s), w, Expired);
    var s2 := Goto(s1, w, Configured(o));
    var s3 := Goto(Sweep(s2), w, Swept(o));
    FirstSteps(s, w, listing);
    forall i | 0 <= i < |listing| ensures Waiting(s3, listing[i]) && Untouched(s, s3, listing[i]) {
      WaitingStays(s, w, listing[i]);
    }
    ListedAll(s3, listing, BATCH);
    s' := Goto(s3, w, Working(o, JobsFor(s3, listing)));
    ListStep(s3, w, o, listing);
    SameJobs(s3, s', listing);
    forall i | 0 <= i < |listing| ensures Untouched(s, s', listing[i]) {
      SameRow(s, s3, s', listing[i]);
    }
    schedule := [e] + ([e] + ([e] + ([e] + [])));
    RunOne(s, e, [e] + ([e] + ([e] + [])));
    RunOne(s1, e, [e] + ([e] + []));
    RunOne(s2, e, [e] + []);
    RunOne(s3, e, []);
    RunOne(s', e, []);
  }

  lemma FirstSteps(s: State, w: WorkerId, listing: seq<DeliveryId>)
    requires WorkerOf(s, w).Idle?
    ensures var e, s1 := Work(w, listing, true), Goto(Expire(s), w, Expired);
      var s2 := Goto(s1, w, Configured(s.options));
      && Step(s, e) == s1 && Step(s1, e) == s2 && Step(s2, e) == Goto(Sweep(s2), w, Swept(s.options))
      && Goto(Sweep(s2), w, Swept(s.options)).now == s.now
  {
    hide Sweep;
    SweepKeeps(Goto(Goto(Expire(s), w, Expired), w, Configured(s.options)));
  }

  lemma SweepKeeps(s: State)
    ensures Sweep(s).now == s.now && Sweep(s).workers == s.workers && Sweep(s).options == s.options
  {
  }

  lemma ListStep(s: State, w: WorkerId, o: Options, listing: seq<DeliveryId>)
    requires WorkerOf(s, w) == Swept(o) && o.enabled
    ensures Step(s, Work(w, listing, true)) == Goto(s, w, Working(o, Listed(s, listing, BATCH)))
  {
    hide Listed;
  }

  lemma WaitingStays(s: State, w: WorkerId, id: DeliveryId)
    requires Inv(s) && Waiting(s, id)
    ensures var s2 := Goto(Goto(Expire(s), w, Expired), w, Configured(s.options));
      var s3 := Goto(Sweep(s2), w, Swept(s.options)); Waiting(s3, id) && Untouched(s, s3, id)
  {
    hide Inv;
    RowHasRecord(s, id);
    var s2 := Goto(Goto(Expire(s), w, Expired), w, Configured(s.options));
    assert s2.rows[id] == s.rows[id] && !Stale(s2, id) && s2.records == s.records;
  }

  lemma SameRow(s: State, s1: State, s2: State, id: DeliveryId)
    requires Untouched(s, s1, id) && s2.rows == s1.rows && s2.records == s1.records
    ensures Untouched(s, s2, id)
  {
  }

  lemma RowHasRecord(s: State, id: DeliveryId)
    requires Inv(s) && id in s.rows
    ensures id in s.records
  {
    hide Holders;
    assert Accounted(s, id);
  }

  lemma SameJobs(s: State, s': State, listing: seq<DeliveryId>)
    requires AllWaiting(s, listing) && s'.rows == s.rows && s'.now == s.now
    ensures AllWaiting(s', listing) && JobsFor(s', listing) == JobsFor(s, listing)
  {
    assert forall i | 0 <= i < |listing| :: Waiting(s, listing[i]) ==> Waiting(s', listing[i]);
  }

  /** What a drain has made of a row that was waiting. */
  predicate Drained(s: State, s': State, id: DeliveryId, ok: bool)
    requires id in s.rows
  {
    var matches := s.rows[id].fingerprint == s.options.fingerprint;
    && id in s'.rows && s'.rows[id].status == Fate(matches, ok)
    && RecordOf(s', id).sends == RecordOf(s, id).sends + (if matches then 1 else 0)
  }

  /**
   * A worker that drains without interference sends every waiting row it is given, once, if the row was written for the
   * current destination, and cancels it otherwise; afterwards the row says what the gateway answered.
   */
  lemma DrainDelivers(s: State, w: WorkerId, listing: seq<DeliveryId>, answers: seq<bool>)
    returns (schedule: seq<Event>)
    requires Inv(s) && WorkerOf(s, w).Idle? && s.options.enabled && AllWaiting(s, listing)
    requires |answers| == |listing| <= BATCH && (forall i, j | 0 <= i < j < |listing| :: listing[i] != listing[j])
    ensures ByWorker(schedule, w) && WorkerOf(Run(s, schedule), w).Idle?
    ensures forall i | 0 <= i < |listing| ::
      Waiting(s, listing[i]) && Drained(s, Run(s, schedule), listing[i], answers[i])
  {
    hide Run, Inv;
    var begin, s1 := DrainBegins(s, w, listing);
    var jobs, o := JobsFor(s1, listing), s.options;
    forall i | 0 <= i < |jobs| ensures Claimable(s1, jobs[i].id) {
      assert Waiting(s1, listing[i]);
    }
    var work, s2 := JobsAlone(s1, w, o, jobs, answers);
    var e := Work(w, [], true);
    var s3 := Goto(Clean(s2), w, Idle);
    assert Step(s2, e) == s3;
    schedule := begin + (work + ([e] + []));
    RunJoin(s, begin, work + ([e] + []));
    RunJoin(s1, work, [e] + []);
    RunOne(s2, e, []);
    RunOne(s3, e, []);
    forall i | 0 <= i < |listing| ensures Waiting(s, listing[i]) && Drained(s, s3, listing[i], answers[i]) {
      assert Waiting(s, listing[i]) && Untouched(s, s1, listing[i]) && Waiting(s1, listing[i]);
      assert Delivered(s1, s2, jobs[i], o, answers[i]);
    }
  }

  // ---------------------------------------------------------------------
  // After the sweeper gave up, a confirmed delivery can be sent again
  // ---------------------------------------------------------------------

  const ON: Options := Options(true, "d")
  const JOB: Job := Job(0, "d")

  type Workers = map<WorkerId, Worker>

  function OneRow(now: int, status: Status, attempts: nat, updatedAt: int, record: Record, workers: Workers): State {
    State(now, ON, map[0 := Row(Other(""), "d", status, attempts, 0, updatedAt)], {}, workers, map[0 := record])
  }

  function Past(attempts: nat, sends: nat, retries: nat, swept: nat): Record {
    Record(Other(""), attempts, sends, retries, "d", if sends == 0 then {} else {"d"}, sends, 0, swept)
  }

  lemma QuietOne(now: int, status: Status, attempts: nat, at: int, r: Record, ws: Workers, w: WorkerId,
      l: seq<DeliveryId>)
    requires 0 <= now <= EXPIRY_MS && (status.Sending? ==> at >= now - SWEEP_MS)
    ensures var s, e := OneRow(now, status, attempts, at, r, ws), Work(w, l, true);
      && (WorkerOf(s, w).Idle? ==> Step(s, e) == OneRow(now, status, attempts, at, r, ws[w := Expired]))
      && (WorkerOf(s, w) == Configured(ON) ==> Step(s, e) == OneRow(now, status, attempts, at, r, ws[w := Swept(ON)]))
  {
    hide Listed;
    var s := OneRow(now, status, attempts, at, r, ws);
    assert Expire(s).rows == s.rows;
    assert Sweep(s).rows == s.rows && Sweep(s).records == s.records;
  }

  lemma IdleOne(now: int, status: Status, attempts: nat, at: int, r: Record, ws: Workers, w: WorkerId,
      l: seq<DeliveryId>)
    requires 0 <= now <= EXPIRY_MS
    ensures var s, e := OneRow(now, status, attempts, at, r, ws), Work(w, l, true);
      WorkerOf(s, w).Idle? ==> Step(s, e) == OneRow(now, status, attempts, at, r, ws[w := Expired])
  {
    hide Listed, Sweep;
    var s := OneRow(now, status, attempts, at, r, ws);
    assert Expire(s).rows == s.rows;
  }

  lemma ConfigureOne(
      now: int, status: Status, attempts: nat, at: int, r: Record, ws: Workers, w: WorkerId, l: seq<DeliveryId>)
    ensures var s, e := OneRow(now, status, attempts, at, r, ws), Work(w, l, true);
      WorkerOf(s, w).Expired? ==> Step(s, e) == OneRow(now, status, attempts, at, r, ws[w := Configured(ON)])
  {
    hide Listed, Sweep, Expire;
  }

  lemma GiveUpOne(now: int, attempts: nat, at: int, r: Record, ws: Workers, w: WorkerId, l: seq<DeliveryId>)
    requires at < now - SWEEP_MS && w in ws && ws[w] == Configured(ON)
    ensures Step(OneRow(now, Sending, attempts, at, r, ws), Work(w, l, true)) ==
      OneRow(now, Unknown, attempts, now, r.(swept := r.swept + 1), ws[w := Swept(ON)])
  {
    hide Listed;
    var s := OneRow(now, Sending, attempts, at, r, ws);
    assert Sweep(s).rows == map[0 := s.rows[0].(status := Unknown, updatedAt := now)];
    assert Sweep(s).records == map[0 := r.(swept := r.swept + 1)];
  }

  lemma ListOne(now: int, attempts: nat, at: int, r: Record, ws: Workers, w: WorkerId)
    requires w in ws && ws[w] == Swept(ON)
    ensures Step(OneRow(now, Pending, attempts, at, r, ws), Work(w, [0], true)) ==
      OneRow(now, Pending, attempts, at, r, ws[w := Working(ON, [JOB])])
  {
    hide Sweep, Expire;
    var s := OneRow(now, Pending, attempts, at, r, ws);
    assert [0][1..] == [] && Listed(s, [], BATCH - 1) == [];
    assert Listed(s, [0], BATCH) == [JOB];
  }

  lemma ClaimOne(now: int, attempts: nat, at: int, r: Record, ws: Workers, w: WorkerId, l: seq<DeliveryId>)
    requires w in ws && ws[w] == Working(ON, [JOB])
    ensures Step(OneRow(now, Pending, attempts, at, r, ws), Work(w, l, true)) ==
      OneRow(now, Sending, attempts + 1, now, r.(attempts := r.attempts + 1), ws[w := Claimed(ON, JOB, [])])
  {
    hide Sweep, Expire, Listed;
    var s := OneRow(now, Pending, attempts, at, r, ws);
    assert [JOB][1..] == [];
    assert Claim(s, 0).rows == map[0 := s.rows[0].(status := Sending, attempts := attempts + 1, updatedAt := now)];
    assert Claim(s, 0).records == map[0 := r.(attempts := r.attempts + 1)];
  }

  /** The first worker claims the delivery, and then nothing is heard of it for more than two minutes. */
  lemma FirstClaim() returns (schedule: seq<Event>)
    ensures Run(INIT(0, ON), schedule) ==
      OneRow(SWEEP_MS + 1, Sending, 1, 0, Past(1, 0, 0, 0), map[1 := Claimed(ON, JOB, [])])
  {
    hide Run, Step, OneRow;
    var e, r := Work(1, [0], true), Past(0, 0, 0, 0);
    var enqueue, pass := Enqueue(0, "", true), Pass((SWEEP_MS + 1) as nat);
    var s0 := INIT(0, ON);
    FirstRow();
    IdleOne(0, Pending, 0, 0, r, map[], 1, [0]);
    ConfigureOne(0, Pending, 0, 0, r, map[1 := Expired], 1, [0]);
    QuietOne(0, Pending, 0, 0, r, map[1 := Configured(ON)], 1, [0]);
    ListOne(0, 0, 0, r, map[1 := Swept(ON)], 1);
    ClaimOne(0, 0, 0, r, map[1 := Working(ON, [JOB])], 1, [0]);
    WorkersOne();
    var s1 := OneRow(0, Pending, 0, 0, r, map[]);
    var s2 := OneRow(0, Pending, 0, 0, r, map[1 := Expired]);
    var s3 := OneRow(0, Pending, 0, 0, r, map[1 := Configured(ON)]);
    var s4 := OneRow(0, Pending, 0, 0, r, map[1 := Swept(ON)]);
    var s5 := OneRow(0, Pending, 0, 0, r, map[1 := Working(ON, [JOB])]);
    var s6 := OneRow(0, Sending, 1, 0, Past(1, 0, 0, 0), map[1 := Claimed(ON, JOB, [])]);
    schedule := [enqueue] + ([e] + ([e] + ([e] + ([e] + ([e] + ([pass] + []))))));
    RunOne(s0, enqueue, [e] + ([e] + ([e] + ([e] + ([e] + ([pass] + []))))));
    RunOne(s1, e, [e] + ([e] + ([e] + ([e] + ([pass] + [])))));
    RunOne(s2, e, [e] + ([e] + ([e] + ([pass] + []))));
    RunOne(s3, e, [e] + ([e] + ([pass] + [])));
    RunOne(s4, e, [e] + ([pass] + []));
    RunOne(s5, e, [pass] + []);
    RunOne(s6, pass, []);
    RunOne(Step(s6, pass), pass, []);
  }

  /** Updates of the worker that is there already. */
  lemma WorkersOne()
    ensures var x, y: Worker := Expired, Configured(ON); map[1 := x][1 := y] == map[1 := y]
    ensures var x, y: Worker := Configured(ON), Swept(ON); map[1 := x][1 := y] == map[1 := y]
    ensures var x, y: Worker := Swept(ON), Working(ON, [JOB]); map[1 := x][1 := y] == map[1 := y]
    ensures var x, y: Worker := Working(ON, [JOB]), Claimed(ON, JOB, []); map[1 := x][1 := y] == map[1 := y]
    ensures var none: Workers := map[]; none[1 := Expired] == map[1 := Expired]
    ensures WorkerOf(OneRow(0, Pending, 0, 0, Past(0, 0, 0, 0), map[]), 1).Idle?
    ensures WorkerOf(OneRow(0, Pending, 0, 0, Past(0, 0, 0, 0), map[1 := Expired]), 1).Expired?
    ensures WorkerOf(OneRow(0, Pending, 0, 0, Past(0, 0, 0, 0), map[1 := Configured(ON)]), 1) == Configured(ON)
  {
  }

  lemma FirstRow()
    ensures Step(INIT(0, ON), Enqueue(0, "", true)) == OneRow(0, Pending, 0, 0, Past(0, 0, 0, 0), map[])
    ensures var c := Claimed(ON, JOB, []);
      Step(OneRow(0, Sending, 1, 0, Past(1, 0, 0, 0), map[1 := c]), Pass((SWEEP_MS + 1) as nat)) ==
        OneRow(SWEEP_MS + 1, Sending, 1, 0, Past(1, 0, 0, 0), map[1 := c])
  {
  }

  lemma RetryOne(now: int, attempts: nat, at: int, r: Record, ws: Workers)
    ensures Step(OneRow(now, Unknown, attempts, at, r, ws), Retry(0, ON)) ==
      OneRow(now, Pending, attempts, now, r.(retries := r.retries + 1), ws)
  {
    var s' := Step(OneRow(now, Unknown, attempts, at, r, ws), Retry(0, ON));
    assert s'.records == map[0 := r.(retries := r.retries + 1)];
    assert s'.rows == OneRow(now, Pending, attempts, now, r, ws).rows;
  }

  lemma SendOne(now: int, status: Status, attempts: nat, at: int, r: Record, ws: Workers, w: WorkerId)
    requires w in ws && ws[w] == Claimed(ON, JOB, [])
    ensures Step(OneRow(now, status, attempts, at, r, ws), Work(w, [], true)) ==
      OneRow(now, status, attempts, at,
             r.(sends := r.sends + 1, sentTo := r.sentTo + {"d"}, confirmed := r.confirmed + 1),
             ws[w := Reported(ON, JOB, true, [])])
  {
    hide Sweep, Expire, Listed;
    var s := OneRow(now, status, attempts, at, r, ws);
    var r' := r.(sends := r.sends + 1, sentTo := r.sentTo + {"d"}, confirmed := r.confirmed + 1);
    assert Dispatch(s, JOB, ON, true).records == map[0 := r'];
  }

  lemma ReportOne(now: int, attempts: nat, at: int, r: Record, ws: Workers, w: WorkerId)
    requires w in ws && ws[w] == Reported(ON, JOB, true, [])
    ensures Step(OneRow(now, Sending, attempts, at, r, ws), Work(w, [], true)) ==
      OneRow(now, Sent, attempts, now, r, ws[w := Working(ON, [])])
  {
    hide Sweep, Expire, Listed;
    var s := OneRow(now, Sending, attempts, at, r, ws);
    assert Finish(s, 0, Sent).rows == OneRow(now, Sent, attempts, now, r, ws).rows;
  }

  function Two(a: Worker, b: Worker): Workers {
    map[1 := a, 2 := b]
  }

  lemma TwoUpdates(a: Worker, b: Worker, c: Worker)
    ensures Two(a, b)[2 := c] == Two(a, c) && Two(a, b)[1 := c] == Two(c, b) && map[1 := a][2 := b] == Two(a, b)
    ensures 1 in Two(a, b) && Two(a, b)[1] == a && 2 in Two(a, b) && Two(a, b)[2] == b
  {
  }

  lemma SecondWorker(now: int, status: Status, attempts: nat, at: int, r: Record, a: Worker, b: Worker)
    ensures WorkerOf(OneRow(now, status, attempts, at, r, map[1 := a]), 2).Idle?
    ensures WorkerOf(OneRow(now, status, attempts, at, r, Two(a, b)), 2) == b
  {
  }

  /** The second one gives it up; it is retried by hand and claimed again. */
  lemma SecondClaim() returns (schedule: seq<Event>)
    ensures var t, c := SWEEP_MS + 1, Claimed(ON, JOB, []);
      Run(OneRow(t, Sending, 1, 0, Past(1, 0, 0, 0), map[1 := c]), schedule) ==
        OneRow(t, Sending, 2, t, Past(2, 0, 1, 1), Two(c, c))
  {
    hide Run, Step, OneRow, Two, WorkerOf;
    var e, retry, t, c := Work(2, [0], true), Retry(0, ON), SWEEP_MS + 1, Claimed(ON, JOB, []);
    var r, swept, retried := Past(1, 0, 0, 0), Past(1, 0, 0, 1), Past(1, 0, 1, 1);
    SecondWorker(t, Sending, 1, 0, r, c, Expired);
    TwoUpdates(c, Expired, Configured(ON));
    TwoUpdates(c, Configured(ON), Swept(ON));
    TwoUpdates(c, Swept(ON), Working(ON, [JOB]));
    TwoUpdates(c, Working(ON, [JOB]), c);
    IdleOne(t, Sending, 1, 0, r, map[1 := c], 2, [0]);
    ConfigureOne(t, Sending, 1, 0, r, Two(c, Expired), 2, [0]);
    GiveUpOne(t, 1, 0, r, Two(c, Configured(ON)), 2, [0]);
    RetryOne(t, 1, t, swept, Two(c, Swept(ON)));
    ListOne(t, 1, t, retried, Two(c, Swept(ON)), 2);
    ClaimOne(t, 1, t, retried, Two(c, Working(ON, [JOB])), 2, [0]);
    var s0 := OneRow(t, Sending, 1, 0, r, map[1 := c]);
    var s1 := OneRow(t, Sending, 1, 0, r, Two(c, Expired));
    var s2 := OneRow(t, Sending, 1, 0, r, Two(c, Configured(ON)));
    var s3 := OneRow(t, Unknown, 1, t, swept, Two(c, Swept(ON)));
    var s4 := OneRow(t, Pending, 1, t, retried, Two(c, Swept(ON)));
    var s5 := OneRow(t, Pending, 1, t, retried, Two(c, Working(ON, [JOB])));
    var s6 := OneRow(t, Sending, 2, t, Past(2, 0, 1, 1), Two(c, c));
    schedule := [e] + ([e] + ([e] + ([retry] + ([e] + ([e] + [])))));
    RunOne(s0, e, [e] + ([e] + ([retry] + ([e] + ([e] + [])))));
    RunOne(s1, e, [e] + ([retry] + ([e] + ([e] + []))));
    RunOne(s2, e, [retry] + ([e] + ([e] + [])));
    RunOne(s3, retry, [e] + ([e] + []));
    RunOne(s4, e, [e] + []);
    RunOne(s5, e, []);
    RunOne(s6, e, []);
  }

  lemma RowFacts(now: int, attempts: nat, at: int, r: Record, ws: Workers)
    ensures var s := OneRow(now, Sent, attempts, at, r, ws); 0 in s.rows && s.rows[0].status.Sent?
    ensures forall status :: RecordOf(OneRow(now, status, attempts, at, r, ws), 0) == r
  {
  }

  /** A run in which a row is sent, as the gateway confirmed, and the next step sends it once more. */
  lemma SentAgain()
    ensures exists schedule, e :: var s := Run(INIT(0, ON), schedule);
      && 0 in s.rows && s.rows[0].status.Sent? && RecordOf(s, 0).swept == 1
      && RecordOf(Step(s, e), 0).sends == RecordOf(s, 0).sends + 1
  {
    hide Run, Step, OneRow, Two, RecordOf, INIT;
    var a := FirstClaim();
    var b := SecondClaim();
    var e, f, t, c := Work(1, [], true), Work(2, [], true), SWEEP_MS + 1, Claimed(ON, JOB, []);
    var r, sent := Past(2, 0, 1, 1), Past(2, 1, 1, 1);
    assert r.sentTo + {"d"} == sent.sentTo;
    TwoUpdates(c, c, Reported(ON, JOB, true, []));
    TwoUpdates(Reported(ON, JOB, true, []), c, Working(ON, []));
    TwoUpdates(Working(ON, []), c, Reported(ON, JOB, true, []));
    SendOne(t, Sending, 2, t, r, Two(c, c), 1);
    ReportOne(t, 2, t, sent, Two(Reported(ON, JOB, true, []), c), 1);
    SendOne(t, Sent, 2, t, sent, Two(Working(ON, []), c), 2);
    var s0 := OneRow(t, Sending, 2, t, r, Two(c, c));
    var s1 := OneRow(t, Sending, 2, t, sent, Two(Reported(ON, JOB, true, []), c));
    var s2 := OneRow(t, Sent, 2, t, sent, Two(Working(ON, []), c));
    var again := sent.(sends := 2, sentTo := sent.sentTo + {"d"}, confirmed := 2);
    RowFacts(t, 2, t, sent, Two(Working(ON, []), c));
    RowFacts(t, 2, t, again, Two(Working(ON, []), Reported(ON, JOB, true, [])));
    var schedule := a + (b + ([e] + ([e] + [])));
    RunJoin(INIT(0, ON), a, b + ([e] + ([e] + [])));
    RunJoin(Run(INIT(0, ON), a), b, [e] + ([e] + []));
    RunOne(s0, e, [e] + []);
    RunOne(s1, e, []);
    RunOne(s2, e, []);
    assert Run(INIT(0, ON), schedule) == s2;
    assert RecordOf(Step(s2, f), 0).sends == 2;
  }
}
