/**
 * Connection slots of the relay: `State::reserve` and `State::release` under every interleaving.
 * Each atomic operation and each lock region step of a thread is one step of the system.
 */
module RelaySlots {
  import opened Basics

  datatype IpAddr = V4(value: nat) | V6(value: nat)

  type ThreadId = nat

  /** `maxPerIp` is at least one: the configuration refuses zero. */
  datatype Config = Config(maxConnections: nat, maxPerIp: nat)

  /** Where a thread is. From `Checking` to `Leaving` it holds the lock of the per-IP table. */
  datatype Pc =
    | Idle
    | Loading(ip: IpAddr)             // before the load of `active`
    | Loaded(ip: IpAddr, seen: int)   // before the compare-exchange
    | Claimed(ip: IpAddr)             // a global slot is taken, the table is not updated yet
    | Checking(ip: IpAddr)            // the entry exists, its count is about to be compared
    | Undoing(ip: IpAddr)             // the address is full, the global slot is about to be returned
    | Connected(ip: IpAddr)
    | Releasing(ip: IpAddr)           // the table is updated, the global slot is about to be returned
    | Leaving(connected: bool, ip: IpAddr) // about to unlock

  datatype Lock = Free | Held(holder: ThreadId)

  datatype State = State(active: int, perIp: map<IpAddr, int>, lock: Lock, threads: map<ThreadId, Pc>)

  const INIT: State := State(0, map[], Free, map[])

  function PcOf(s: State, t: ThreadId): Pc {
    if t in s.threads then s.threads[t] else Idle
  }

  function Goto(s: State, t: ThreadId, pc: Pc): State {
    s.(threads := s.threads[t := pc])
  }

  function CountOf(perIp: map<IpAddr, int>, ip: IpAddr): int {
    if ip in perIp then perIp[ip] else 0
  }

  /** `saturating_sub(1)`, and the entry is removed at zero. */
  function Decremented(perIp: map<IpAddr, int>, ip: IpAddr): map<IpAddr, int> {
    if ip !in perIp then perIp
    else
      var count := if perIp[ip] > 0 then perIp[ip] - 1 else 0;
      if count == 0 then perIp - {ip} else perIp[ip := count]
  }

  /** The next step of thread `t`; an idle thread accepts a connection from `ip`. A blocked thread stays where it is. */
  function Step(s: State, t: ThreadId, ip: IpAddr, cfg: Config): State {
    match PcOf(s, t)
    case Idle => Goto(s, t, Loading(ip))
    case Loading(a) =>
      if s.active >= cfg.maxConnections then Goto(s, t, Idle) else Goto(s, t, Loaded(a, s.active))
    case Loaded(a, seen) =>
      if s.active == seen then Goto(s.(active := seen + 1), t, Claimed(a)) else Goto(s, t, Loading(a))
    case Claimed(a) =>
      if s.lock.Held? then s
      else
        var perIp := if a in s.perIp then s.perIp else s.perIp[a := 0];
        Goto(s.(lock := Held(t), perIp := perIp), t, Checking(a))
    case Checking(a) =>
      if CountOf(s.perIp, a) >= cfg.maxPerIp then Goto(s, t, Undoing(a))
      else Goto(s.(perIp := s.perIp[a := CountOf(s.perIp, a) + 1]), t, Leaving(true, a))
    case Undoing(a) => Goto(s.(active := s.active - 1), t, Leaving(false, a))
    case Connected(a) =>
      if s.lock.Held? then s
      else Goto(s.(lock := Held(t), perIp := Decremented(s.perIp, a)), t, Releasing(a))
    case Releasing(a) => Goto(s.(active := s.active - 1), t, Leaving(false, a))
    case Leaving(connected, a) => Goto(s.(lock := Free), t, if connected then Connected(a) else Idle)
  }

  /** A run under a schedule: which thread moves, and who connects if it is idle. */
  function Run(s: State, schedule: seq<(ThreadId, IpAddr)>, cfg: Config): State
    decreases |schedule|
  {
    if schedule == [] then s else Run(Step(s, schedule[0].0, schedule[0].1, cfg), schedule[1..], cfg)
  }

  // ---------------------------------------------------------------------
  // Counting
  // ---------------------------------------------------------------------

  ghost function Sum(m: map<IpAddr, int>): int {
    if m == map[] then 0 else var k :| k in m; m[k] + Sum(m - {k})
  }

  lemma {:induction false} SumSplit(m: map<IpAddr, int>, k: IpAddr)
    requires k in m
    ensures Sum(m) == m[k] + Sum(m - {k})
    decreases |m|
  {
    var j :| j in m && Sum(m) == m[j] + Sum(m - {j});
    if j != k {
      SumSplit(m - {j}, k);
      SumSplit(m - {k}, j);
      assert m - {j} - {k} == m - {k} - {j};
    }
  }

  lemma SumRemove(m: map<IpAddr, int>, k: IpAddr)
    ensures Sum(m - {k}) == Sum(m) - CountOf(m, k)
  {
    if k in m {
      SumSplit(m, k);
    } else {
      assert m - {k} == m;
    }
  }

  lemma SumUpdate(m: map<IpAddr, int>, k: IpAddr, v: int)
    ensures Sum(m[k := v]) == Sum(m) - CountOf(m, k) + v
  {
    SumSplit(m[k := v], k);
    assert m[k := v] - {k} == m - {k};
    SumRemove(m, k);
  }

  function Where(threads: map<ThreadId, Pc>, p: Pc -> bool): set<ThreadId> {
    set t | t in threads && p(threads[t])
  }

  lemma WhereOthers(threads: map<ThreadId, Pc>, t: ThreadId, pc: Pc, p: Pc -> bool)
    ensures Where(threads, p) - {t} == Where(threads[t := pc], p) - {t}
  {
    var threads' := threads[t := pc];
    forall x | x != t ensures x in Where(threads, p) <==> x in Where(threads', p) {
      if x in threads {
        assert threads'[x] == threads[x];
      }
    }
  }

  lemma WhereSelf(threads: map<ThreadId, Pc>, t: ThreadId, pc: Pc, p: Pc -> bool)
    ensures t in Where(threads, p) <==> t in threads && p(threads[t])
    ensures t in Where(threads[t := pc], p) <==> p(pc)
  {
  }

  lemma WhereUpdate(threads: map<ThreadId, Pc>, t: ThreadId, pc: Pc, p: Pc -> bool)
    ensures |Where(threads[t := pc], p)| ==
      |Where(threads, p)| - (if t in threads && p(threads[t]) then 1 else 0) + (if p(pc) then 1 else 0)
  {
    hide Where;
    WhereOthers(threads, t, pc, p);
    WhereSelf(threads, t, pc, p);
    Without(Where(threads, p), t);
    Without(Where(threads[t := pc], p), t);
  }

  // ---------------------------------------------------------------------
  // The invariant
  // ---------------------------------------------------------------------

  /** Holds a global slot that is not in the per-IP table (yet, or any more). */
  predicate Pending(pc: Pc) {
    pc.Claimed? || pc.Checking? || pc.Undoing? || pc.Releasing?
  }

  /** Is counted in the entry of `ip`. */
  predicate CountedAt(pc: Pc, ip: IpAddr) {
    (pc.Connected? && pc.ip == ip) || (pc.Leaving? && pc.connected && pc.ip == ip)
  }

  function CountedIn(ip: IpAddr): Pc -> bool {
    pc => CountedAt(pc, ip)
  }

  predicate InLock(pc: Pc) {
    pc.Checking? || pc.Undoing? || pc.Releasing? || pc.Leaving?
  }

  predicate LockOk(s: State) {
    forall t | t in s.threads :: InLock(s.threads[t]) <==> s.lock == Held(t)
  }

  predicate LockHolderKnown(s: State) {
    s.lock.Held? ==> s.lock.holder in s.threads
  }

  /** A zero entry exists only between its creation and the comparison in the same lock region. */
  predicate NoZeroEntries(s: State) {
    forall ip | ip in s.perIp ::
      s.perIp[ip] > 0 || (s.lock.Held? && PcOf(s, s.lock.holder) == Checking(ip))
  }

  predicate Counts(s: State, ip: IpAddr) {
    CountOf(s.perIp, ip) == |Where(s.threads, CountedIn(ip))|
  }

  ghost predicate Inv(s: State, cfg: Config) {
    && s.active == Sum(s.perIp) + |Where(s.threads, Pending)|
    && 0 <= s.active <= cfg.maxConnections
    && (forall ip :: Counts(s, ip))
    && (forall ip | ip in s.perIp :: 0 <= s.perIp[ip] <= cfg.maxPerIp)
    && LockOk(s) && LockHolderKnown(s) && NoZeroEntries(s)
    && (forall t | t in s.threads && s.threads[t].Loaded? :: s.threads[t].seen < cfg.maxConnections)
  }

  lemma InitInv(cfg: Config)
    ensures Inv(INIT, cfg)
  {
    assert Where(INIT.threads, Pending) == {};
    forall ip ensures Counts(INIT, ip) {
      assert Where(INIT.threads, CountedIn(ip)) == {};
    }
  }

  // ---------------------------------------------------------------------
  // Every step keeps the invariant
  // ---------------------------------------------------------------------

  lemma {:induction false} SumNonNegative(m: map<IpAddr, int>)
    requires forall k | k in m :: m[k] >= 0
    ensures Sum(m) >= 0
    decreases |m|
  {
    if m != map[] {
      var k :| k in m && Sum(m) == m[k] + Sum(m - {k});
      SumNonNegative(m - {k});
    }
  }

  /** How the counts move when one thread moves. */
  lemma Moved(s: State, t: ThreadId, pc: Pc)
    ensures var old_ := PcOf(s, t);
      && |Where(s.threads[t := pc], Pending)| ==
         |Where(s.threads, Pending)| - (if Pending(old_) then 1 else 0) + (if Pending(pc) then 1 else 0)
      && forall ip {:trigger CountedIn(ip)} ::
        |Where(s.threads[t := pc], CountedIn(ip))| ==
        |Where(s.threads, CountedIn(ip))| - (if CountedAt(old_, ip) then 1 else 0) +
          (if CountedAt(pc, ip) then 1 else 0)
  {
    hide Where;
    WhereUpdate(s.threads, t, pc, Pending);
    forall ip {:trigger CountedIn(ip)}
      ensures |Where(s.threads[t := pc], CountedIn(ip))| ==
        |Where(s.threads, CountedIn(ip))| - (if CountedAt(PcOf(s, t), ip) then 1 else 0) +
          (if CountedAt(pc, ip) then 1 else 0)
    {
      WhereUpdate(s.threads, t, pc, CountedIn(ip));
    }
  }

  /** A thread that holds a slot makes `active` positive, and one that is counted makes its entry positive. */
  lemma Positive(s: State, t: ThreadId, cfg: Config)
    requires Inv(s, cfg)
    ensures Pending(PcOf(s, t)) ==> s.active >= 1
    ensures forall ip | CountedAt(PcOf(s, t), ip) :: CountOf(s.perIp, ip) >= 1
  {
    if Pending(PcOf(s, t)) {
      assert t in Where(s.threads, Pending);
      SumNonNegative(s.perIp);
    }
    forall ip | CountedAt(PcOf(s, t), ip) ensures CountOf(s.perIp, ip) >= 1 {
      assert Counts(s, ip);
      assert t in Where(s.threads, CountedIn(ip));
    }
  }

  /** Steps that leave the table and the lock alone. */
  lemma QuietStep(s: State, s': State, t: ThreadId, pc: Pc, cfg: Config)
    requires Inv(s, cfg) && s' == Goto(s.(active := s'.active), t, pc)
    requires var was := PcOf(s, t);
      && InLock(was) == InLock(pc) && !was.Checking? && (forall ip :: CountedAt(was, ip) == CountedAt(pc, ip))
      && s'.active - s.active == (if Pending(pc) then 1 else 0) - (if Pending(was) then 1 else 0)
    requires 0 <= s'.active <= cfg.maxConnections && (pc.Loaded? ==> pc.seen < cfg.maxConnections)
    ensures Inv(s', cfg)
  {
    hide Sum, Where;
    Moved(s, t, pc);
    forall ip ensures Counts(s', ip) {
      assert Counts(s, ip);
    }
    assert LockOk(s') && NoZeroEntries(s');
  }

  lemma LockForReserve(s: State, t: ThreadId, a: IpAddr, cfg: Config)
    requires Inv(s, cfg) && PcOf(s, t) == Claimed(a) && s.lock.Free? && cfg.maxPerIp >= 1
    ensures Inv(Step(s, t, a, cfg), cfg)
  {
    hide Sum, Where;
    Moved(s, t, Checking(a));
    SumUpdate(s.perIp, a, 0);
    var s' := Step(s, t, a, cfg);
    forall ip ensures Counts(s', ip) {
      assert Counts(s, ip);
    }
  }

  lemma Compare(s: State, t: ThreadId, a: IpAddr, cfg: Config)
    requires Inv(s, cfg) && PcOf(s, t) == Checking(a) && cfg.maxPerIp >= 1
    ensures Inv(Step(s, t, a, cfg), cfg)
  {
    hide Sum, Where;
    Moved(s, t, Undoing(a));
    Moved(s, t, Leaving(true, a));
    SumUpdate(s.perIp, a, CountOf(s.perIp, a) + 1);
    var s' := Step(s, t, a, cfg);
    assert s.lock == Held(t);
    assert Counts(s, a);
    forall ip ensures Counts(s', ip) {
      assert Counts(s, ip);
    }
    assert NoZeroEntries(s');
  }

  lemma LockForRelease(s: State, t: ThreadId, a: IpAddr, cfg: Config)
    requires Inv(s, cfg) && PcOf(s, t) == Connected(a) && s.lock.Free?
    ensures Inv(Step(s, t, a, cfg), cfg)
  {
    hide Sum, Where;
    Moved(s, t, Releasing(a));
    Positive(s, t, cfg);
    SumUpdate(s.perIp, a, CountOf(s.perIp, a) - 1);
    SumRemove(s.perIp, a);
    var s' := Step(s, t, a, cfg);
    forall ip ensures Counts(s', ip) {
      assert Counts(s, ip);
    }
  }

  lemma Unlock(s: State, t: ThreadId, a: IpAddr, cfg: Config)
    requires Inv(s, cfg) && PcOf(s, t).Leaving?
    ensures Inv(Step(s, t, a, cfg), cfg)
  {
    hide Sum, Where;
    var pc := if PcOf(s, t).connected then Connected(PcOf(s, t).ip) else Idle;
    Moved(s, t, pc);
    var s' := Step(s, t, a, cfg);
    forall ip ensures Counts(s', ip) {
      assert Counts(s, ip);
    }
    assert s.lock == Held(t);
  }

  lemma StepInv(s: State, t: ThreadId, ip: IpAddr, cfg: Config)
    requires Inv(s, cfg) && cfg.maxPerIp >= 1
    ensures Inv(Step(s, t, ip, cfg), cfg)
  {
    hide Inv, Counts, NoZeroEntries, Where, Sum;
    Bounds(s, t, cfg);
    Positive(s, t, cfg);
    var s' := Step(s, t, ip, cfg);
    match PcOf(s, t)
    case Idle => QuietStep(s, s', t, Loading(ip), cfg);
    case Loading(a) => QuietStep(s, s', t, if s.active >= cfg.maxConnections then Idle else Loaded(a, s.active), cfg);
    case Loaded(a, seen) => QuietStep(s, s', t, if s.active == seen then Claimed(a) else Loading(a), cfg);
    case Claimed(a) => if s.lock.Free? { SameStep(s, t, ip, a, cfg); LockForReserve(s, t, a, cfg); }
    case Checking(a) => SameStep(s, t, ip, a, cfg); Compare(s, t, a, cfg);
    case Undoing(a) => QuietStep(s, s', t, Leaving(false, a), cfg);
    case Connected(a) => if s.lock.Free? { SameStep(s, t, ip, a, cfg); LockForRelease(s, t, a, cfg); }
    case Releasing(a) => QuietStep(s, s', t, Leaving(false, a), cfg);
    case Leaving(_, _) => Unlock(s, t, ip, cfg);
  }

  lemma SameStep(s: State, t: ThreadId, ip: IpAddr, a: IpAddr, cfg: Config)
    requires !PcOf(s, t).Idle?
    ensures Step(s, t, ip, cfg) == Step(s, t, a, cfg)
  {
  }

  lemma Bounds(s: State, t: ThreadId, cfg: Config)
    requires Inv(s, cfg)
    ensures 0 <= s.active <= cfg.maxConnections
    ensures PcOf(s, t).Loaded? ==> PcOf(s, t).seen < cfg.maxConnections
  {
  }

  /** Every run keeps the invariant. */
  lemma {:induction false} RunInv(s: State, schedule: seq<(ThreadId, IpAddr)>, cfg: Config)
    requires Inv(s, cfg) && cfg.maxPerIp >= 1
    ensures Inv(Run(s, schedule, cfg), cfg)
    decreases |schedule|
  {
    hide Inv, Step;
    if schedule != [] {
      StepInv(s, schedule[0].0, schedule[0].1, cfg);
      RunInv(Step(s, schedule[0].0, schedule[0].1, cfg), schedule[1..], cfg);
    }
  }

  /**
   * Under every interleaving of any number of threads: the limits hold, `active` is the sum of the table plus the
   * threads between the two updates, nothing underflows, and an unlocked table has no zero entry.
   */
  lemma SlotsSafe(schedule: seq<(ThreadId, IpAddr)>, cfg: Config)
    requires cfg.maxPerIp >= 1
    ensures var s := Run(INIT, schedule, cfg);
      && 0 <= s.active <= cfg.maxConnections
      && (forall ip | ip in s.perIp :: 0 <= s.perIp[ip] <= cfg.maxPerIp)
      && s.active == Sum(s.perIp) + |Where(s.threads, Pending)|
      && (s.lock.Free? ==> forall ip | ip in s.perIp :: s.perIp[ip] > 0)
      && (forall ip :: CountOf(s.perIp, ip) == |Where(s.threads, CountedIn(ip))|)
  {
    hide Run, Where, Sum;
    InitInv(cfg);
    RunInv(INIT, schedule, cfg);
    var s := Run(INIT, schedule, cfg);
    forall ip ensures CountOf(s.perIp, ip) == |Where(s.threads, CountedIn(ip))| {
      assert Counts(s, ip);
    }
  }

  /** No step decrements a zero counter: `fetch_sub` never wraps and `saturating_sub` never saturates. */
  lemma NoUnderflow(schedule: seq<(ThreadId, IpAddr)>, t: ThreadId, cfg: Config)
    requires cfg.maxPerIp >= 1
    ensures var s := Run(INIT, schedule, cfg);
      && (PcOf(s, t).Undoing? || PcOf(s, t).Releasing? ==> s.active >= 1)
      && (PcOf(s, t).Connected? ==> PcOf(s, t).ip in s.perIp && s.perIp[PcOf(s, t).ip] >= 1)
  {
    hide Run, Inv, Where, Sum;
    InitInv(cfg);
    RunInv(INIT, schedule, cfg);
    var s := Run(INIT, schedule, cfg);
    Positive(s, t, cfg);
    if PcOf(s, t).Connected? {
      assert CountedAt(PcOf(s, t), PcOf(s, t).ip);
    }
  }

  /** When every thread has finished, every slot has been given back. */
  lemma AllSlotsReturned(schedule: seq<(ThreadId, IpAddr)>, cfg: Config)
    requires cfg.maxPerIp >= 1
    requires forall t | t in Run(INIT, schedule, cfg).threads :: Run(INIT, schedule, cfg).threads[t].Idle?
    ensures Run(INIT, schedule, cfg).active == 0 && Run(INIT, schedule, cfg).perIp == map[]
  {
    hide Run, Sum;
    SlotsSafe(schedule, cfg);
    InitInv(cfg);
    RunInv(INIT, schedule, cfg);
    var s := Run(INIT, schedule, cfg);
    assert Where(s.threads, Pending) == {};
    assert s.lock.Held? ==> InLock(s.threads[s.lock.holder]);
    forall ip ensures ip !in s.perIp {
      assert Where(s.threads, CountedIn(ip)) == {};
    }
    assert s.perIp == map[];
    SumEmpty();
  }

  lemma SumEmpty()
    ensures Sum(map[]) == 0
  {
  }

  // ---------------------------------------------------------------------
  // A free slot is given
  // ---------------------------------------------------------------------

  /** Thread `t` moves alone, `n` times. */
  function Alone(s: State, t: ThreadId, ip: IpAddr, n: nat, cfg: Config): State {
    Run(s, Fill(n, (t, ip)), cfg)
  }

  lemma AloneStep(s: State, t: ThreadId, ip: IpAddr, n: nat, cfg: Config)
    ensures Alone(s, t, ip, 0, cfg) == s
    ensures n > 0 ==> Alone(s, t, ip, n, cfg) == Alone(Step(s, t, ip, cfg), t, ip, n - 1, cfg)
  {
    if n > 0 {
      assert Fill(n, (t, ip))[1..] == Fill(n - 1, (t, ip));
    }
  }

  predicate AtRest(pc: Pc) {
    pc.Idle? || pc.Connected?
  }

  /** After `n` steps the thread has finished what it began, and not before. */
  predicate Settles(s: State, t: ThreadId, ip: IpAddr, n: nat, cfg: Config) {
    n >= 1 && AtRest(PcOf(Alone(s, t, ip, n, cfg), t)) &&
    forall m | 1 <= m < n :: !AtRest(PcOf(Alone(s, t, ip, m, cfg), t))
  }

  predicate HasRoom(s: State, ip: IpAddr, cfg: Config) {
    s.active < cfg.maxConnections && |Where(s.threads, CountedIn(ip))| < cfg.maxPerIp
  }

  /** What a connection adds. */
  function WithConnection(s: State, t: ThreadId, ip: IpAddr): State {
    State(s.active + 1, s.perIp[ip := CountOf(s.perIp, ip) + 1], s.lock, s.threads[t := Connected(ip)])
  }

  lemma Chain(s: State, t: ThreadId, ip: IpAddr, n: nat, cfg: Config, next: State)
    requires Step(s, t, ip, cfg) == next
    ensures Alone(s, t, ip, n + 1, cfg) == Alone(next, t, ip, n, cfg)
  {
    hide Alone, Step;
    AloneStep(s, t, ip, n + 1, cfg);
  }

  /** The three steps of a thread that finds the global limit free, until it has its global slot. */
  lemma ClaimAlone(s: State, t: ThreadId, ip: IpAddr, n: nat, cfg: Config)
    requires PcOf(s, t).Idle? && s.active < cfg.maxConnections
    ensures Alone(s, t, ip, 1, cfg) == Goto(s, t, Loading(ip))
    ensures Alone(s, t, ip, 2, cfg) == Goto(s, t, Loaded(ip, s.active))
    ensures Alone(s, t, ip, n + 3, cfg) == Alone(Goto(s.(active := s.active + 1), t, Claimed(ip)), t, ip, n, cfg)
  {
    hide Alone;
    var s1, s2 := Goto(s, t, Loading(ip)), Goto(s, t, Loaded(ip, s.active));
    var s3 := Goto(s.(active := s.active + 1), t, Claimed(ip));
    assert s1.threads[t := Loaded(ip, s.active)] == s2.threads && s2.threads[t := Claimed(ip)] == s3.threads;
    AloneStep(s1, t, ip, 0, cfg);
    AloneStep(s2, t, ip, 0, cfg);
    Chain(s, t, ip, 0, cfg, s1);
    Chain(s, t, ip, 1, cfg, s1);
    Chain(s1, t, ip, 0, cfg, s2);
    Chain(s, t, ip, n + 2, cfg, s1);
    Chain(s1, t, ip, n + 1, cfg, s2);
    Chain(s2, t, ip, n, cfg, s3);
  }

  /** From the global slot on, when the address has room. */
  lemma EnterAlone(s: State, t: ThreadId, ip: IpAddr, cfg: Config)
    requires PcOf(s, t) == Claimed(ip) && s.lock.Free? && CountOf(s.perIp, ip) < cfg.maxPerIp
    ensures PcOf(Alone(s, t, ip, 1, cfg), t).Checking? && PcOf(Alone(s, t, ip, 2, cfg), t).Leaving?
    ensures PcOf(Alone(s, t, ip, 0, cfg), t).Claimed?
    ensures Alone(s, t, ip, 3, cfg) ==
      State(s.active, s.perIp[ip := CountOf(s.perIp, ip) + 1], Free, s.threads[t := Connected(ip)])
  {
    hide Alone;
    var perIp := if ip in s.perIp then s.perIp else s.perIp[ip := 0];
    var counted := s.perIp[ip := CountOf(s.perIp, ip) + 1];
    var s1 := State(s.active, perIp, Held(t), s.threads[t := Checking(ip)]);
    var s2 := State(s.active, counted, Held(t), s.threads[t := Leaving(true, ip)]);
    var s3 := State(s.active, counted, Free, s.threads[t := Connected(ip)]);
    assert perIp[ip := CountOf(perIp, ip) + 1] == counted;
    assert s1.threads[t := Leaving(true, ip)] == s2.threads && s2.threads[t := Connected(ip)] == s3.threads;
    AloneStep(s, t, ip, 0, cfg);
    AloneStep(s1, t, ip, 0, cfg);
    AloneStep(s2, t, ip, 0, cfg);
    AloneStep(s3, t, ip, 0, cfg);
    Chain(s, t, ip, 0, cfg, s1);
    Chain(s, t, ip, 1, cfg, s1);
    Chain(s, t, ip, 2, cfg, s1);
    Chain(s1, t, ip, 0, cfg, s2);
    Chain(s1, t, ip, 1, cfg, s2);
    Chain(s2, t, ip, 0, cfg, s3);
  }

  /** From the global slot on, when the address has none left: everything is as it was. */
  lemma LeaveAlone(s: State, t: ThreadId, ip: IpAddr, cfg: Config)
    requires PcOf(s, t) == Claimed(ip) && s.lock.Free? && CountOf(s.perIp, ip) >= cfg.maxPerIp && ip in s.perIp
    ensures PcOf(Alone(s, t, ip, 1, cfg), t).Checking? && PcOf(Alone(s, t, ip, 2, cfg), t).Undoing?
    ensures PcOf(Alone(s, t, ip, 0, cfg), t).Claimed? && PcOf(Alone(s, t, ip, 3, cfg), t).Leaving?
    ensures Alone(s, t, ip, 4, cfg) == State(s.active - 1, s.perIp, Free, s.threads[t := Idle])
  {
    hide Alone;
    var s1 := State(s.active, s.perIp, Held(t), s.threads[t := Checking(ip)]);
    var s2 := State(s.active, s.perIp, Held(t), s.threads[t := Undoing(ip)]);
    var s3 := State(s.active - 1, s.perIp, Held(t), s.threads[t := Leaving(false, ip)]);
    var s4 := State(s.active - 1, s.perIp, Free, s.threads[t := Idle]);
    assert s1.threads[t := Undoing(ip)] == s2.threads && s2.threads[t := Leaving(false, ip)] == s3.threads;
    assert s3.threads[t := Idle] == s4.threads;
    AloneStep(s, t, ip, 0, cfg);
    AloneStep(s1, t, ip, 0, cfg);
    AloneStep(s2, t, ip, 0, cfg);
    AloneStep(s3, t, ip, 0, cfg);
    AloneStep(s4, t, ip, 0, cfg);
    Chain(s, t, ip, 0, cfg, s1);
    Chain(s, t, ip, 1, cfg, s1);
    Chain(s, t, ip, 2, cfg, s1);
    Chain(s, t, ip, 3, cfg, s1);
    Chain(s1, t, ip, 0, cfg, s2);
    Chain(s1, t, ip, 1, cfg, s2);
    Chain(s1, t, ip, 2, cfg, s2);
    Chain(s2, t, ip, 0, cfg, s3);
    Chain(s2, t, ip, 1, cfg, s3);
    Chain(s3, t, ip, 0, cfg, s4);
  }

  lemma RefusedAlone(s: State, t: ThreadId, ip: IpAddr, cfg: Config)
    requires PcOf(s, t).Idle? && s.active >= cfg.maxConnections
    ensures Settles(s, t, ip, 2, cfg) && Alone(s, t, ip, 2, cfg) == Goto(s, t, Idle)
  {
    hide Alone;
    var s1, s2 := Goto(s, t, Loading(ip)), Goto(s, t, Idle);
    assert s1.threads[t := Idle] == s2.threads;
    AloneStep(s1, t, ip, 0, cfg);
    AloneStep(s2, t, ip, 0, cfg);
    Chain(s, t, ip, 0, cfg, s1);
    Chain(s, t, ip, 1, cfg, s1);
    Chain(s1, t, ip, 0, cfg, s2);
  }

  lemma ReserveFrom(s: State, t: ThreadId, ip: IpAddr, cfg: Config) returns (n: nat)
    requires PcOf(s, t).Idle? && s.lock.Free? && (CountOf(s.perIp, ip) >= cfg.maxPerIp ==> ip in s.perIp)
    ensures Settles(s, t, ip, n, cfg)
    ensures Alone(s, t, ip, n, cfg) ==
      if s.active < cfg.maxConnections && CountOf(s.perIp, ip) < cfg.maxPerIp then WithConnection(s, t, ip)
      else Goto(s, t, Idle)
  {
    hide Alone, Step;
    if s.active >= cfg.maxConnections {
      RefusedAlone(s, t, ip, cfg);
      return 2;
    }
    var s3 := Goto(s.(active := s.active + 1), t, Claimed(ip));
    ClaimAlone(s, t, ip, 0, cfg);
    ClaimAlone(s, t, ip, 1, cfg);
    ClaimAlone(s, t, ip, 2, cfg);
    ClaimAlone(s, t, ip, 3, cfg);
    if CountOf(s.perIp, ip) < cfg.maxPerIp {
      EnterAlone(s3, t, ip, cfg);
      n := 6;
      assert s3.threads[t := Connected(ip)] == s.threads[t := Connected(ip)];
    } else {
      LeaveAlone(s3, t, ip, cfg);
      ClaimAlone(s, t, ip, 4, cfg);
      n := 7;
      assert s3.threads[t := Idle] == s.threads[t := Idle];
    }
    forall m | 1 <= m < n ensures !AtRest(PcOf(Alone(s, t, ip, m, cfg), t)) {
      if m >= 3 {
        ClaimAlone(s, t, ip, m - 3, cfg);
      }
    }
  }

  /**
   * From every reachable state with the lock free, an idle thread that runs alone ends up connected exactly if a global
   * slot is free and the address has fewer connections than it may have. Otherwise it is idle again and nothing
   * changed.
   */
  lemma ReserveExact(schedule: seq<(ThreadId, IpAddr)>, t: ThreadId, ip: IpAddr, cfg: Config)
    requires cfg.maxPerIp >= 1
    requires var s := Run(INIT, schedule, cfg); s.lock.Free? && PcOf(s, t).Idle?
    ensures var s := Run(INIT, schedule, cfg);
      exists n :: Settles(s, t, ip, n, cfg) &&
        Alone(s, t, ip, n, cfg) == if HasRoom(s, ip, cfg) then WithConnection(s, t, ip) else Goto(s, t, Idle)
  {
    hide Run, Where, Sum, Settles, Alone;
    SlotsSafe(schedule, cfg);
    var s := Run(INIT, schedule, cfg);
    assert CountOf(s.perIp, ip) == |Where(s.threads, CountedIn(ip))|;
    var n := ReserveFrom(s, t, ip, cfg);
  }

  // ---------------------------------------------------------------------
  // Both limits are reached
  // ---------------------------------------------------------------------

  lemma {:induction false} RunJoin(s: State, a: seq<(ThreadId, IpAddr)>, b: seq<(ThreadId, IpAddr)>, cfg: Config)
    ensures Run(s, a + b, cfg) == Run(Run(s, a, cfg), b, cfg)
    decreases |a|
  {
    hide Step;
    if a == [] {
      assert a + b == b;
    } else {
      assert (a + b)[1..] == a[1..] + b;
      RunJoin(Step(s, a[0].0, a[0].1, cfg), a[1..], b, cfg);
    }
  }

  /** Threads `0` to `n - 1` connect one after the other, each from its own address or all from one. */
  function Source(i: nat, apart: bool): IpAddr {
    V4(if apart then i else 0)
  }

  /** The state after `n` connections. */
  function Crowd(n: nat, apart: bool): State {
    if n == 0 then INIT else WithConnection(Crowd(n - 1, apart), n - 1, Source(n - 1, apart))
  }

  lemma {:induction false} CrowdFacts(n: nat, apart: bool)
    ensures var s := Crowd(n, apart);
      && s.active == n && s.lock.Free? && (forall t | t in s.threads :: t < n)
      && (forall i | i >= n && apart :: Source(i, apart) !in s.perIp)
      && (!apart ==> CountOf(s.perIp, V4(0)) == n)
      && (apart ==> forall i | 0 <= i < n :: CountOf(s.perIp, Source(i, apart)) == 1)
  {
    if n > 0 {
      CrowdFacts(n - 1, apart);
    }
  }

  lemma {:induction false} CrowdReached(n: nat, apart: bool, cfg: Config) returns (schedule: seq<(ThreadId, IpAddr)>)
    requires cfg.maxPerIp >= 1 && n <= cfg.maxConnections && (apart || n <= cfg.maxPerIp)
    ensures Run(INIT, schedule, cfg) == Crowd(n, apart)
  {
    hide Step, WithConnection;
    schedule := [];
    if n > 0 {
      var before := CrowdReached(n - 1, apart, cfg);
      CrowdFacts(n - 1, apart);
      var s, ip := Crowd(n - 1, apart), Source(n - 1, apart);
      var k := ReserveFrom(s, n - 1, ip, cfg);
      schedule := before + Fill(k, ((n - 1) as ThreadId, ip));
      RunJoin(INIT, before, Fill(k, ((n - 1) as ThreadId, ip)), cfg);
    }
  }

  /** Some run uses all global slots, and some run all slots of an address, as far as the global limit permits. */
  lemma LimitsReached(cfg: Config)
    requires cfg.maxPerIp >= 1
    ensures exists schedule :: Run(INIT, schedule, cfg).active == cfg.maxConnections
    ensures cfg.maxPerIp <= cfg.maxConnections ==>
      exists schedule, ip :: CountOf(Run(INIT, schedule, cfg).perIp, ip) == cfg.maxPerIp
  {
    hide Run, Crowd;
    var all := CrowdReached(cfg.maxConnections, true, cfg);
    CrowdFacts(cfg.maxConnections, true);
    assert Run(INIT, all, cfg).active == cfg.maxConnections;
    if cfg.maxPerIp <= cfg.maxConnections {
      var one := CrowdReached(cfg.maxPerIp, false, cfg);
      CrowdFacts(cfg.maxPerIp, false);
      assert CountOf(Run(INIT, one, cfg).perIp, V4(0)) == cfg.maxPerIp;
    }
  }

  /** With a per-IP limit of zero, which the configuration refuses, a rejected address leaves a zero entry behind. */
  lemma ZeroLimitLeavesZeroEntry(ip: IpAddr)
    ensures exists schedule: seq<(ThreadId, IpAddr)> ::
      var s := Run(INIT, schedule, Config(1, 0)); s.lock.Free? && ip in s.perIp && s.perIp[ip] == 0
  {
    var cfg := Config(1, 0);
    SevenSteps(ip);
    var s := Run(INIT, Fill(7, (0 as ThreadId, ip)), cfg);
    assert s.lock.Free? && ip in s.perIp && s.perIp[ip] == 0;
  }

  /** One thread alone: load, claim, lock, find zero to be too many, give the slot back, unlock. */
  lemma SevenSteps(ip: IpAddr)
    ensures var s := Alone(INIT, 0, ip, 7, Config(1, 0)); s.lock.Free? && ip in s.perIp && s.perIp[ip] == 0
  {
    hide Alone;
    var cfg := Config(1, 0);
    var s2 := Step(Step(INIT, 0, ip, cfg), 0, ip, cfg);
    AloneStep(INIT, 0, ip, 7, cfg);
    AloneStep(Step(INIT, 0, ip, cfg), 0, ip, 6, cfg);
    assert s2 == State(0, map[], Free, map[0 := Loaded(ip, 0)]);
    var s4 := Step(Step(s2, 0, ip, cfg), 0, ip, cfg);
    AloneStep(s2, 0, ip, 5, cfg);
    AloneStep(Step(s2, 0, ip, cfg), 0, ip, 4, cfg);
    assert s4 == State(1, map[ip := 0], Held(0), map[0 := Checking(ip)]);
    var s6 := Step(Step(s4, 0, ip, cfg), 0, ip, cfg);
    AloneStep(s4, 0, ip, 3, cfg);
    AloneStep(Step(s4, 0, ip, cfg), 0, ip, 2, cfg);
    assert s6 == State(0, map[ip := 0], Held(0), map[0 := Leaving(false, ip)]);
    AloneStep(s6, 0, ip, 1, cfg);
    AloneStep(Step(s6, 0, ip, cfg), 0, ip, 0, cfg);
  }
}
