/** Login lockout of one user: a counter of failed checks and the time of the last one. Times are in milliseconds. */
module Lockout {

  import opened Basics

  /** `Math.min(max, Math.max(min, parseInt(…) || fallback))`; None is what does not parse. */
  function Clamped(parsed: Option<int>, fallback: int, min: int, max: int): (r: int)
    requires min <= fallback <= max
    ensures min <= r <= max
  {
    var n := if parsed.None? || parsed.value == 0 then fallback else parsed.value;
    if n < min then min else if n > max then max else n
  }

  datatype Settings = Settings(attempts: int, cooldown: int)

  function SettingsFrom(attempts: Option<int>, seconds: Option<int>): (s: Settings)
    ensures 1 <= s.attempts <= 20 && 60_000 <= s.cooldown <= 86_400_000
  {
    Settings(Clamped(attempts, 5, 1, 20), Clamped(seconds, 900, 60, 86400) * 1000)
  }

  datatype User = User(failures: nat, last: Option<int>)

  const FRESH: User := User(0, None)

  /** How the second factor turns out, once the password was not refused. */
  datatype SecondFactor = NotRequired | Stopped | Accepted | Rejected

  /**
   * A sign-in: when the cooldown is checked, when a failure would be recorded, whether a password is compared and
   * matches. Without a password or a stored hash there is no comparison.
   */
  datatype Event =
    | SignIn(checkedAt: int, failedAt: int, compared: bool, matches: bool, second: SecondFactor)
    | SessionCreated

  datatype Answer = TooMany | WrongPassword | WrongCode | Stop | Pass

  predicate Locked(u: User, at: int, s: Settings) {
    u.last.Some? && u.failures >= s.attempts && at - u.last.value < s.cooldown
  }

  /** An elapsed lockout starts a fresh window. */
  function Refreshed(u: User, s: Settings): User {
    if u.last.Some? && u.failures >= s.attempts then FRESH else u
  }

  predicate WrongPasswordGiven(e: Event)
    requires e.SignIn?
  {
    e.compared && !e.matches
  }

  /** A sign-in that fails its checks once it gets to them. */
  predicate FailsChecks(e: Event) {
    e.SignIn? && (WrongPasswordGiven(e) || e.second.Rejected?)
  }

  /** A failed password or code check is recorded. */
  predicate Fails(u: User, e: Event, s: Settings) {
    FailsChecks(e) && !Locked(u, e.checkedAt, s)
  }

  function AnswerOf(u: User, e: Event, s: Settings): Answer
    requires e.SignIn?
  {
    if Locked(u, e.checkedAt, s) then TooMany
    else if WrongPasswordGiven(e) then WrongPassword
    else
      match e.second
      case NotRequired => Pass
      case Stopped => Stop
      case Accepted => Pass
      case Rejected => WrongCode
  }

  function After(u: User, e: Event, s: Settings): User {
    match e
    case SessionCreated => FRESH
    case SignIn(checkedAt, failedAt, _, _, _) =>
      if Locked(u, checkedAt, s) then u
      else
        var v := Refreshed(u, s);
        if Fails(u, e, s) then User(v.failures + 1, Some(failedAt)) else v
  }

  class UserRow {
    var failures: nat
    var last: Option<int>

    ghost function View(): User
      reads this
    {
      User(failures, last)
    }

    constructor ()
      ensures View() == FRESH
    {
      failures, last := 0, None;
    }

    /** `runBeforeAuthHook`, as far as it touches the counter. */
    method BeforeSignIn(e: Event, s: Settings) returns (answer: Answer)
      requires e.SignIn?
      modifies this
      ensures View() == After(old(View()), e, s)
      ensures answer == AnswerOf(old(View()), e, s)
      ensures answer.WrongPassword? || answer.WrongCode? <==> Fails(old(View()), e, s)
    {
      if last.Some? && failures >= s.attempts {
        if e.checkedAt - last.value < s.cooldown {
          return TooMany;
        }
        failures, last := 0, None;
      }
      if e.compared && !e.matches {
        failures, last := failures + 1, Some(e.failedAt);
        return WrongPassword;
      }
      match e.second {
        case NotRequired => answer := Pass;
        case Stopped => answer := Stop;
        case Accepted => answer := Pass;
        case Rejected =>
          failures, last := failures + 1, Some(e.failedAt);
          answer := WrongCode;
      }
    }

    /** The counter reset of `onSessionCreated`. */
    method OnSessionCreated(s: Settings)
      modifies this
      ensures View() == After(old(View()), SessionCreated, s)
    {
      failures, last := 0, None;
    }
  }

  // ---------------------------------------------------------------------
  // Runs
  // ---------------------------------------------------------------------

  function Run(u: User, es: seq<Event>, s: Settings): User
    decreases |es|
  {
    if es == [] then u else Run(After(u, es[0], s), es[1..], s)
  }

  /** The times of the failures that a run records. */
  function Recorded(u: User, es: seq<Event>, s: Settings): seq<int>
    decreases |es|
  {
    if es == [] then []
    else (if Fails(u, es[0], s) then [es[0].failedAt] else []) + Recorded(After(u, es[0], s), es[1..], s)
  }

  /** Requests one after the other on a monotone clock, from `now` on. */
  predicate Serialized(es: seq<Event>, now: int)
    decreases |es|
  {
    es == [] ||
    match es[0]
    case SessionCreated => Serialized(es[1..], now)
    case SignIn(checkedAt, failedAt, _, _, _) => now <= checkedAt <= failedAt && Serialized(es[1..], failedAt)
  }

  predicate Ok(u: User, now: int, s: Settings) {
    u.failures <= s.attempts && (u.failures > 0 ==> u.last.Some?) && (u.last.Some? ==> u.last.value <= now)
  }

  function TimeAfter(e: Event, now: int): int {
    if e.SignIn? then e.failedAt else now
  }

  lemma AfterOk(u: User, e: Event, now: int, s: Settings)
    requires s.attempts >= 1 && Ok(u, now, s) && (e.SignIn? ==> now <= e.checkedAt <= e.failedAt)
    ensures Ok(After(u, e, s), TimeAfter(e, now), s)
  {
  }

  /** The stored counter never exceeds the limit. */
  lemma {:induction false} CounterBounded(u: User, es: seq<Event>, now: int, s: Settings)
    requires s.attempts >= 1 && Ok(u, now, s) && Serialized(es, now)
    ensures Run(u, es, s).failures <= s.attempts
    decreases |es|
  {
    hide After;
    if es != [] {
      AfterOk(u, es[0], now, s);
      CounterBounded(After(u, es[0], s), es[1..], TimeAfter(es[0], now), s);
    }
  }

  lemma {:induction false} RecordedLater(u: User, es: seq<Event>, now: int, s: Settings)
    requires Serialized(es, now)
    ensures forall f | f in Recorded(u, es, s) :: now <= f
    decreases |es|
  {
    hide After, Fails;
    if es != [] {
      RecordedLater(After(u, es[0], s), es[1..], TimeAfter(es[0], now), s);
      FailsIsSignIn(u, es[0], s);
    }
  }

  lemma FailsIsSignIn(u: User, e: Event, s: Settings)
    ensures Fails(u, e, s) ==> e.SignIn?
  {
  }

  predicate Within(times: seq<int>, from: int, to: int) {
    forall f | f in times :: from <= f <= to
  }

  lemma WithinRest(u: User, es: seq<Event>, from: int, to: int, s: Settings)
    requires es != [] && Within(Recorded(u, es, s), from, to)
    ensures Within(Recorded(After(u, es[0], s), es[1..], s), from, to)
    ensures Fails(u, es[0], s) ==> from <= es[0].failedAt <= to
  {
    var all, rest := Recorded(u, es, s), Recorded(After(u, es[0], s), es[1..], s);
    assert forall f | f in rest :: f in all;
    if Fails(u, es[0], s) {
      assert all[0] in all;
    }
  }

  lemma SomeTime(times: seq<int>) returns (f: int)
    requires times != []
    ensures f in times
  {
    f := times[0];
  }

  lemma NothingBeyond(times: seq<int>, from: int, to: int, start: int)
    requires Within(times, from, to) && (forall f | f in times :: start <= f) && to < start
    ensures times == []
  {
    if times != [] {
      var _ := SomeTime(times);
    }
  }

  predicate NoSession(es: seq<Event>) {
    forall e | e in es :: e.SignIn?
  }

  /** Once a failure lies in the span, what the counter shows and what is still recorded fit in the limit together. */
  lemma {:induction false} RestOfSpan(u: User, es: seq<Event>, now: int, from: int, to: int, s: Settings)
    requires s.attempts >= 1 && Ok(u, now, s) && Serialized(es, now) && NoSession(es)
    requires u.last.Some? && from <= u.last.value && to - from < s.cooldown && Within(Recorded(u, es, s), from, to)
    ensures u.failures + |Recorded(u, es, s)| <= s.attempts
    decreases |es|
  {
    if es != [] {
      var e := es[0];
      assert e in es;
      var u' := After(u, e, s);
      AfterOk(u, e, now, s);
      var rest := Recorded(u', es[1..], s);
      WithinRest(u, es, from, to, s);
      if u.failures >= s.attempts && !Locked(u, e.checkedAt, s) {
        // The lockout has elapsed, so every later failure lies beyond the span.
        RecordedLater(u', es[1..], e.failedAt, s);
        assert e.checkedAt - u.last.value >= s.cooldown && !Fails(u, e, s);
        NothingBeyond(rest, from, to, e.failedAt);
        assert |Recorded(u, es, s)| == |rest|;
      } else {
        RestOfSpan(u', es[1..], e.failedAt, from, to, s);
      }
    }
  }

  /**
   * Any span shorter than the lockout period without a new session records at most the permitted number of failures.
   */
  lemma {:induction false} SpanBounded(u: User, es: seq<Event>, now: int, from: int, to: int, s: Settings)
    requires s.attempts >= 1 && Ok(u, now, s) && Serialized(es, now) && NoSession(es)
    requires to - from < s.cooldown && Within(Recorded(u, es, s), from, to)
    ensures |Recorded(u, es, s)| <= s.attempts
    decreases |es|
  {
    if es != [] {
      var e := es[0];
      assert e in es;
      var u' := After(u, e, s);
      AfterOk(u, e, now, s);
      WithinRest(u, es, from, to, s);
      if Fails(u, e, s) {
        RestOfSpan(u', es[1..], e.failedAt, from, to, s);
      } else {
        SpanBounded(u', es[1..], e.failedAt, from, to, s);
      }
    }
  }

  /** The same for any part of a run: what comes before the span does not matter. */
  lemma SpanOfRunBounded(past: seq<Event>, span: seq<Event>, from: int, to: int, now: int, s: Settings)
    requires s.attempts >= 1 && Serialized(past, now) && Serialized(span, Clock(past, now)) && NoSession(span)
    requires to - from < s.cooldown && Within(Recorded(Run(FRESH, past, s), span, s), from, to)
    ensures |Recorded(Run(FRESH, past, s), span, s)| <= s.attempts
  {
    hide After, Recorded;
    RunOk(FRESH, past, now, s);
    SpanBounded(Run(FRESH, past, s), span, Clock(past, now), from, to, s);
  }

  function Clock(es: seq<Event>, now: int): int
    decreases |es|
  {
    if es == [] then now else Clock(es[1..], TimeAfter(es[0], now))
  }

  lemma {:induction false} RunOk(u: User, es: seq<Event>, now: int, s: Settings)
    requires s.attempts >= 1 && Ok(u, now, s) && Serialized(es, now)
    ensures Ok(Run(u, es, s), Clock(es, now), s)
    decreases |es|
  {
    hide After;
    if es != [] {
      AfterOk(u, es[0], now, s);
      RunOk(After(u, es[0], s), es[1..], TimeAfter(es[0], now), s);
    }
  }

  // ---------------------------------------------------------------------
  // Sharpness
  // ---------------------------------------------------------------------

  function WrongPasswords(n: nat, at: int): (es: seq<Event>)
    ensures |es| == n && NoSession(es)
  {
    if n == 0 then [] else [SignIn(at, at, true, false, NotRequired)] + WrongPasswords(n - 1, at)
  }

  /** The limit is reached: that many wrong passwords in a row are all recorded. */
  lemma {:induction false} LimitReached(u: User, n: nat, at: int, s: Settings)
    requires u.failures + n <= s.attempts
    ensures Serialized(WrongPasswords(n, at), at)
    ensures |Recorded(u, WrongPasswords(n, at), s)| == n && Run(u, WrongPasswords(n, at), s).failures == u.failures + n
    decreases n
  {
    if n > 0 {
      var e := SignIn(at, at, true, false, NotRequired);
      assert WrongPasswords(n, at)[1..] == WrongPasswords(n - 1, at);
      LimitReached(After(u, e, s), n - 1, at, s);
    }
  }

  // ---------------------------------------------------------------------
  // When a lockout begins and ends
  // ---------------------------------------------------------------------

  /** How many of these sign-ins fail their checks. */
  function FailedChecks(es: seq<Event>): nat {
    if es == [] then 0 else (if FailsChecks(es[0]) then 1 else 0) + FailedChecks(es[1..])
  }

  lemma {:induction false} RunJoin(u: User, a: seq<Event>, b: seq<Event>, s: Settings)
    ensures Run(u, a + b, s) == Run(Run(u, a, s), b, s)
    decreases |a|
  {
    hide After;
    if a == [] {
      assert a + b == b;
    } else {
      assert (a + b)[1..] == a[1..] + b;
      RunJoin(After(u, a[0], s), a[1..], b, s);
    }
  }

  /** Below the limit every failure is counted, whatever the times, and nobody is refused. */
  lemma {:induction false} BelowLimit(u: User, es: seq<Event>, e: Event, s: Settings)
    requires NoSession(es) && u.failures + FailedChecks(es) < s.attempts && e.SignIn?
    ensures Run(u, es, s).failures == u.failures + FailedChecks(es)
    ensures !AnswerOf(Run(u, es, s), e, s).TooMany?
    decreases |es|
  {
    if es != [] {
      assert es[0] in es && forall x | x in es[1..] :: x in es;
      BelowLimit(After(u, es[0], s), es[1..], e, s);
    }
  }

  /** While a lockout lasts, sign-ins are refused and change nothing. */
  lemma {:induction false} LockedOut(u: User, es: seq<Event>, t: int, s: Settings)
    requires u.failures == s.attempts && u.last == Some(t)
    requires forall x | x in es :: x.SignIn? && x.checkedAt < t + s.cooldown
    ensures Run(u, es, s) == u
    ensures forall x | x in es :: AnswerOf(u, x, s).TooMany?
    decreases |es|
  {
    if es != [] {
      assert es[0] in es && forall x | x in es[1..] :: x in es;
      LockedOut(u, es[1..], t, s);
    }
  }

  /**
   * After as many failures as are permitted, the last one recorded at time t, a sign-in is refused if and only if it is
   * checked before t plus the cooldown, however many were refused meanwhile. From then on a failure is the first of a
   * new count, and a sign-in without a failure leaves none.
   */
  lemma LockoutExact(u: User, front: seq<Event>, f: Event, waiting: seq<Event>, e: Event, s: Settings)
    requires NoSession(front) && FailsChecks(f) && e.SignIn?
    requires u.failures + FailedChecks(front) + 1 == s.attempts
    requires forall x | x in waiting :: x.SignIn? && x.checkedAt < f.failedAt + s.cooldown
    ensures var v, end := Run(u, front + [f] + waiting, s), f.failedAt + s.cooldown;
      && v == User(s.attempts, Some(f.failedAt))
      && (AnswerOf(v, e, s).TooMany? <==> e.checkedAt < end)
      && (e.checkedAt < end ==> After(v, e, s) == v)
      && (e.checkedAt >= end ==> After(v, e, s) == if FailsChecks(e) then User(1, Some(e.failedAt)) else FRESH)
  {
    RunJoin(u, front + [f], waiting, s);
    RunJoin(u, front, [f], s);
    BelowLimit(u, front, f, s);
    var v := After(Run(u, front, s), f, s);
    assert [f][1..] == [] && Run(Run(u, front, s), [f], s) == v;
    LockedOut(v, waiting, f.failedAt, s);
  }

  /** A new session ends every count, whatever came before. */
  lemma SessionClears(u: User, es: seq<Event>, s: Settings)
    ensures Run(u, es + [SessionCreated], s) == FRESH
  {
    RunJoin(u, es, [SessionCreated], s);
    var v := Run(u, es, s);
    assert [SessionCreated][1..] == [] && Run(v, [SessionCreated], s) == Run(After(v, SessionCreated, s), [], s);
  }

  /** The settings are the numbers of the environment, drawn to the nearest permitted ones. */
  lemma SettingsExact(attempts: Option<int>, seconds: Option<int>)
    ensures var s := SettingsFrom(attempts, seconds);
      && (attempts.Some? && 1 <= attempts.value <= 20 ==> s.attempts == attempts.value)
      && (attempts.None? || attempts.value == 0 ==> s.attempts == 5)
      && (attempts.Some? && attempts.value < 0 ==> s.attempts == 1)
      && (attempts.Some? && attempts.value > 20 ==> s.attempts == 20)
      && (seconds.Some? && 60 <= seconds.value <= 86400 ==> s.cooldown == seconds.value * 1000)
      && (seconds.None? || seconds.value == 0 ==> s.cooldown == 900_000)
      && (seconds.Some? && seconds.value < 60 && seconds.value != 0 ==> s.cooldown == 60_000)
      && (seconds.Some? && seconds.value > 86400 ==> s.cooldown == 86_400_000)
  {
  }

  // ---------------------------------------------------------------------
  // Sign-ins that overlap
  // ---------------------------------------------------------------------

  /** A request between its database calls: it has yet to clear an elapsed lockout, or is at its checks. */
  datatype Phase = Clearing | Checking

  /** The user's row, and the requests in flight. */
  datatype System = System(row: User, flight: map<nat, Phase>)

  /** One database call of a request, a request that ends without one, or a new session. */
  datatype Step =
    Read(request: nat, at: int) | Clear(request: nat) | Fail(request: nat, at: int) | Leave(request: nat) | Session

  predicate Enabled(sys: System, step: Step) {
    match step
    case Read(t, _) => t !in sys.flight
    case Clear(t) => t in sys.flight && sys.flight[t].Clearing?
    case Fail(t, _) => t in sys.flight && sys.flight[t].Checking?
    case Leave(t) => t in sys.flight
    case Session => true
  }

  function Next(sys: System, step: Step, s: Settings): System
    requires Enabled(sys, step)
  {
    match step
    case Read(t, at) =>
      if Locked(sys.row, at, s) then sys
      else if sys.row.last.Some? && sys.row.failures >= s.attempts then sys.(flight := sys.flight[t := Clearing])
      else sys.(flight := sys.flight[t := Checking])
    case Clear(t) => System(FRESH, sys.flight[t := Checking])
    case Fail(t, at) => System(User(sys.row.failures + 1, Some(at)), sys.flight - {t})
    case Leave(t) => sys.(flight := sys.flight - {t})
    case Session => sys.(row := FRESH)
  }

  /** Any interleaving with at most `k` requests in flight. */
  predicate Schedule(sys: System, steps: seq<Step>, k: nat, s: Settings)
    decreases |steps|
  {
    |sys.flight| <= k &&
    (steps == [] || (Enabled(sys, steps[0]) && Schedule(Next(sys, steps[0], s), steps[1..], k, s)))
  }

  function Final(sys: System, steps: seq<Step>, k: nat, s: Settings): System
    requires Schedule(sys, steps, k, s)
    decreases |steps|
  {
    if steps == [] then sys else Final(Next(sys, steps[0], s), steps[1..], k, s)
  }

  function AtChecks(flight: map<nat, Phase>): set<nat> {
    set t | t in flight && flight[t].Checking?
  }

  /** What the counter shows and what is under way fit together. */
  predicate Fitting(sys: System, k: nat, s: Settings) {
    && |AtChecks(sys.flight)| <= |sys.flight| <= k
    && sys.row.failures + |AtChecks(sys.flight)| <= s.attempts - 1 + k
    && (sys.row.failures > 0 ==> sys.row.last.Some?)
  }

  lemma ChecksBelow(flight: map<nat, Phase>)
    ensures |AtChecks(flight)| <= |flight|
  {
    SubsetSize(AtChecks(flight), flight.Keys);
  }

  lemma SubsetSize(a: set<nat>, b: set<nat>)
    requires a <= b
    ensures |a| <= |b|
  {
    assert b == a + (b - a);
  }

  lemma ChecksSame(flight: map<nat, Phase>, t: nat)
    requires t !in flight
    ensures AtChecks(flight[t := Clearing]) == AtChecks(flight)
  {
  }

  lemma ChecksExit(flight: map<nat, Phase>, t: nat)
    requires t in flight
    ensures |AtChecks(flight - {t})| == |AtChecks(flight)| - (if flight[t].Checking? then 1 else 0)
  {
    assert AtChecks(flight - {t}) == AtChecks(flight) - {t};
    Without(AtChecks(flight), t);
  }

  lemma ReadFits(sys: System, t: nat, at: int, k: nat, s: Settings)
    requires s.attempts >= 1 && Fitting(sys, k, s) && Enabled(sys, Read(t, at))
    requires |Next(sys, Read(t, at), s).flight| <= k
    ensures Fitting(Next(sys, Read(t, at), s), k, s)
  {
    hide AtChecks;
    var next := Next(sys, Read(t, at), s);
    ChecksBelow(next.flight);
    if next.flight == sys.flight[t := Clearing] {
      ChecksSame(sys.flight, t);
    }
  }

  lemma ClearFits(sys: System, t: nat, k: nat, s: Settings)
    requires s.attempts >= 1 && Fitting(sys, k, s) && Enabled(sys, Clear(t)) && |Next(sys, Clear(t), s).flight| <= k
    ensures Fitting(Next(sys, Clear(t), s), k, s)
  {
    hide AtChecks;
    ChecksBelow(Next(sys, Clear(t), s).flight);
  }

  /** A failure counts for the request that records it. */
  lemma ExitFits(sys: System, step: Step, k: nat, s: Settings)
    requires Fitting(sys, k, s) && Enabled(sys, step) && (step.Fail? || step.Leave?)
    requires |Next(sys, step, s).flight| <= k
    ensures Fitting(Next(sys, step, s), k, s)
  {
    hide AtChecks;
    ChecksBelow(Next(sys, step, s).flight);
    ChecksExit(sys.flight, step.request);
  }

  lemma StepFits(sys: System, step: Step, k: nat, s: Settings)
    requires s.attempts >= 1 && Fitting(sys, k, s) && Enabled(sys, step) && |Next(sys, step, s).flight| <= k
    ensures Fitting(Next(sys, step, s), k, s)
  {
    match step
    case Read(t, at) => ReadFits(sys, t, at, k, s);
    case Clear(t) => ClearFits(sys, t, k, s);
    case Fail(_, _) => ExitFits(sys, step, k, s);
    case Leave(_) => ExitFits(sys, step, k, s);
    case Session =>
  }

  lemma {:induction false} RunFits(sys: System, steps: seq<Step>, k: nat, s: Settings)
    requires s.attempts >= 1 && Fitting(sys, k, s) && Schedule(sys, steps, k, s)
    ensures Fitting(Final(sys, steps, k, s), k, s)
    decreases |steps|
  {
    hide Fitting, Next;
    if steps != [] {
      StepFits(sys, steps[0], k, s);
      RunFits(Next(sys, steps[0], s), steps[1..], k, s);
    }
  }

  const QUIET: System := System(FRESH, map[])

  // A schedule that reaches the bound: failures one by one up to the last permitted one, then `k` requests at once.

  function OneByOne(n: nat): seq<Step> {
    if n == 0 then [] else [Read(0, 0), Fail(0, 0)] + OneByOne(n - 1)
  }

  /** Requests `from` up to `to` read the row. */
  function ReadEach(from: nat, to: nat): seq<Step>
    decreases if from <= to then to - from else 0
  {
    if from >= to then [] else [Read(from, 0)] + ReadEach(from + 1, to)
  }

  function FailEach(from: nat, to: nat): seq<Step>
    decreases if from <= to then to - from else 0
  {
    if from >= to then [] else [Fail(from, 0)] + FailEach(from + 1, to)
  }

  /** Requests `from` up to `to` at their checks. */
  function Waiting(from: nat, to: nat): (flight: map<nat, Phase>)
    ensures forall t | t in flight :: from <= t < to && flight[t] == Checking
    ensures forall t: nat | from <= t < to :: t in flight
    ensures |flight| == if from <= to then to - from else 0
    decreases if from <= to then to - from else 0
  {
    if from >= to then map[]
    else
      var rest := Waiting(from + 1, to);
      assert rest[from := Checking].Keys == rest.Keys + {from};
      rest[from := Checking]
  }

  /** A schedule may be cut anywhere. */
  lemma {:induction false} ScheduleParts(sys: System, a: seq<Step>, b: seq<Step>, k: nat, s: Settings)
    requires Schedule(sys, a, k, s) && Schedule(Final(sys, a, k, s), b, k, s)
    ensures Schedule(sys, a + b, k, s) && Final(sys, a + b, k, s) == Final(Final(sys, a, k, s), b, k, s)
    decreases |a|
  {
    hide Next, Enabled;
    if a == [] {
      assert a + b == b;
    } else {
      assert (a + b)[0] == a[0] && (a + b)[1..] == a[1..] + b;
      ScheduleParts(Next(sys, a[0], s), a[1..], b, k, s);
    }
  }

  function Counter(n: nat): User {
    if n == 0 then FRESH else User(n, Some(0))
  }

  lemma {:induction false} OneByOneRuns(n: nat, m: nat, k: nat, s: Settings)
    requires m + n < s.attempts && k >= 1
    ensures var sys := System(Counter(m), map[]);
      Schedule(sys, OneByOne(n), k, s) && Final(sys, OneByOne(n), k, s) == System(Counter(m + n), map[])
    decreases n
  {
    var sys := System(Counter(m), map[]);
    if n > 0 {
      OneByOneRuns(n - 1, m + 1, k, s);
      var pair := [Read(0, 0), Fail(0, 0)];
      var mid := System(Counter(m), map[0 := Checking]);
      var next := System(Counter(m + 1), map[]);
      assert Next(sys, Read(0, 0), s) == mid;
      assert Next(mid, Fail(0, 0), s) == next by { assert map[0 := Checking] - {0} == map[]; }
      assert pair[1..] == [Fail(0, 0)] && pair[1..][1..] == [];
      assert Schedule(next, [], k, s);
      assert Schedule(mid, [Fail(0, 0)], k, s) && Final(mid, [Fail(0, 0)], k, s) == next;
      assert Schedule(sys, pair, k, s) && Final(sys, pair, k, s) == next;
      ScheduleParts(sys, pair, OneByOne(n - 1), k, s);
    }
  }

  lemma {:induction false} ReadsRun(from: nat, k: nat, row: User, s: Settings)
    requires from <= k && row.failures < s.attempts
    ensures var sys := System(row, Waiting(0, from));
      Schedule(sys, ReadEach(from, k), k, s) && Final(sys, ReadEach(from, k), k, s) == System(row, Waiting(0, k))
    decreases k - from
  {
    hide Schedule, Final, Enabled, Next, Waiting;
    var sys := System(row, Waiting(0, from));
    if from < k {
      ReadNext(from, row, s);
      ReadsRun(from + 1, k, row, s);
      ScheduleCons(sys, Read(from, 0), ReadEach(from + 1, k), k, s);
    } else {
      ScheduleNone(sys, k, s);
    }
  }

  lemma ReadNext(from: nat, row: User, s: Settings)
    requires row.failures < s.attempts
    ensures var sys := System(row, Waiting(0, from));
      Enabled(sys, Read(from, 0)) && Next(sys, Read(from, 0), s) == System(row, Waiting(0, from + 1))
  {
    hide Waiting;
    assert Waiting(0, from)[from := Checking] == Waiting(0, from + 1);
  }

  lemma FailNext(from: nat, k: nat, n: nat, s: Settings)
    requires from < k
    ensures var sys := System(Counter(n), Waiting(from, k));
      Enabled(sys, Fail(from, 0)) && Next(sys, Fail(from, 0), s) == System(Counter(n + 1), Waiting(from + 1, k))
  {
    hide Waiting;
    assert Waiting(from, k) - {from} == Waiting(from + 1, k);
  }

  lemma ScheduleNone(sys: System, k: nat, s: Settings)
    requires |sys.flight| <= k
    ensures Schedule(sys, [], k, s) && Final(sys, [], k, s) == sys
  {
  }

  lemma ScheduleCons(sys: System, step: Step, rest: seq<Step>, k: nat, s: Settings)
    requires |sys.flight| <= k && Enabled(sys, step) && Schedule(Next(sys, step, s), rest, k, s)
    ensures Schedule(sys, [step] + rest, k, s)
    ensures Final(sys, [step] + rest, k, s) == Final(Next(sys, step, s), rest, k, s)
  {
    hide Enabled, Next;
    assert ([step] + rest)[1..] == rest;
  }

  lemma {:induction false} FailsRun(from: nat, k: nat, n: nat, s: Settings)
    requires from <= k
    ensures var sys := System(Counter(n), Waiting(from, k));
      Schedule(sys, FailEach(from, k), k, s) &&
        Final(sys, FailEach(from, k), k, s) == System(Counter(n + (k - from)), map[])
    decreases k - from
  {
    hide Schedule, Final, Enabled, Next, Waiting, Counter;
    var sys := System(Counter(n), Waiting(from, k));
    if from < k {
      FailNext(from, k, n, s);
      FailsRun(from + 1, k, n + 1, s);
      ScheduleCons(sys, Fail(from, 0), FailEach(from + 1, k), k, s);
    } else {
      assert Waiting(from, k) == map[];
      ScheduleNone(sys, k, s);
    }
  }

  /** Up to the last permitted failure one by one, then `k` requests that all read before any of them fails. */
  function Burst(k: nat, s: Settings): seq<Step>
    requires s.attempts >= 1
  {
    OneByOne(s.attempts - 1) + (ReadEach(0, k) + FailEach(0, k))
  }

  lemma BurstRuns(k: nat, s: Settings)
    requires s.attempts >= 1 && k >= 1
    ensures Schedule(QUIET, Burst(k, s), k, s) && Final(QUIET, Burst(k, s), k, s).row.failures == s.attempts - 1 + k
  {
    hide Schedule, Final, OneByOne, ReadEach, FailEach;
    var n := s.attempts - 1;
    OneByOneRuns(n, 0, k, s);
    var row := Counter(n);
    assert Waiting(0, 0) == map[];
    ReadsRun(0, k, row, s);
    FailsRun(0, k, n, s);
    ScheduleParts(System(row, map[]), ReadEach(0, k), FailEach(0, k), k, s);
    ScheduleParts(QUIET, OneByOne(n), ReadEach(0, k) + FailEach(0, k), k, s);
  }

  /**
   * Under every interleaving with at most `k` sign-ins in flight the counter is at most the limit less one plus `k`,
   * and some interleaving reaches that.
   */
  lemma OverlapExact(k: nat, s: Settings)
    requires s.attempts >= 1 && k >= 1
    ensures forall steps | Schedule(QUIET, steps, k, s) :: Final(QUIET, steps, k, s).row.failures <= s.attempts - 1 + k
    ensures exists steps :: Schedule(QUIET, steps, k, s) && Final(QUIET, steps, k, s).row.failures == s.attempts - 1 + k
  {
    hide Schedule, Final;
    QuietFits(k, s);
    forall steps | Schedule(QUIET, steps, k, s) ensures Final(QUIET, steps, k, s).row.failures <= s.attempts - 1 + k {
      RunFits(QUIET, steps, k, s);
    }
    BurstRuns(k, s);
  }

  lemma QuietFits(k: nat, s: Settings)
    requires s.attempts >= 1
    ensures Fitting(QUIET, k, s)
  {
    assert AtChecks(QUIET.flight) == {};
  }

  // Requests one after the other are the schedules with one request in flight.

  function StepsOf(u: User, e: Event, s: Settings): seq<Step> {
    match e
    case SessionCreated => [Session]
    case SignIn(checkedAt, failedAt, _, _, _) =>
      if Locked(u, checkedAt, s) then [Read(0, checkedAt)]
      else
        [Read(0, checkedAt)] +
        (if u.last.Some? && u.failures >= s.attempts then [Clear(0)] else []) +
        [if Fails(u, e, s) then Fail(0, failedAt) else Leave(0)]
  }

  function AllSteps(u: User, es: seq<Event>, s: Settings): seq<Step>
    decreases |es|
  {
    if es == [] then [] else StepsOf(u, es[0], s) + AllSteps(After(u, es[0], s), es[1..], s)
  }

  lemma EventIsSteps(u: User, e: Event, s: Settings)
    ensures var sys := System(u, map[]);
      Schedule(sys, StepsOf(u, e, s), 1, s) && Final(sys, StepsOf(u, e, s), 1, s) == System(After(u, e, s), map[])
  {
    var sys, steps := System(u, map[]), StepsOf(u, e, s);
    if e.SignIn? && !Locked(u, e.checkedAt, s) {
      var elapsed := u.last.Some? && u.failures >= s.attempts;
      var last := if Fails(u, e, s) then Fail(0, e.failedAt) else Leave(0);
      var v := Refreshed(u, s);
      var done := System(After(u, e, s), map[]);
      var mid := System(v, map[0 := Checking]);
      assert Next(mid, last, s) == done by { assert map[0 := Checking] - {0} == map[]; }
      assert [last][1..] == [];
      assert Schedule(done, [], 1, s) && Schedule(mid, [last], 1, s) && Final(mid, [last], 1, s) == done;
      if elapsed {
        var before := System(u, map[0 := Clearing]);
        assert map[0 := Clearing][0 := Checking] == map[0 := Checking];
        assert Next(sys, steps[0], s) == before && Next(before, Clear(0), s) == mid;
        assert steps[1..] == [Clear(0), last] && steps[1..][1..] == [last];
        assert Schedule(before, [Clear(0), last], 1, s) && Final(before, [Clear(0), last], 1, s) == done;
      } else {
        assert Next(sys, steps[0], s) == mid && steps[1..] == [last];
      }
    } else {
      assert steps[1..] == [];
    }
  }

  /**
   * A serialized run is a schedule with one request in flight, so the bound for `k` = 1 is the bound of serialized
   * runs.
   */
  lemma {:induction false} SerializedIsOneInFlight(u: User, es: seq<Event>, s: Settings)
    ensures var sys := System(u, map[]);
      Schedule(sys, AllSteps(u, es, s), 1, s) && Final(sys, AllSteps(u, es, s), 1, s).row == Run(u, es, s)
    ensures var sys := System(u, map[]); Final(sys, AllSteps(u, es, s), 1, s).flight == map[]
    decreases |es|
  {
    hide StepsOf, After, Next, Enabled;
    if es != [] {
      EventIsSteps(u, es[0], s);
      SerializedIsOneInFlight(After(u, es[0], s), es[1..], s);
      ScheduleParts(System(u, map[]), StepsOf(u, es[0], s), AllSteps(After(u, es[0], s), es[1..], s), 1, s);
    }
  }
}
