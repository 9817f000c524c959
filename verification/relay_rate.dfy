/** Fixed-window rate limiting of the relay. Time is counted in nanoseconds on a monotone clock. */
module RelayRate {
  import opened Basics

  const U64_MAX: int := 0xffff_ffff_ffff_ffff
  const SECOND: int := 1_000_000_000

  type U64 = n: int | 0 <= n <= U64_MAX

  function SaturatingAdd(a: U64, b: U64): U64 {
    if a + b > U64_MAX then U64_MAX else a + b
  }

  /** Addition as the release build does it. */
  function WrappingAdd(a: U64, b: U64): U64 {
    if a + b > U64_MAX then a + b - U64_MAX - 1 else a + b
  }

  datatype Limits = Limits(packets: U64, bytes: U64)

  datatype Window = Window(started: int, packets: U64, bytes: U64)

  /** One call: the clock is read for the elapsed time, and read again if the window restarts. */
  datatype Call = Call(bytes: U64, checkedAt: int, restartedAt: int)

  function Restart(w: Window, c: Call): Window {
    if c.checkedAt - w.started >= SECOND then Window(c.restartedAt, 0, 0) else w
  }

  predicate Admits(w: Window, c: Call, limits: Limits) {
    !(SaturatingAdd(w.packets, 1) > limits.packets || SaturatingAdd(w.bytes, c.bytes) > limits.bytes)
  }

  function After(w: Window, c: Call, limits: Limits): Window {
    var r := Restart(w, c);
    if Admits(r, c, limits) then Window(r.started, WrappingAdd(r.packets, 1), WrappingAdd(r.bytes, c.bytes)) else r
  }

  /** The call makes a counter wrap around. */
  predicate Wraps(w: Window, c: Call, limits: Limits) {
    var r := Restart(w, c);
    Admits(r, c, limits) && (r.packets + 1 > U64_MAX || r.bytes + c.bytes > U64_MAX)
  }

  /** What a window can hold that started empty. */
  predicate Fits(w: Window, limits: Limits) {
    w.packets <= limits.packets && w.bytes <= limits.bytes && (w.packets == 0 ==> w.bytes == 0)
  }

  class RateWindow {
    var started: int
    var packets: U64
    var bytes: U64

    ghost function View(): Window
      reads this
    {
      Window(started, packets, bytes)
    }

    constructor (now: int)
      ensures View() == Window(now, 0, 0)
    {
      started, packets, bytes := now, 0, 0;
    }

    /** `allow`, for every window and all limits. */
    method Allow(c: Call, limits: Limits) returns (ok: bool)
      modifies this
      ensures ok == Admits(Restart(old(View()), c), c, limits)
      ensures View() == After(old(View()), c, limits)
      ensures Fits(old(View()), limits) && Roomy(limits) ==> Fits(View(), limits) && !Wraps(old(View()), c, limits)
    {
      if c.checkedAt - started >= SECOND {
        started := c.restartedAt;
        packets := 0;
        bytes := 0;
      }
      if SaturatingAdd(packets, 1) > limits.packets || SaturatingAdd(bytes, c.bytes) > limits.bytes {
        return false;
      }
      packets := WrappingAdd(packets, 1);
      bytes := WrappingAdd(bytes, c.bytes);
      ok := true;
    }
  }

  // ---------------------------------------------------------------------
  // Overflow
  // ---------------------------------------------------------------------

  /** The clock never goes back, within a call or between calls. */
  predicate Monotone(now: int, calls: seq<Call>)
    decreases |calls|
  {
    calls == [] || (now <= calls[0].checkedAt <= calls[0].restartedAt && Monotone(calls[0].restartedAt, calls[1..]))
  }

  /** No call of the run wraps a counter. */
  predicate WrapFree(w: Window, calls: seq<Call>, limits: Limits)
    decreases |calls|
  {
    calls == [] || (!Wraps(w, calls[0], limits) && WrapFree(After(w, calls[0], limits), calls[1..], limits))
  }

  /** Neither limit is so large that its counter can pass it unnoticed. */
  predicate Roomy(limits: Limits) {
    limits.packets < U64_MAX && (limits.bytes < U64_MAX || limits.packets <= 1)
  }

  lemma RoomyCall(w: Window, c: Call, limits: Limits)
    requires Roomy(limits) && Fits(w, limits)
    ensures !Wraps(w, c, limits) && Fits(After(w, c, limits), limits)
  {
  }

  lemma {:induction false} RoomyRun(w: Window, calls: seq<Call>, limits: Limits)
    requires Roomy(limits) && Fits(w, limits)
    ensures WrapFree(w, calls, limits)
    decreases |calls|
  {
    if calls != [] {
      RoomyCall(w, calls[0], limits);
      RoomyRun(After(w, calls[0], limits), calls[1..], limits);
    }
  }

  /** `n` empty packets at one moment. */
  function Burst(now: int, n: nat): (calls: seq<Call>)
    ensures |calls| == n
  {
    if n == 0 then [] else [Call(0, now, now)] + Burst(now, n - 1)
  }

  lemma {:induction false} BurstMonotone(now: int, n: nat)
    ensures Monotone(now, Burst(now, n))
  {
    if n > 0 {
      BurstMonotone(now, n - 1);
      assert Burst(now, n)[1..] == Burst(now, n - 1);
    }
  }

  /** With the largest packet limit a burst reaches the end of the counter, and goes on. */
  lemma {:induction false} BurstWraps(now: int, packets: U64, n: nat, limits: Limits)
    requires limits.packets == U64_MAX && packets + n == U64_MAX + 1
    ensures !WrapFree(Window(now, packets, 0), Burst(now, n), limits)
    decreases n
  {
    var calls := Burst(now, n);
    assert calls[0] == Call(0, now, now) && calls[1..] == Burst(now, n - 1);
    if n > 1 {
      BurstWraps(now, packets + 1, n - 1, limits);
    }
  }

  /** Three packets of the largest size around a restart: two of them share a window. */
  function LargePackets(now: int): seq<Call> {
    var late := now + SECOND - 1;
    [Call(U64_MAX, late, late), Call(U64_MAX, late, late), Call(U64_MAX, now + SECOND, now + SECOND)]
  }

  lemma LargePacketsRun(now: int, limits: Limits)
    requires limits.bytes == U64_MAX && limits.packets >= 2
    ensures Monotone(now, LargePackets(now)) && !WrapFree(Window(now, 0, 0), LargePackets(now), limits)
    ensures Admitted(Window(now, 0, 0), LargePackets(now), limits, Bytes, now + SECOND - 1, 1) == 3 * U64_MAX
  {
    var calls := LargePackets(now);
    var late := now + SECOND - 1;
    var w0 := Window(now, 0, 0);
    var w1 := After(w0, calls[0], limits);
    var w2 := After(w1, calls[1], limits);
    var w3 := After(w2, calls[2], limits);
    assert calls[1..] == [calls[1], calls[2]] && calls[1..][1..] == [calls[2]] && calls[1..][1..][1..] == [];
    assert w1 == Window(now, 1, U64_MAX) && Wraps(w1, calls[1], limits);
    assert Monotone(late, [calls[2]]) && Monotone(late, [calls[1], calls[2]]);
    assert !WrapFree(w1, [calls[1], calls[2]], limits);
    assert Admitted(w3, [], limits, Bytes, late, 1) == 0;
    assert Admitted(w2, [calls[2]], limits, Bytes, late, 1) == U64_MAX;
    assert Admitted(w1, [calls[1], calls[2]], limits, Bytes, late, 1) == 2 * U64_MAX;
  }

  /**
   * No run on a new window wraps a counter exactly when the packet limit is below the largest 64-bit number, and so is
   * the byte limit unless at most one packet is let through per window.
   */
  lemma NoOverflowExact(now: int, limits: Limits)
    ensures (forall calls | Monotone(now, calls) :: WrapFree(Window(now, 0, 0), calls, limits)) <==> Roomy(limits)
  {
    if Roomy(limits) {
      forall calls | Monotone(now, calls) ensures WrapFree(Window(now, 0, 0), calls, limits) {
        RoomyRun(Window(now, 0, 0), calls, limits);
      }
    } else if limits.packets == U64_MAX {
      BurstMonotone(now, U64_MAX + 1);
      BurstWraps(now, 0, U64_MAX + 1, limits);
    } else {
      LargePacketsRun(now, limits);
    }
  }

  // ---------------------------------------------------------------------
  // Whole runs
  // ---------------------------------------------------------------------

  datatype Unit = Packets | Bytes

  function Weight(c: Call, unit: Unit): nat {
    if unit.Packets? then 1 else c.bytes
  }

  function Level(w: Window, unit: Unit): int {
    if unit.Packets? then w.packets else w.bytes
  }

  function Limit(limits: Limits, unit: Unit): nat {
    if unit.Packets? then limits.packets else limits.bytes
  }

  predicate During(c: Call, from: int, seconds: nat) {
    from <= c.checkedAt < from + seconds * SECOND
  }

  /** What a call adds to the interval of `seconds` whole seconds that starts at `from`. */
  function Counted(w: Window, c: Call, limits: Limits, unit: Unit, from: int, seconds: nat): nat
  {
    if During(c, from, seconds) && Admits(Restart(w, c), c, limits) then Weight(c, unit) else 0
  }

  /** Packets or bytes admitted in that interval by a whole run. */
  function Admitted(w: Window, calls: seq<Call>, limits: Limits, unit: Unit, from: int, seconds: nat): nat
    decreases |calls|
  {
    if calls == [] then 0
    else
      var later := Admitted(After(w, calls[0], limits), calls[1..], limits, unit, from, seconds);
      Counted(w, calls[0], limits, unit, from, seconds) + later
  }

  /**
   * The account of an interval: `total` was admitted so far, `closed` windows with a share in it have ended,
   * and the open window started no earlier than those allow.
   */
  predicate Account(w: Window, now: int, total: nat, closed: nat, limits: Limits, unit: Unit, from: int, seconds: nat) {
    && Fits(w, limits) && w.started <= now
    && (total > 0 ==> from <= now)
    && (closed > 0 ==> w.started >= from + (closed - 1) * SECOND)
    && total <= closed * Limit(limits, unit) + Level(w, unit)
    && total <= (seconds + 1) * Limit(limits, unit)
  }

  /** A restart closes the window, which counts only if it had a share. */
  lemma AccountRestart(w: Window, c: Call, now: int, total: nat, closed: nat, limits: Limits, unit: Unit, from: int,
      seconds: nat)
    returns (closed': nat)
    requires Account(w, now, total, closed, limits, unit, from, seconds)
    requires now <= c.checkedAt <= c.restartedAt
    ensures var r := Restart(w, c);
      && Fits(r, limits) && r.started <= c.restartedAt
      && (closed' > 0 ==> r.started >= from + (closed' - 1) * SECOND)
      && (closed' > 0 ==> c.checkedAt >= from + (closed' - 1) * SECOND)
      && total <= closed' * Limit(limits, unit) + Level(r, unit)
  {
    closed' := if total == 0 then 0 else if c.checkedAt - w.started >= SECOND then closed + 1 else closed;
    assert (closed + 1) * Limit(limits, unit) == closed * Limit(limits, unit) + Limit(limits, unit);
  }

  /** Counting one more call keeps the bound, because closed windows fill the interval from its start. */
  lemma AccountCall(w: Window, c: Call, now: int, total: nat, closed: nat, limits: Limits, unit: Unit, from: int,
      seconds: nat)
    returns (closed': nat)
    requires Roomy(limits) && Account(w, now, total, closed, limits, unit, from, seconds)
    requires now <= c.checkedAt <= c.restartedAt
    ensures Account(After(w, c, limits), c.restartedAt, total + Counted(w, c, limits, unit, from, seconds), closed',
      limits, unit, from, seconds)
  {
    closed' := AccountRestart(w, c, now, total, closed, limits, unit, from, seconds);
    var limit, level := Limit(limits, unit), Level(After(w, c, limits), unit);
    if Counted(w, c, limits, unit, from, seconds) > 0 {
      assert closed' <= seconds;
      assert level <= limit;
      MulOrder(closed' + 1, seconds + 1, limit);
      assert (closed' + 1) * limit == closed' * limit + limit;
    }
  }

  lemma {:induction false} AccountRun(w: Window, calls: seq<Call>, now: int, total: nat, closed: nat,
                                      limits: Limits, unit: Unit, from: int, seconds: nat)
    requires Roomy(limits) && Account(w, now, total, closed, limits, unit, from, seconds) && Monotone(now, calls)
    ensures total + Admitted(w, calls, limits, unit, from, seconds) <= (seconds + 1) * Limit(limits, unit)
    decreases |calls|
  {
    if calls != [] {
      var c := calls[0];
      var closed' := AccountCall(w, c, now, total, closed, limits, unit, from, seconds);
      AccountRun(After(w, c, limits), calls[1..], c.restartedAt, total + Counted(w, c, limits, unit, from, seconds),
                 closed', limits, unit, from, seconds);
    }
  }

  /** In any half-open interval of L whole seconds, a run admits at most L + 1 times the limit. */
  lemma AdmittedBounded(w: Window, calls: seq<Call>, limits: Limits, unit: Unit, from: int, seconds: nat)
    requires Roomy(limits) && Fits(w, limits) && Monotone(w.started, calls)
    ensures Admitted(w, calls, limits, unit, from, seconds) <= (seconds + 1) * Limit(limits, unit)
  {
    AccountRun(w, calls, w.started, 0, 0, limits, unit, from, seconds);
  }

  lemma {:induction false} BurstAdmitted(now: int, packets: U64, n: nat, limits: Limits)
    requires limits.packets == U64_MAX
    ensures Admitted(Window(now, packets, 0), Burst(now, n), limits, Packets, now, 1) == n
    decreases n
  {
    if n > 0 {
      var calls := Burst(now, n);
      assert calls[0] == Call(0, now, now) && calls[1..] == Burst(now, n - 1);
      BurstAdmitted(now, WrappingAdd(packets, 1), n - 1, limits);
    }
  }

  /** The bound holds for every run on a new window exactly when no counter can wrap. */
  lemma BoundExact(now: int, limits: Limits)
    ensures (forall calls, unit, from, seconds: nat | Monotone(now, calls) ::
               Admitted(Window(now, 0, 0), calls, limits, unit, from, seconds) <=
               (seconds + 1) * Limit(limits, unit)) <==>
            Roomy(limits)
  {
    if Roomy(limits) {
      forall calls, unit, from, seconds: nat | Monotone(now, calls)
        ensures Admitted(Window(now, 0, 0), calls, limits, unit, from, seconds) <= (seconds + 1) * Limit(limits, unit)
      {
        AdmittedBounded(Window(now, 0, 0), calls, limits, unit, from, seconds);
      }
    } else if limits.packets == U64_MAX {
      BurstMonotone(now, 2 * U64_MAX + 1);
      BurstAdmitted(now, 0, 2 * U64_MAX + 1, limits);
      var calls := Burst(now, 2 * U64_MAX + 1);
      assert !(Admitted(Window(now, 0, 0), calls, limits, Packets, now, 1) <= (1 + 1) * Limit(limits, Packets));
    } else {
      LargePacketsRun(now, limits);
      var calls := LargePackets(now);
      assert !(Admitted(Window(now, 0, 0), calls, limits, Bytes, now + SECOND - 1, 1) <=
               (1 + 1) * Limit(limits, Bytes));
    }
  }

  /** The factor cannot be lowered: two bursts around a restart fill one second twice. */
  lemma BoundReached()
    ensures exists calls: seq<Call> ::
      Monotone(0, calls) && Admitted(Window(0, 0, 0), calls, Limits(1, 10), Packets, SECOND - 1, 1) == 2
  {
    var limits := Limits(1, 10);
    var a, b := Call(5, SECOND - 1, SECOND - 1), Call(5, SECOND, SECOND);
    var calls := [a, b];
    var w1 := After(Window(0, 0, 0), a, limits);
    assert calls[1..] == [b] && calls[1..][1..] == [];
    assert Monotone(a.restartedAt, calls[1..]) by { assert Monotone(b.restartedAt, calls[1..][1..]); }
    assert Admitted(w1, [b], limits, Packets, SECOND - 1, 1) == 1;
    assert Monotone(0, calls) && Admitted(Window(0, 0, 0), calls, limits, Packets, SECOND - 1, 1) == 2;
  }

  // ---------------------------------------------------------------------
  // What fits is admitted
  // ---------------------------------------------------------------------

  function TotalBytes(calls: seq<Call>): nat {
    if calls == [] then 0 else calls[0].bytes + TotalBytes(calls[1..])
  }

  predicate AllAdmitted(w: Window, calls: seq<Call>, limits: Limits)
    decreases |calls|
  {
    calls == [] ||
    (Admits(Restart(w, calls[0]), calls[0], limits) && AllAdmitted(After(w, calls[0], limits), calls[1..], limits))
  }

  /** The calls come before the second is over. */
  predicate WithinSecond(started: int, calls: seq<Call>) {
    forall i | 0 <= i < |calls| :: calls[i].checkedAt < started + SECOND
  }

  lemma {:induction false} FitsExactly(w: Window, calls: seq<Call>, limits: Limits)
    requires limits.packets < U64_MAX && limits.bytes < U64_MAX && Fits(w, limits) && WithinSecond(w.started, calls)
    ensures AllAdmitted(w, calls, limits) <==>
      calls == [] || (w.packets + |calls| <= limits.packets && w.bytes + TotalBytes(calls) <= limits.bytes)
    decreases |calls|
  {
    if calls != [] {
      assert calls[0].checkedAt < w.started + SECOND;
      assert Restart(w, calls[0]) == w;
      if Admits(w, calls[0], limits) {
        FitsExactly(After(w, calls[0], limits), calls[1..], limits);
      }
      if calls[1..] == [] {
        assert TotalBytes(calls[1..]) == 0;
      }
    }
  }

  /**
   * After a second without a restart, whatever came before, the calls of the next second are all admitted if and only
   * if they are no more than the packet limit and their bytes no more than the byte limit.
   */
  lemma AdmittedExact(w: Window, calls: seq<Call>, limits: Limits)
    requires limits.packets < U64_MAX && limits.bytes < U64_MAX
    requires calls != [] && calls[0].checkedAt >= w.started + SECOND && WithinSecond(calls[0].restartedAt, calls[1..])
    ensures AllAdmitted(w, calls, limits) <==> |calls| <= limits.packets && TotalBytes(calls) <= limits.bytes
  {
    var empty := Window(calls[0].restartedAt, 0, 0);
    assert Restart(w, calls[0]) == empty;
    if Admits(empty, calls[0], limits) {
      FitsExactly(After(w, calls[0], limits), calls[1..], limits);
    }
    if calls[1..] == [] {
      assert TotalBytes(calls[1..]) == 0;
    }
  }
}
