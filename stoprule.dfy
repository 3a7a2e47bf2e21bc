/** When the send loop of `generateTraffic` stops. The loop sends a unit,
    increments the 64-bit counter `seq`, and only when `seq` is a multiple of
    997 evaluates the two stop conditions: the duration has elapsed, or the
    count has been reached. */
module StopRule {
  import opened Bytes
  import opened Timing

  /** The number of units between two evaluations of the stop conditions. */
  const CheckInterval: nat := 997

  /** The largest multiple of CheckInterval an `unsigned long long` can hold. */
  const LastCheck: nat := 18446744073709550655

  /** The value of the `unsigned long long` counter after n increments from 0. */
  function Wrap64(n: nat): uint64 {
    n % TwoTo64
  }

  /** `seq++` on an `unsigned long long`. */
  function Increment(x: uint64): (r: uint64)
    ensures x < TwoTo64 - 1 ==> r == x + 1
    ensures x == TwoTo64 - 1 ==> r == 0
  {
    (x + 1) % TwoTo64
  }

  /** Incrementing the counter n times from 0 and once more is n + 1 increments. */
  lemma Wrap64Succ(n: nat)
    ensures Wrap64(n + 1) == Increment(Wrap64(n))
  {
    var q := n / TwoTo64;
    assert n == q * TwoTo64 + Wrap64(n);
    if Wrap64(n) + 1 == TwoTo64 {
      DivUnique(n + 1, TwoTo64, q + 1, 0);
    } else {
      DivUnique(n + 1, TwoTo64, q, Wrap64(n) + 1);
    }
  }

  /** The `if (seq % 997 == 0)` block: whether it clears the running flag,
      with the counter at `sequence`, the run started at `start` and the clock
      reading `now`. */
  predicate CheckFires(count: uint64, duration: uint32, start: Timespec, now: Timespec, sequence: uint64)
    ensures CheckFires(count, duration, start, now, sequence) ==> sequence % CheckInterval == 0
    ensures count == 0 && duration == 0 ==> !CheckFires(count, duration, start, now, sequence)
  {
    sequence % CheckInterval == 0 &&
    ((duration != 0 && SecondsElapsed(start, now) >= duration) ||
     (count != 0 && sequence >= count))
  }

  /** Whether the loop clears its running flag right after the n-th unit.
      `clock(0)` is the start reading, `clock(n)` the reading
      `secondsElapsed` takes after the n-th unit. */
  predicate StopsAt(count: uint64, duration: uint32, clock: nat -> Timespec, n: nat) {
    n >= 1 && CheckFires(count, duration, clock(0), clock(n), Wrap64(n))
  }

  /** No stop condition fired after any of the units 1 .. n-1. */
  predicate NoStopBefore(count: uint64, duration: uint32, clock: nat -> Timespec, n: nat) {
    forall k :: 1 <= k < n ==> !StopsAt(count, duration, clock, k)
  }

  /** The loop's running flag after n units is in step with StopsAt: it is
      set exactly when no stop condition has fired yet, and once cleared it
      was cleared at the n-th unit. */
  predicate InStep(count: uint64, duration: uint32, clock: nat -> Timespec, n: nat, running: bool) {
    if running then NoStopBefore(count, duration, clock, n + 1)
    else n >= 1 && StopsAt(count, duration, clock, n) && NoStopBefore(count, duration, clock, n)
  }

  /** One evaluation of the check block after the n-th unit, with the flag
      still set before it, keeps the flag in step. */
  lemma CheckStep(count: uint64, duration: uint32, clock: nat -> Timespec, n: nat, sequence: uint64, running: bool)
    requires n >= 1 && sequence == Wrap64(n)
    requires InStep(count, duration, clock, n - 1, true)
    requires running == !CheckFires(count, duration, clock(0), clock(n), sequence)
    ensures InStep(count, duration, clock, n, running)
  {
  }

  /** How a run of the loop that may send at most `limit` units ends: either it
      stopped after `sent` units, at the first unit where a stop condition
      fired, or no condition fired and it was cut off after `limit` units. */
  predicate LoopOutcome(count: uint64, duration: uint32, clock: nat -> Timespec, limit: nat,
                        sent: nat, stopped: bool) {
    if stopped then
      sent <= limit && StopsAt(count, duration, clock, sent) && NoStopBefore(count, duration, clock, sent)
    else
      sent == limit && NoStopBefore(count, duration, clock, limit + 1)
  }

  /** The outcome is determined by the inputs: two runs with the same inputs
      send the same number of units and agree on whether they stopped. */
  lemma LoopOutcomeUnique(count: uint64, duration: uint32, clock: nat -> Timespec, limit: nat,
                          sent: nat, stopped: bool, sent': nat, stopped': bool)
    requires LoopOutcome(count, duration, clock, limit, sent, stopped)
    requires LoopOutcome(count, duration, clock, limit, sent', stopped')
    ensures sent == sent' && stopped == stopped'
  {
  }

  /** The smallest positive multiple of CheckInterval that is at least count. */
  function CountStopPoint(count: nat): (p: nat)
    requires count > 0
  {
    (count + CheckInterval - 1) / CheckInterval * CheckInterval
  }

  /** CountStopPoint is a multiple of the interval, reaches count, overshoots
      it by at most 996, and no smaller positive multiple reaches count. */
  lemma CountStopPointSpec(count: nat)
    requires count > 0
    ensures CountStopPoint(count) % CheckInterval == 0
    ensures count <= CountStopPoint(count) <= count + CheckInterval - 1
    ensures forall m :: 0 < m < CountStopPoint(count) && m % CheckInterval == 0 ==> m < count
  {
    var q := (count + CheckInterval - 1) / CheckInterval;
    var r := (count + CheckInterval - 1) % CheckInterval;
    var p := CountStopPoint(count);
    assert p == q * CheckInterval;
    assert count + CheckInterval - 1 == p + r;
    forall m | 0 < m < p && m % CheckInterval == 0
      ensures m < count
    {
      var j := m / CheckInterval;
      assert m == j * CheckInterval;
      assert j < q;
      assert m <= p - CheckInterval;
    }
  }

  /** With a count and no duration, the loop first stops after exactly
      CountStopPoint(count) units, as long as that point is reached before the
      64-bit counter wraps. */
  lemma CountOnlyStop(count: uint64, clock: nat -> Timespec)
    requires 0 < count <= LastCheck
    ensures StopsAt(count, 0, clock, CountStopPoint(count))
    ensures NoStopBefore(count, 0, clock, CountStopPoint(count))
  {
    CountStopPointSpec(count);
    var p := CountStopPoint(count);
    assert p <= LastCheck;
    assert Wrap64(p) == p;
    forall k | 1 <= k < p
      ensures !StopsAt(count, 0, clock, k)
    {
      assert Wrap64(k) == k;
    }
  }

  /** Consequently a run with a count, no duration and room for that many
      units stops after CountStopPoint(count) units: at least `count`, and at
      most 996 more than `count`. */
  lemma CountOnlyRun(count: uint64, clock: nat -> Timespec, limit: nat, sent: nat, stopped: bool)
    requires 0 < count <= LastCheck
    requires limit >= CountStopPoint(count)
    requires LoopOutcome(count, 0, clock, limit, sent, stopped)
    ensures stopped && sent == CountStopPoint(count)
    ensures count <= sent <= count + CheckInterval - 1
  {
    CountOnlyStop(count, clock);
    CountStopPointSpec(count);
    LoopOutcomeUnique(count, 0, clock, limit, sent, stopped, CountStopPoint(count), true);
  }

  /** With neither a count nor a duration no stop condition ever fires, so any
      bound on the number of units is reached. */
  lemma UnboundedRun(clock: nat -> Timespec, limit: nat, sent: nat, stopped: bool)
    requires LoopOutcome(0, 0, clock, limit, sent, stopped)
    ensures !stopped && sent == limit
  {
  }

  /** A count above LastCheck is never reached at a check point: the counter
      wraps to 0 first, so without a duration such a run never stops either. */
  lemma {:induction false} CountBeyondLastCheckNeverStops(count: uint64, clock: nat -> Timespec, n: nat)
    requires count > LastCheck
    ensures !StopsAt(count, 0, clock, n)
  {
    var w := Wrap64(n);
    if w % CheckInterval == 0 {
      var j := w / CheckInterval;
      assert w == j * CheckInterval;
      assert j * CheckInterval < TwoTo64;
      assert j <= LastCheck / CheckInterval;
      assert w <= LastCheck;
    }
  }

  /** With a duration and no count, at every check point before the loop
      stops (or, when it was cut off, up to the limit) fewer than `duration`
      whole seconds had elapsed by `secondsElapsed`. */
  lemma DurationNotYetElapsed(duration: uint32, clock: nat -> Timespec, limit: nat,
                              sent: nat, stopped: bool, k: nat)
    requires duration > 0
    requires LoopOutcome(0, duration, clock, limit, sent, stopped)
    requires 1 <= k && (if stopped then k < sent else k <= limit)
    requires Wrap64(k) % CheckInterval == 0
    ensures SecondsElapsed(clock(0), clock(k)) < duration
  {
    assert !StopsAt(0, duration, clock, k);
  }

  /** `CLOCK_REALTIME` may step back. A reading one second before the start
      makes `secondsElapsed` wrap to 2^32 - 1, so the first check stops a run
      with a duration of one second before any time has passed. */
  lemma BackwardStepStopsEarly()
    ensures var clock := (n: nat) => if n == 0 then Timespec(10, 0) else Timespec(9, 0);
      && TotalNanos(clock(CheckInterval)) < TotalNanos(clock(0))
      && StopsAt(0, 1, clock, CheckInterval)
      && NoStopBefore(0, 1, clock, CheckInterval)
  {
    var clock := (n: nat) => if n == 0 then Timespec(10, 0) else Timespec(9, 0);
    assert SecondsElapsed(clock(0), clock(CheckInterval)) == TwoTo32 - 1;
    assert Wrap64(CheckInterval) == CheckInterval;
    forall k | 1 <= k < CheckInterval
      ensures !StopsAt(0, 1, clock, k)
    {
      assert Wrap64(k) == k;
    }
  }

  /** With a duration and no count, the loop stops only once the readings show
      at least `duration` whole seconds since the start. */
  lemma DurationStopElapsed(duration: uint32, clock: nat -> Timespec, n: nat)
    requires duration > 0
    requires StopsAt(0, duration, clock, n)
    requires InOrder(clock(0), clock(n))
    ensures TotalNanos(clock(n)) - TotalNanos(clock(0)) >= duration * NanosPerSecond
  {
    var e := TotalNanos(clock(n)) - TotalNanos(clock(0));
    assert e / NanosPerSecond >= duration;
    assert e >= (e / NanosPerSecond) * NanosPerSecond;
  }
}
