/** Integer time arithmetic on `struct timespec` values. The clock itself is
    not modelled: readings are inputs. */
module Timing {
  import opened Bytes

  const NanosPerSecond: int := 1_000_000_000

  /** A `struct timespec`: whole seconds and nanoseconds (both signed in C). */
  datatype Timespec = Timespec(sec: int, nsec: int)

  /** A reading as `clock_gettime` produces it: nanoseconds in [0, 10^9). */
  predicate Normalised(t: Timespec) {
    0 <= t.nsec < NanosPerSecond
  }

  /** The instant a reading denotes, in nanoseconds. */
  function TotalNanos(t: Timespec): int {
    t.sec * NanosPerSecond + t.nsec
  }

  /** C's `/` on integers: the quotient truncated toward zero. */
  function CDiv(a: int, b: int): (q: int)
    requires b > 0
    ensures a >= 0 ==> 0 <= a - q * b < b
    ensures a < 0 ==> -b < a - q * b <= 0
  {
    if a >= 0 then a / b else -((-a) / b)
  }

  /** Two readings as `clock_gettime` produces them, `now` not before `start`
      and less than 2^32 seconds after it. */
  predicate InOrder(start: Timespec, now: Timespec) {
    Normalised(start) && Normalised(now) &&
    TotalNanos(start) <= TotalNanos(now) < TotalNanos(start) + TwoTo32 * NanosPerSecond
  }

  /** `secondsElapsed`: whole seconds from `start` to `now`, borrowing one
      second when the nanoseconds of `now` are below those of `start`. The
      `long` difference is returned as an `unsigned int`, that is, modulo 2^32.
      For readings in order the borrow makes it the floor of the elapsed time
      in seconds. */
  function SecondsElapsed(start: Timespec, now: Timespec): (r: uint32)
    ensures InOrder(start, now) ==> r == (TotalNanos(now) - TotalNanos(start)) / NanosPerSecond
  {
    var cor := if now.nsec < start.nsec then 1 else 0;
    var d := now.sec - start.sec - cor;
    assert InOrder(start, now) ==> d % TwoTo32 == (TotalNanos(now) - TotalNanos(start)) / NanosPerSecond by {
      if InOrder(start, now) {
        BorrowIsFloor(start, now);
      }
    }
    d % TwoTo32
  }

  /** The difference with the borrow is the floor of the elapsed seconds, and
      fits in an `unsigned int`. */
  lemma BorrowIsFloor(start: Timespec, now: Timespec)
    requires InOrder(start, now)
    ensures var d := now.sec - start.sec - (if now.nsec < start.nsec then 1 else 0);
      && d == (TotalNanos(now) - TotalNanos(start)) / NanosPerSecond
      && 0 <= d < TwoTo32 && d % TwoTo32 == d
  {
    var d := now.sec - start.sec;
    var dn := now.nsec - start.nsec;
    var e := TotalNanos(now) - TotalNanos(start);
    assert e == d * NanosPerSecond + dn;
    var cor := if now.nsec < start.nsec then 1 else 0;
    var q := d - cor;
    assert e == q * NanosPerSecond + (dn + cor * NanosPerSecond);
    assert 0 <= dn + cor * NanosPerSecond < NanosPerSecond;
    DivUnique(e, NanosPerSecond, q, dn + cor * NanosPerSecond);
    assert 0 <= q < TwoTo32;
    DivUnique(q, TwoTo32, 0, q);
  }

  /** Euclidean division is determined by quotient and remainder. */
  lemma DivUnique(a: int, b: int, q: int, r: int)
    requires b > 0
    requires a == q * b + r && 0 <= r < b
    ensures a / b == q && a % b == r
  {
    var q', r' := a / b, a % b;
    assert a == q' * b + r';
    if q' > q {
      MulAtLeast(q' - q, b);
    } else if q' < q {
      MulAtLeast(q - q', b);
    }
  }

  lemma {:induction false} MulAtLeast(k: int, b: int)
    requires k >= 1 && b >= 0
    ensures k * b >= b
  {
    if k > 1 {
      MulAtLeast(k - 1, b);
      assert k * b == (k - 1) * b + b;
    }
  }

  /** The millisecond count the spin loop of `busyWait` compares against its
      deadline, as written: the nanosecond difference, converted to
      microseconds, is SUBTRACTED from the whole-second part. */
  function BusyWaitMillisAsWritten(start: Timespec, now: Timespec): (ms: int)
    ensures now.sec == start.sec && now.nsec >= start.nsec ==> ms <= 0
  {
    CDiv((now.sec - start.sec) * 1_000_000 - CDiv(now.nsec - start.nsec, 1000), 1000)
  }

  /** The same count with the nanosecond difference added, as the elapsed time requires. */
  function BusyWaitMillis(start: Timespec, now: Timespec): int {
    CDiv((now.sec - start.sec) * 1_000_000 + CDiv(now.nsec - start.nsec, 1000), 1000)
  }

  /** Half a second after the start, within the same second, the expression
      as written reads -500 ms where 500 ms have passed; the corrected one reads 500. */
  lemma BusyWaitMillisAsWrittenIsNegative()
    ensures var start, now := Timespec(0, 0), Timespec(0, 500_000_000);
      Normalised(start) && Normalised(now) &&
      (TotalNanos(now) - TotalNanos(start)) / 1_000_000 == 500 &&
      BusyWaitMillisAsWritten(start, now) == -500 &&
      BusyWaitMillis(start, now) == 500
  {
  }

  /** With the sign corrected, the count is the elapsed time in whole
      milliseconds, or one more: the only error left is the truncation of a
      negative nanosecond difference toward zero. */
  lemma BusyWaitMillisBounds(start: Timespec, now: Timespec)
    requires Normalised(start) && Normalised(now)
    requires TotalNanos(start) <= TotalNanos(now)
    ensures var ms := (TotalNanos(now) - TotalNanos(start)) / 1_000_000;
      ms <= BusyWaitMillis(start, now) <= ms + 1
  {
    var d := now.sec - start.sec;
    var dn := now.nsec - start.nsec;
    var e := TotalNanos(now) - TotalNanos(start);
    assert e == d * NanosPerSecond + dn;
    var micros := d * 1_000_000 + CDiv(dn, 1000);
    var f := e / 1000;
    if dn >= 0 {
      DivUnique(e, 1000, d * 1_000_000 + dn / 1000, dn % 1000);
      assert micros == f;
    } else {
      var q, r := (-dn) / 1000, (-dn) % 1000;
      assert micros == d * 1_000_000 - q;
      if r == 0 {
        DivUnique(e, 1000, micros, 0);
      } else {
        DivUnique(e, 1000, micros - 1, 1000 - r);
      }
      assert f <= micros <= f + 1;
    }
    assert f >= 0 && micros >= 0;
    DivUnique(e, 1_000_000, f / 1000, (f % 1000) * 1000 + e % 1000);
    assert BusyWaitMillis(start, now) == micros / 1000;
    if micros == f + 1 {
      DivStep(f, 1000);
    }
  }

  /** Adding one to a non-negative dividend adds at most one to the quotient. */
  lemma DivStep(a: int, b: int)
    requires a >= 0 && b > 0
    ensures a / b <= (a + 1) / b <= a / b + 1
  {
    if a % b == b - 1 {
      DivUnique(a + 1, b, a / b + 1, 0);
    } else {
      DivUnique(a + 1, b, a / b, a % b + 1);
    }
  }
}
