/** Shortening an interval timer by elapsed time (src/timescale.c).

    Times are uint64_t nanoseconds, so the multiplications wrap at 2^64; the results are about
    timers that fit. */
module IntervalTimer {
  import opened Modular

  const WRAP: nat := 0x1_0000_0000_0000_0000

  datatype TimeVal = TimeVal(sec: nat, usec: nat)

  datatype Timer = Timer(value: TimeVal, interval: TimeVal)

  /** ert_timeValToNanoSeconds */
  function ToNanoSeconds(tv: TimeVal): nat {
    ((tv.sec * 1000 * 1000 + tv.usec) * 1000) % WRAP
  }

  /** ert_timeValFromNanoSeconds: the part below a microsecond is dropped. */
  function FromNanoSeconds(ns: nat): TimeVal {
    TimeVal(ns / 1_000_000_000, ns % 1_000_000_000 / 1000)
  }

  /** Less the part below a microsecond. */
  function Whole(ns: nat): nat {
    ns - ns % 1000
  }

  predicate Fits(tv: TimeVal) {
    tv.usec < 1_000_000 && (tv.sec * 1_000_000 + tv.usec) * 1000 < WRAP
  }

  predicate TimerFits(t: Timer) {
    Fits(t.value) && Fits(t.interval)
  }

  /** ert_shortenIntervalTime */
  function Shorten(timer: Timer, elapsed: nat): Timer {
    var alarmTime := ToNanoSeconds(timer.value);
    var alarmPeriod := ToNanoSeconds(timer.interval);
    if alarmTime > elapsed then
      timer.(value := FromNanoSeconds(alarmTime - elapsed))
    else if alarmTime != 0 then
      if alarmPeriod == 0 then timer.(value := timer.interval)
      else timer.(value := FromNanoSeconds(alarmPeriod - (elapsed - alarmTime) % alarmPeriod))
    else timer
  }

  /** The time to the next firing, in exact nanoseconds; 0 for a disarmed timer. */
  function Remaining(value: nat, period: nat, elapsed: nat): nat {
    if value > elapsed then value - elapsed
    else if value == 0 || period == 0 then 0
    else period - (elapsed - value) % period
  }

  /** Does a timer with that value fire t nanoseconds from now? */
  predicate FiresAt(value: nat, period: nat, t: nat) {
    value != 0 && (t == value || (period != 0 && value <= t && (t - value) % period == 0))
  }

  predicate Fires(timer: Timer, t: nat) {
    FiresAt(ToNanoSeconds(timer.value), ToNanoSeconds(timer.interval), t)
  }

  // The conversions.

  lemma InRange(tv: TimeVal)
    requires (tv.sec * 1_000_000 + tv.usec) * 1000 < WRAP
    ensures ToNanoSeconds(tv) == (tv.sec * 1_000_000 + tv.usec) * 1000
  {
  }

  lemma FittingNanoSeconds(tv: TimeVal)
    requires Fits(tv)
    ensures ToNanoSeconds(tv) == (tv.sec * 1_000_000 + tv.usec) * 1000
    ensures ToNanoSeconds(tv) % 1000 == 0 && ToNanoSeconds(tv) < WRAP
    ensures FromNanoSeconds(ToNanoSeconds(tv)) == tv
  {
    InRange(tv);
    WholeSeconds(tv.sec, tv.usec);
  }

  lemma WholeSeconds(sec: nat, usec: nat)
    requires usec < 1_000_000
    ensures var ns := (sec * 1_000_000 + usec) * 1000;
            ns % 1000 == 0 && ns / 1_000_000_000 == sec && ns % 1_000_000_000 == usec * 1000
  {
    var ns := (sec * 1_000_000 + usec) * 1000;
    ModIs(ns, sec * 1_000_000 + usec, 1000, 0);
    ModIs(ns, sec, 1_000_000_000, usec * 1000);
  }

  lemma MicroSeconds(ns: nat)
    ensures var tv := FromNanoSeconds(ns); tv.usec < 1_000_000 && (tv.sec * 1_000_000 + tv.usec) * 1000 == Whole(ns)
  {
    var sec, rest := ns / 1_000_000_000, ns % 1_000_000_000;
    var usec, part := rest / 1000, rest % 1000;
    assert ns == (sec * 1_000_000 + usec) * 1000 + part;
    ModIs(ns, sec * 1_000_000 + usec, 1000, part);
  }

  lemma ThereAndBack(ns: nat)
    requires ns < WRAP
    ensures Fits(FromNanoSeconds(ns)) && ToNanoSeconds(FromNanoSeconds(ns)) == Whole(ns)
  {
    MicroSeconds(ns);
    InRange(FromNanoSeconds(ns));
  }

  // In exact nanoseconds.

  lemma RemainingAdds(value: nat, period: nat, a: nat, b: nat)
    ensures Remaining(Remaining(value, period, a), period, b) == Remaining(value, period, a + b)
  {
    if 0 < value <= a && 0 < period {
      var q, r := (a - value) / period, (a - value) % period;
      assert a - value == q * period + r;
      if r + b < period {
        ModIs(a + b - value, q, period, r + b);
      } else {
        ModShift(b + r - period, q + 1, period);
        assert a + b - value == b + r - period + (q + 1) * period;
      }
    }
  }

  function Left(timer: Timer, elapsed: nat): nat {
    Remaining(ToNanoSeconds(timer.value), ToNanoSeconds(timer.interval), elapsed)
  }

  /** The shortened value is the exact remaining time, less the part below a microsecond. */
  lemma ShortenedValue(timer: Timer, elapsed: nat)
    requires TimerFits(timer)
    ensures TimerFits(Shorten(timer, elapsed))
    ensures Shorten(timer, elapsed).interval == timer.interval
    ensures ToNanoSeconds(Shorten(timer, elapsed).value) == Whole(Left(timer, elapsed))
  {
    ShortenIs(timer, elapsed);
    ThereAndBack(Left(timer, elapsed));
  }

  lemma ShortenIs(timer: Timer, elapsed: nat)
    requires TimerFits(timer)
    ensures Left(timer, elapsed) < WRAP
    ensures Shorten(timer, elapsed) == timer.(value := FromNanoSeconds(Left(timer, elapsed)))
  {
    FittingNanoSeconds(timer.value);
    FittingNanoSeconds(timer.interval);
  }

  /** Nothing is lost below a microsecond when whole microseconds elapse, or nothing is left. */
  lemma WholeMicroSeconds(timer: Timer, elapsed: nat)
    requires TimerFits(timer)
    ensures Left(timer, elapsed) % 1000 == 0 <==> (Left(timer, elapsed) == 0 || elapsed % 1000 == 0)
  {
    FittingNanoSeconds(timer.value);
    FittingNanoSeconds(timer.interval);
    RemainingWhole(ToNanoSeconds(timer.value), ToNanoSeconds(timer.interval), elapsed);
  }

  lemma SumWhole(x: nat, y: nat)
    requires (x + y) % 1000 == 0
    ensures x % 1000 == 0 <==> y % 1000 == 0
  {
  }

  lemma RemainingWhole(value: nat, period: nat, elapsed: nat)
    requires value % 1000 == 0 && period % 1000 == 0
    ensures Remaining(value, period, elapsed) % 1000 == 0
            <==> (Remaining(value, period, elapsed) == 0 || elapsed % 1000 == 0)
  {
    var left := Remaining(value, period, elapsed);
    if 0 < value <= elapsed && 0 < period {
      var q := (elapsed - value) / period;
      assert elapsed - value == q * period + (elapsed - value) % period;
      assert left + elapsed == value + (q + 1) * period;
      var m := period / 1000;
      assert (q + 1) * period == (q + 1) * m * 1000 by { assert period == m * 1000; }
      ModShift(value, (q + 1) * m, 1000);
    }
    if left != 0 {
      SumWhole(left, elapsed);
    }
  }

  /** A periodic timer that has expired is due again within one period. */
  lemma PeriodicStaysArmed(timer: Timer, elapsed: nat)
    requires TimerFits(timer) && elapsed % 1000 == 0
    requires 0 < ToNanoSeconds(timer.value) <= elapsed && 0 < ToNanoSeconds(timer.interval)
    ensures 0 < ToNanoSeconds(Shorten(timer, elapsed).value) <= ToNanoSeconds(timer.interval)
  {
    ShortenedValue(timer, elapsed);
    WholeMicroSeconds(timer, elapsed);
  }

  /** For any elapsed time: the result is armed exactly when at least a microsecond is left. */
  lemma ArmedIff(timer: Timer, elapsed: nat)
    requires TimerFits(timer)
    ensures ToNanoSeconds(Shorten(timer, elapsed).value) != 0 <==> 1000 <= Left(timer, elapsed)
  {
    ShortenedValue(timer, elapsed);
    WholeNonZero(Left(timer, elapsed));
  }

  lemma WholeNonZero(ns: nat)
    ensures Whole(ns) != 0 <==> 1000 <= ns
  {
  }

  /** So a timer that has not fired can come back disarmed. */
  lemma ArmedTimerLost()
    ensures var timer := Timer(TimeVal(0, 1), TimeVal(1, 0));
            && TimerFits(timer) && Left(timer, 1) == 999
            && Shorten(timer, 1).value == TimeVal(0, 0)
            && (forall t: nat :: !Fires(Shorten(timer, 1), t))
            && Fires(timer, 1000)
  {
    var timer := Timer(TimeVal(0, 1), TimeVal(1, 0));
    assert ToNanoSeconds(timer.value) == 1000 && ToNanoSeconds(timer.interval) == 1_000_000_000;
    assert Shorten(timer, 1) == Timer(TimeVal(0, 0), TimeVal(1, 0));
    NeverFires(Shorten(timer, 1));
  }

  lemma NeverFires(timer: Timer)
    requires ToNanoSeconds(timer.value) == 0
    ensures forall t: nat :: !Fires(timer, t)
  {
  }

  lemma FiresShifted(value: nat, period: nat, e: nat, t: nat)
    requires t > 0
    ensures FiresAt(Remaining(value, period, e), period, t) <==> FiresAt(value, period, t + e)
  {
    if 0 < value <= e && 0 < period {
      PhaseShifted(e - value, period, t);
    }
  }

  /** Past times later than a firing: the next one is left away, and what follows keeps step with it. */
  lemma PhaseShifted(past: nat, period: nat, t: nat)
    requires period > 0 && t > 0
    ensures var left := period - past % period;
            (left <= t && (t - left) % period == 0) <==> (t + past) % period == 0
    ensures period - past % period == t ==> (t + past) % period == 0
  {
    var q, r := past / period, past % period;
    var left := period - r;
    assert past == q * period + r;
    assert t + past == (t - left) + (q + 1) * period;
    ModShift(t - left, q + 1, period);
    if t < left {
      ModIs(t - left, -1, period, t + r);
    }
  }

  /** Shortening keeps the phase: the shortened timer fires at just the times at which the old
      one would have, seen from now on.  That is so exactly when no part below a microsecond of
      the remaining time had to be dropped. */
  lemma PhaseKeptIff(timer: Timer, elapsed: nat)
    requires TimerFits(timer)
    ensures (forall t: nat :: t > 0 ==> (Fires(Shorten(timer, elapsed), t) <==> Fires(timer, t + elapsed)))
            <==> (Left(timer, elapsed) == 0 || elapsed % 1000 == 0)
  {
    var value, period, left := ToNanoSeconds(timer.value), ToNanoSeconds(timer.interval), Left(timer, elapsed);
    WholeMicroSeconds(timer, elapsed);
    if left % 1000 == 0 {
      forall t: nat | t > 0 ensures Fires(Shorten(timer, elapsed), t) <==> Fires(timer, t + elapsed) {
        FiresShortened(timer, elapsed, t);
      }
    } else {
      FittingNanoSeconds(timer.interval);
      FiresShortened(timer, elapsed, left);
      PartMisses(left, period);
    }
  }

  /** The shortened timer and the old one, each as its value in nanoseconds says. */
  lemma FiresShortened(timer: Timer, elapsed: nat, t: nat)
    requires TimerFits(timer) && t > 0
    ensures var period, left := ToNanoSeconds(timer.interval), Left(timer, elapsed);
            && (Fires(Shorten(timer, elapsed), t) <==> FiresAt(Whole(left), period, t))
            && (Fires(timer, t + elapsed) <==> FiresAt(left, period, t))
  {
    ShortenedValue(timer, elapsed);
    FiresShifted(ToNanoSeconds(timer.value), ToNanoSeconds(timer.interval), elapsed, t);
  }

  lemma PartMisses(left: nat, period: nat)
    requires left % 1000 != 0 && period % 1000 == 0
    ensures FiresAt(left, period, left) && !FiresAt(Whole(left), period, left)
  {
    if period != 0 {
      ModIs(left % 1000, 0, period, left % 1000);
    }
  }

  lemma SameTimer(s: Timer, t: Timer)
    requires TimerFits(s) && TimerFits(t) && s.interval == t.interval
    ensures s == t <==> ToNanoSeconds(s.value) == ToNanoSeconds(t.value)
  {
    FittingNanoSeconds(s.value);
    FittingNanoSeconds(t.value);
  }

  /** Two shortenings and one, in nanoseconds. */
  lemma ActionInNanoSeconds(timer: Timer, a: nat, b: nat)
    requires TimerFits(timer)
    ensures var left, period := Left(timer, a), ToNanoSeconds(timer.interval);
            Shorten(Shorten(timer, a), b) == Shorten(timer, a + b)
            <==> Whole(Remaining(Whole(left), period, b)) == Whole(Remaining(left, period, b))
  {
    ShortenedValue(timer, a);
    ShortenedValue(timer, a + b);
    ShortenedAgain(timer, Shorten(timer, a), Left(timer, a), b);
    RemainingAdds(ToNanoSeconds(timer.value), ToNanoSeconds(timer.interval), a, b);
    SameTimer(Shorten(Shorten(timer, a), b), Shorten(timer, a + b));
  }

  lemma ShortenedAgain(timer: Timer, mid: Timer, left: nat, b: nat)
    requires TimerFits(mid) && mid.interval == timer.interval && ToNanoSeconds(mid.value) == Whole(left)
    ensures TimerFits(Shorten(mid, b)) && Shorten(mid, b).interval == timer.interval
    ensures ToNanoSeconds(Shorten(mid, b).value) == Whole(Remaining(Whole(left), ToNanoSeconds(timer.interval), b))
  {
    ShortenedValue(mid, b);
  }

  /** Shortening by a and then by b is shortening by a + b when a is whole microseconds. */
  lemma ShortenIsAction(timer: Timer, a: nat, b: nat)
    requires TimerFits(timer)
    requires Left(timer, a) == 0 || a % 1000 == 0
    ensures Shorten(Shorten(timer, a), b) == Shorten(timer, a + b)
  {
    WholeMicroSeconds(timer, a);
    ActionInNanoSeconds(timer, a, b);
  }

  /** The elapsed times for which that holds whatever b is, exactly. */
  lemma ShortenIsActionIff(timer: Timer, a: nat)
    requires TimerFits(timer)
    ensures (forall b: nat :: Shorten(Shorten(timer, a), b) == Shorten(timer, a + b))
            <==> (Left(timer, a) == 0 || a % 1000 == 0
                  || (Left(timer, a) < 1000 && ToNanoSeconds(timer.interval) == 0))
  {
    var left, period := Left(timer, a), ToNanoSeconds(timer.interval);
    WholeMicroSeconds(timer, a);
    FittingNanoSeconds(timer.interval);
    if left % 1000 == 0 || (left < 1000 && period == 0) {
      forall b: nat ensures Shorten(Shorten(timer, a), b) == Shorten(timer, a + b) {
        ActionKept(timer, a, b);
      }
    } else {
      ActionLost(timer, a, if left < 1000 then left else 1);
    }
  }

  lemma ActionKept(timer: Timer, a: nat, b: nat)
    requires TimerFits(timer)
    requires Left(timer, a) % 1000 == 0 || (Left(timer, a) < 1000 && ToNanoSeconds(timer.interval) == 0)
    ensures Shorten(Shorten(timer, a), b) == Shorten(timer, a + b)
  {
    NothingLost(Left(timer, a), ToNanoSeconds(timer.interval), b);
    ActionInNanoSeconds(timer, a, b);
  }

  lemma ActionLost(timer: Timer, a: nat, b: nat)
    requires TimerFits(timer) && Left(timer, a) % 1000 != 0 && ToNanoSeconds(timer.interval) % 1000 == 0
    requires b == if Left(timer, a) < 1000 then Left(timer, a) else 1
    requires Left(timer, a) < 1000 ==> ToNanoSeconds(timer.interval) != 0
    ensures Shorten(Shorten(timer, a), b) != Shorten(timer, a + b)
  {
    PartLost(Left(timer, a), ToNanoSeconds(timer.interval), b);
    ActionInNanoSeconds(timer, a, b);
  }

  lemma NothingLost(left: nat, period: nat, b: nat)
    requires left % 1000 == 0 || (left < 1000 && period == 0)
    ensures Whole(Remaining(Whole(left), period, b)) == Whole(Remaining(left, period, b))
  {
  }

  lemma PartLost(left: nat, period: nat, b: nat)
    requires left % 1000 != 0 && period % 1000 == 0
    requires b == if left < 1000 then left else 1
    requires left < 1000 ==> period != 0
    ensures Whole(Remaining(Whole(left), period, b)) != Whole(Remaining(left, period, b))
  {
    if left < 1000 {
      assert (b - left) % period == 0;
    } else {
      var q, r := left / 1000, left % 1000;
      assert left == q * 1000 + r;
      ModIs(q * 1000 - 1, q - 1, 1000, 999);
      ModIs(left - 1, q, 1000, r - 1);
    }
  }
}
