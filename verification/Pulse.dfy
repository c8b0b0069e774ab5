/** The `pulse` function of sim.c and what a stock fed by it accumulates. */
module Pulse {
  function Times(i: int, b: real): real {
    i as real * b
  }

  /** The instant of the pulse with number `i`; an interval of zero or less means a single pulse. */
  function Instant(first: real, interval: real, i: nat): real {
    if interval > 0.0 then first + Times(i, interval) else first
  }

  /** How many pulse instants there are at or before a time. */
  function Count(first: real, interval: real, time: real): (n: nat)
    ensures n > 0 <==> time >= first
  {
    if time < first then 0
    else if interval <= 0.0 then 1
    else
      QuotientSign(time - first, interval);
      ((time - first) / interval).Floor + 1
  }

  lemma QuotientSign(a: real, b: real)
    requires a >= 0.0 && b > 0.0
    ensures a / b >= 0.0
  {
  }

  /** Whether a step at `time` is the one that delivers a pulse. */
  predicate Fires(dt: real, time: real, first: real, interval: real) {
    Count(first, interval, time) > 0 &&
    time < Instant(first, interval, Count(first, interval, time) - 1) + dt
  }

  /** Dividing by a positive number keeps the order. */
  lemma DivideOrder(a: real, y: real, b: real)
    requires b > 0.0
    ensures a / b < y ==> a < y * b
    ensures y <= a / b ==> y * b <= a
  {
    var q := a / b;
    var d := y - q;
    assert y * b == q * b + d * b;
    assert q * b == a;
    assert d > 0.0 ==> d * b > 0.0;
    assert d <= 0.0 ==> d * b <= 0.0;
  }

  lemma DivideInt(a: real, i: int, b: real)
    requires b > 0.0
    ensures a / b < i as real ==> a < Times(i, b)
    ensures i as real <= a / b ==> Times(i, b) <= a
  {
    DivideOrder(a, i as real, b);
  }

  lemma AtLeastOnce(k: real, b: real)
    requires k >= 1.0 && b > 0.0
    ensures k * b >= b
  {
    assert (k - 1.0) * b >= 0.0;
  }

  lemma TimesAdds(i: int, j: int, b: real)
    ensures Times(i + j, b) == Times(i, b) + Times(j, b)
  {
    assert (i + j) as real == i as real + j as real;
  }

  lemma ScaleInt(i: int, j: int, b: real)
    requires b > 0.0
    ensures i <= j ==> Times(i, b) <= Times(j, b)
    ensures i < j ==> Times(i, b) + b <= Times(j, b)
  {
    if i < j {
      AtLeastOnce((j - i) as real, b);
      TimesAdds(i, j - i, b);
    }
  }

  /** The count brackets the time. */
  lemma CountTimes(first: real, interval: real, time: real)
    requires interval > 0.0 && time >= first
    ensures var n := Count(first, interval, time);
            n > 0 && Times(n - 1, interval) <= time - first < Times(n, interval)
  {
    var q := (time - first) / interval;
    QuotientSign(time - first, interval);
    DivideInt(time - first, q.Floor, interval);
    DivideInt(time - first, q.Floor + 1, interval);
  }

  /** The counted instants are exactly those at or before the time. */
  lemma CountIsExact(first: real, interval: real, time: real, i: nat)
    requires interval > 0.0
    ensures i < Count(first, interval, time) <==> Instant(first, interval, i) <= time
  {
    if time >= first {
      CountTimes(first, interval, time);
      var n := Count(first, interval, time);
      ScaleInt(i, n - 1, interval);
      ScaleInt(n, i, interval);
    } else {
      ScaleInt(0, i, interval);
    }
  }

  /** Later instants are at least an interval later. */
  lemma InstantOrder(first: real, interval: real, i: nat, j: nat)
    requires interval > 0.0
    ensures i <= j ==> Instant(first, interval, i) <= Instant(first, interval, j)
    ensures i < j ==> Instant(first, interval, i) + interval <= Instant(first, interval, j)
  {
    ScaleInt(i, j, interval);
  }

  /** The last instant that is due is due. */
  lemma LastIsDue(first: real, interval: real, time: real)
    requires Count(first, interval, time) > 0
    ensures Instant(first, interval, Count(first, interval, time) - 1) <= time
  {
    if interval > 0.0 {
      CountIsExact(first, interval, time, Count(first, interval, time) - 1);
    }
  }

  lemma InstantFires(dt: real, time: real, first: real, interval: real, i: nat)
    requires dt > 0.0 && (interval > 0.0 || i == 0) && time - dt < Instant(first, interval, i) <= time
    ensures Fires(dt, time, first, interval)
  {
    if interval > 0.0 {
      CountIsExact(first, interval, time, i);
      InstantOrder(first, interval, i, Count(first, interval, time) - 1);
    }
  }

  /** A step fires exactly when some pulse instant lies in the half-open step that ends at it. */
  lemma FiresIffInstant(dt: real, time: real, first: real, interval: real)
    requires dt > 0.0
    ensures Fires(dt, time, first, interval)
       <==> exists i: nat :: (interval > 0.0 || i == 0) && time - dt < Instant(first, interval, i) <= time
  {
    if Fires(dt, time, first, interval) {
      LastIsDue(first, interval, time);
      var i := Count(first, interval, time) - 1;
      assert (interval > 0.0 || i == 0) && time - dt < Instant(first, interval, i) <= time;
    }
    if i: nat :| (interval > 0.0 || i == 0) && time - dt < Instant(first, interval, i) <= time {
      InstantFires(dt, time, first, interval, i);
    }
  }

  /** What one turn of the loop of `RtPulse` learns at pulse number `i`. */
  lemma PulseTurn(dt: real, time: real, first: real, interval: real, i: nat)
    requires dt > 0.0 && interval > 0.0
    ensures Instant(first, interval, i) <= time <==> i < Count(first, interval, time)
    ensures Instant(first, interval, i + 1) == Instant(first, interval, i) + interval
    ensures Instant(first, interval, i) <= time < Instant(first, interval, i) + dt ==> Fires(dt, time, first, interval)
  {
    CountIsExact(first, interval, time, i);
    ScaleInt(i, Count(first, interval, time) - 1, interval);
  }

  /** What a firing step returns. */
  function Rate(magnitude: real, dt: real): real
    requires dt > 0.0
  {
    magnitude / dt
  }

  /** The loop of sim.c; it ends because the instants left before `time` are counted down. */
  method RtPulse(dt: real, time: real, magnitude: real, first: real, interval: real) returns (v: real)
    requires dt > 0.0
    ensures v == if Fires(dt, time, first, interval) then Rate(magnitude, dt) else 0.0
  {
    if time < first {
      return 0.0;
    }
    var next := first;
    ghost var i := 0;
    ghost var n := Count(first, interval, time);
    while time >= next
      invariant next == Instant(first, interval, i)
      invariant interval <= 0.0 ==> i == 0
      invariant i <= n
      invariant i > 0 ==> time >= Instant(first, interval, i - 1) + dt
      decreases n - i
    {
      if interval > 0.0 {
        PulseTurn(dt, time, first, interval, i);
      }
      if time < next + dt {
        return Rate(magnitude, dt);
      } else if interval <= 0.0 {
        break;
      } else {
        next := next + interval;
        i := i + 1;
      }
    }
    if interval > 0.0 {
      PulseTurn(dt, time, first, interval, i);
    }
    return 0.0;
  }

  /** The time of step `k`; step -1 is the step before the run starts. */
  function StepTime(dt: real, start: real, k: int): real {
    start + Times(k, dt)
  }

  lemma StepTimeAdds(dt: real, start: real, i: int, j: int)
    ensures StepTime(dt, start, i + j) == StepTime(dt, start, i) + Times(j, dt)
  {
    TimesAdds(i, j, dt);
  }

  /** How many of the steps 0..steps-1 of a run fire. */
  function FiredSteps(dt: real, start: real, first: real, interval: real, steps: nat): nat {
    if steps == 0 then 0
    else FiredSteps(dt, start, first, interval, steps - 1)
         + if Fires(dt, StepTime(dt, start, steps - 1), first, interval) then 1 else 0
  }

  lemma CountOrder(first: real, interval: real, early: real, late: real)
    requires early <= late
    ensures Count(first, interval, early) <= Count(first, interval, late)
  {
    var m := Count(first, interval, early);
    if interval > 0.0 && m > 0 {
      LastIsDue(first, interval, early);
      CountIsExact(first, interval, late, m - 1);
    }
  }

  /** A step that does not fire makes nothing due. */
  lemma NothingDue(dt: real, time: real, first: real, interval: real)
    requires dt > 0.0 && !Fires(dt, time, first, interval)
    ensures Count(first, interval, time) == Count(first, interval, time - dt)
  {
    CountOrder(first, interval, time - dt, time);
    var n := Count(first, interval, time);
    if interval > 0.0 && n > 0 {
      CountIsExact(first, interval, time - dt, n - 1);
    }
  }

  /** A step that fires makes one instant due, when the instants are at least a step apart. */
  lemma OneIsDue(dt: real, time: real, first: real, interval: real)
    requires dt > 0.0 && (interval <= 0.0 || interval >= dt) && Fires(dt, time, first, interval)
    ensures Count(first, interval, time) == Count(first, interval, time - dt) + 1
  {
    var n := Count(first, interval, time);
    if interval > 0.0 {
      CountIsExact(first, interval, time - dt, n - 1);
      LastIsDue(first, interval, time);
      if n > 1 {
        CountIsExact(first, interval, time - dt, n - 2);
        InstantOrder(first, interval, n - 2, n - 1);
      }
    }
  }

  /** With instants at least a step apart, a step fires once for the one instant that became due. */
  lemma OneInstantPerStep(dt: real, time: real, first: real, interval: real)
    requires dt > 0.0 && (interval <= 0.0 || interval >= dt)
    ensures Count(first, interval, time)
         == Count(first, interval, time - dt) + if Fires(dt, time, first, interval) then 1 else 0
  {
    if Fires(dt, time, first, interval) {
      OneIsDue(dt, time, first, interval);
    } else {
      NothingDue(dt, time, first, interval);
    }
  }

  /** No instant is lost and none fires twice: the firing steps so far are the instants that came due. */
  lemma {:induction false} FiredStepsCountInstants(dt: real, start: real, first: real, interval: real, steps: nat)
    requires dt > 0.0 && (interval <= 0.0 || interval >= dt)
    ensures FiredSteps(dt, start, first, interval, steps)
         == Count(first, interval, StepTime(dt, start, steps - 1)) - Count(first, interval, StepTime(dt, start, -1))
  {
    if steps > 0 {
      FiredStepsCountInstants(dt, start, first, interval, steps - 1);
      OneInstantPerStep(dt, StepTime(dt, start, steps - 1), first, interval);
      StepTimeAdds(dt, start, steps - 2, 1);
    }
  }

  lemma FiredStepsBounded(dt: real, start: real, first: real, interval: real, steps: nat)
    ensures FiredSteps(dt, start, first, interval, steps) <= steps
  {
  }

  /** Some multiple of a positive number reaches any bound. */
  lemma Archimedes(d: real, bound: real) returns (k: nat)
    requires d > 0.0 && bound > 0.0
    ensures Times(k, d) >= bound
  {
    k := (bound / d).Floor + 1;
    DivideInt(bound, k, d);
  }

  /** The instants counted at a time bracket it. */
  lemma CountBrackets(first: real, interval: real, time: real)
    requires interval > 0.0
    ensures Times(Count(first, interval, time), interval) > time - first
    ensures Count(first, interval, time) > 0 ==> Times(Count(first, interval, time), interval) <= time - first + interval
  {
    var n := Count(first, interval, time);
    if time >= first {
      CountTimes(first, interval, time);
      TimesAdds(n - 1, 1, interval);
      assert Times(1, interval) == interval;
    } else {
      assert Times(0, interval) == 0.0;
    }
  }

  /** Instants closer together than a step outrun the steps: a long enough run loses some. */
  lemma CloseInstantsAreLost(dt: real, start: real, first: real, interval: real) returns (steps: nat)
    requires 0.0 < interval < dt
    ensures FiredSteps(dt, start, first, interval, steps)
          < Count(first, interval, StepTime(dt, start, steps - 1)) - Count(first, interval, StepTime(dt, start, -1))
  {
    var early := StepTime(dt, start, -1);
    steps := Archimedes(dt - interval, if early < first then first - early else interval);
    var late := StepTime(dt, start, steps - 1);
    StepTimeAdds(dt, start, -1, steps);
    var n, m := Count(first, interval, late), Count(first, interval, early);
    CountBrackets(first, interval, late);
    CountBrackets(first, interval, early);
    Outrun(n, m, steps, interval, dt, late - first, early - first);
    FiredStepsBounded(dt, start, first, interval, steps);
  }

  /** The arithmetic of `CloseInstantsAreLost`, on the distances from the first instant. */
  lemma Outrun(n: nat, m: nat, steps: nat, interval: real, dt: real, late: real, early: real)
    requires interval > 0.0 && Times(n, interval) > late && late == early + Times(steps, dt)
    requires if early < 0.0 then m == 0 else Times(m, interval) <= early + interval
    requires Times(steps, dt - interval) >= if early < 0.0 then -early else interval
    ensures n > m + steps
  {
    assert Times(steps, dt - interval) == Times(steps, dt) - Times(steps, interval);
    TimesAdds(m, steps, interval);
    assert Times(0, interval) == 0.0;
    ScaleInt(n, m + steps, interval);
  }

  /** The firing steps count the instants of every run exactly when no two instants share a step. */
  lemma FiredStepsAreExact(dt: real, start: real, first: real, interval: real)
    requires dt > 0.0
    ensures (forall steps: nat :: FiredSteps(dt, start, first, interval, steps)
              == Count(first, interval, StepTime(dt, start, steps - 1)) - Count(first, interval, StepTime(dt, start, -1)))
       <==> interval <= 0.0 || interval >= dt
  {
    if interval <= 0.0 || interval >= dt {
      forall steps: nat {
        FiredStepsCountInstants(dt, start, first, interval, steps);
      }
    } else {
      var steps := CloseInstantsAreLost(dt, start, first, interval);
    }
  }
}
