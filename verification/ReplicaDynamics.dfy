/**
 What repeated syncs do when nothing but the worker count changes: the orbit of
 GetDesiredWorkers, its fixed points and its reaction to changed inputs.
 */
module ReplicaDynamics {
  import opened Orbits
  import opened Replicas

  // The inputs a resource is meant to carry: a positive target and
  // non-negative bounds and limits.
  ghost predicate Sensible(x: Inputs) {
    && x.targetMessagesPerWorker > 0
    && x.minWorkers >= 0
    && x.maxWorkers >= 0
    && LimitIsNatural(x.maxDisruption)
  }

  ghost predicate LimitIsNatural(d: MaxDisruption) {
    match d
    case Abs(n) => n >= 0
    case Percent(p) => p >= 0
  }

  // One sync that scales to the desired count, everything else held constant.
  ghost function Step(x: Inputs): int -> int
    requires x.targetMessagesPerWorker != 0
  {
    c => GetDesiredWorkers(x, c)
  }

  lemma LimitBounds(d: MaxDisruption, current: int)
    requires LimitIsNatural(d) && current >= 0
    ensures GetMaxDisruptableWorkers(d, current) >= 0
  {
    match d
    case Abs(n) =>
    case Percent(p) =>
      assert p * current >= 0;
  }

  lemma BacklogIsPositive(x: Inputs)
    requires x.targetMessagesPerWorker > 0
    ensures BacklogWorkers(x) >= 1 <==> x.queueMessages > 0
  {
    BacklogWorkersIsLeast(x, 0);
  }

  // ---------- Convergence without oscillation ----------

  lemma StepSettles(x: Inputs, current: int)
    requires Sensible(x) && current >= 0
    ensures SettlesAt(Step(x), current)
  {
    var next := GetDesiredWorkers(x, current);
    ClosedForm(x, current);
    ClosedForm(x, next);
    LimitBounds(x.maxDisruption, current);
    if next >= 0 {
      LimitBounds(x.maxDisruption, next);
    }
    BacklogIsPositive(x);
  }

  // The calculator settles: no step of it is the start of an oscillation.
  lemma Settling(x: Inputs)
    requires Sensible(x)
    ensures SettlesEverywhere(Step(x))
  {
    forall c | c >= 0 ensures SettlesAt(Step(x), c) {
      StepSettles(x, c);
    }
  }

  // Every orbit reaches a fixed point within max(1, start) steps and keeps it.
  lemma Convergence(x: Inputs, start: int, n: nat)
    requires Sensible(x) && start >= 0
    requires n >= 1 && n >= start
    ensures Settled(Step(x), Orbit(Step(x), start, n))
  {
    Settling(x);
    SettlesInTime(Step(x), start, n);
  }

  // No orbit reverses: it jumps up once and stays, or never goes up.
  lemma NoOscillation(x: Inputs, start: int, m: nat, n: nat)
    requires Sensible(x) && start >= 0 && m <= n
    ensures var o := (k: nat) => Orbit(Step(x), start, k);
      if GetDesiredWorkers(x, start) > start
      then m >= 1 ==> o(n) == o(m) == GetDesiredWorkers(x, start)
      else o(n) <= o(m)
  {
    Settling(x);
    if Step(x)(start) > start {
      if m >= 1 {
        JumpsOnce(Step(x), start, m);
        JumpsOnce(Step(x), start, n);
      }
    } else {
      NeverRises(Step(x), start, m, n);
    }
  }

  // ---------- Geometric descent ----------

  // A step that does not reach a fixed point removed the whole limit.
  lemma UnsettledStepIsLimited(x: Inputs, current: int)
    requires Sensible(x) && current >= 0
    requires GetDesiredWorkers(x, GetDesiredWorkers(x, current)) != GetDesiredWorkers(x, current)
    ensures GetDesiredWorkers(x, current) <= current - GetMaxDisruptableWorkers(x.maxDisruption, current)
  {
    var next := GetDesiredWorkers(x, current);
    ClosedForm(x, current);
    ClosedForm(x, next);
    LimitBounds(x.maxDisruption, current);
    LimitBounds(x.maxDisruption, next);
    BacklogIsPositive(x);
  }

  // With an absolute limit of n workers, start / n steps are enough.
  lemma LinearSettling(x: Inputs, start: int, limit: nat, n: nat)
    requires Sensible(x) && start >= 0 && x.maxDisruption == Abs(limit)
    requires n >= 1 && n * limit >= start
    ensures Settled(Step(x), Orbit(Step(x), start, n))
  {
    Settling(x);
    forall c | c >= 0 ensures DropsAt(Step(x), limit, c) {
      if !Settled(Step(x), Step(x)(c)) {
        UnsettledStepIsLimited(x, c);
      }
    }
    SettlesInLinearTime(Step(x), limit, start, n);
  }

  lemma PercentLimitLeaves(p: int, current: int)
    ensures 100 * (current - GetMaxDisruptableWorkers(Percent(p), current)) <= (100 - p) * current
  {
    assert (100 - p) * current == 100 * current - p * current;
    PercentLimit(p, current);
  }

  lemma PercentLimitShrinks(x: Inputs, p: int)
    requires Sensible(x) && x.maxDisruption == Percent(p) && p <= 100
    ensures ShrinksEverywhere(Step(x), 100 - p)
  {
    var rest: nat := 100 - p;
    forall c | c >= 0 ensures ShrinksAt(Step(x), rest, c) {
      if !Settled(Step(x), Step(x)(c)) {
        UnsettledStepIsLimited(x, c);
        PercentLimitLeaves(p, c);
      }
    }
  }

  // With a limit of p percent, an orbit state that has not settled is below
  // the geometric bound ((100 - p) / 100)^n * start.
  lemma GeometricBound(x: Inputs, start: int, p: int, n: nat)
    requires Sensible(x) && start >= 0 && x.maxDisruption == Percent(p) && p <= 100
    requires !Settled(Step(x), Orbit(Step(x), start, n))
    ensures Pow(100, n) * Orbit(Step(x), start, n) <= Pow(100 - p, n) * start
  {
    Settling(x);
    PercentLimitShrinks(x, p);
    GeometricDescent(Step(x), 100 - p, start, n);
  }

  // So the settling time is logarithmic in the starting count: n steps are
  // enough as soon as (100 / (100 - p))^n exceeds it.
  lemma LogarithmicSettling(x: Inputs, start: int, p: int, n: nat)
    requires Sensible(x) && start >= 0 && x.maxDisruption == Percent(p) && p <= 100
    requires n >= 1 && Pow(100, n) > Pow(100 - p, n) * start
    ensures Settled(Step(x), Orbit(Step(x), start, n))
  {
    Settling(x);
    PercentLimitShrinks(x, p);
    SettlesInLogarithmicTime(Step(x), 100 - p, start, n);
  }

  // ---------- Fixed points ----------

  // Exactly which counts are fixed points while there is a backlog.
  lemma BacklogFixedPoints(x: Inputs, current: int)
    requires Sensible(x) && current >= 0 && x.queueMessages > 0
    ensures GetDesiredWorkers(x, current) == current <==>
      var d, lo, hi := BacklogWorkers(x), EffectiveMin(x), x.maxWorkers;
      if lo >= hi then current == hi
      else
        && lo <= current <= hi
        && (|| (current > 0 && 10 * Max(d - current, current - d) <= current)
            || current == Min(hi, Max(lo, d))
            || (current > d && GetMaxDisruptableWorkers(x.maxDisruption, current) == 0))
  {
    ClosedForm(x, current);
    LimitBounds(x.maxDisruption, current);
    BacklogIsPositive(x);
  }

  // With a disruption limit of at least one worker the stuck case disappears:
  // a fixed point is inside the dead band or is the clamped backlog demand.
  lemma SteadyState(x: Inputs, current: int)
    requires Sensible(x) && current >= 0 && x.queueMessages > 0
    requires current >= 1 ==> GetMaxDisruptableWorkers(x.maxDisruption, current) >= 1
    ensures GetDesiredWorkers(x, current) == current <==>
      var d, lo, hi := BacklogWorkers(x), EffectiveMin(x), x.maxWorkers;
      || current == Min(hi, Max(lo, d))
      || (lo < hi && lo <= current <= hi && current > 0 && 10 * Max(d - current, current - d) <= current)
  {
    BacklogFixedPoints(x, current);
    BacklogIsPositive(x);
  }

  // Without a backlog the only fixed point is the effective minimum, cut at
  // the maximum, unless the disruption limit is zero.
  lemma IdleFixedPoints(x: Inputs, current: int)
    requires Sensible(x) && current >= 0 && x.queueMessages == 0
    ensures GetDesiredWorkers(x, current) == current <==>
      var lo, hi := EffectiveMin(x), x.maxWorkers;
      || current == Min(hi, lo)
      || (lo < current <= hi && !MassiveScaleDown(x, current)
          && GetMaxDisruptableWorkers(x.maxDisruption, current) == 0)
  {
    ClosedForm(x, current);
    LimitBounds(x.maxDisruption, current);
    BacklogWorkersIsLeast(x, 0);
    BacklogWorkersIsLeast(x, -1);
  }

  lemma FixedPointCoversBacklog(x: Inputs, current: int)
    requires Sensible(x) && current >= 0
    requires GetDesiredWorkers(x, current) == current && current < x.maxWorkers
    ensures EffectiveMin(x) <= current
    ensures x.queueMessages > 0 ==> 10 * BacklogWorkers(x) <= 11 * current
  {
    ClosedForm(x, current);
    LimitBounds(x.maxDisruption, current);
    BacklogIsPositive(x);
  }

  lemma Scaled(messages: int, workers: int, target: nat, current: nat)
    requires messages <= workers * target && 10 * workers <= 11 * current
    ensures 10 * messages <= 11 * current * target
  {
    MulMonotone(target, 10 * workers, 11 * current);
    assert target * (10 * workers) == 10 * (workers * target);
    assert target * (11 * current) == 11 * current * target;
  }

  // What a fixed point below the maximum guarantees: its workers carry the
  // backlog within the tolerance, and keep up with the rate of new messages.
  lemma SteadyStateServes(x: Inputs, current: int)
    requires Sensible(x) && current >= 0
    requires GetDesiredWorkers(x, current) == current && current < x.maxWorkers
    ensures 10 * x.queueMessages <= 11 * current * x.targetMessagesPerWorker
    ensures x.secondsToProcessOneJob != 0.0 ==>
              x.secondsToProcessOneJob * x.messagesSentPerMinute <= 60.0 * current as real
  {
    FixedPointCoversBacklog(x, current);
    EffectiveMinIsLeast(x, current);
    BacklogWorkersIsLeast(x, BacklogWorkers(x));
    if x.queueMessages > 0 {
      Scaled(x.queueMessages, BacklogWorkers(x), x.targetMessagesPerWorker, current);
    } else {
      Scaled(x.queueMessages, 0, x.targetMessagesPerWorker, current);
    }
  }

  ghost predicate Serves(x: Inputs, current: int) {
    current < x.maxWorkers ==>
      && x.minWorkers <= current
      && 10 * x.queueMessages <= 11 * current * x.targetMessagesPerWorker
      && (x.secondsToProcessOneJob != 0.0 ==>
            x.secondsToProcessOneJob * x.messagesSentPerMinute <= 60.0 * current as real)
  }

  lemma FixedPointServes(x: Inputs, current: int)
    requires Sensible(x) && current >= 0 && Settled(Step(x), current)
    ensures Serves(x, current)
  {
    if current < x.maxWorkers {
      SteadyStateServes(x, current);
      FixedPointCoversBacklog(x, current);
    }
  }

  // ---------- Reaction to changed inputs ----------

  lemma MonotoneInBacklog(x: Inputs, messages: int, target: int, current: int)
    requires x.targetMessagesPerWorker > 0 && current >= 0
    requires x.queueMessages <= messages && 0 < target <= x.targetMessagesPerWorker
    requires x.queueMessages >= 0
    ensures GetDesiredWorkers(x, current)
         <= GetDesiredWorkers(x.(queueMessages := messages, targetMessagesPerWorker := target), current)
  {
    var y := x.(queueMessages := messages, targetMessagesPerWorker := target);
    ClosedForm(x, current);
    ClosedForm(y, current);
    BacklogIsPositive(x);
    BacklogIsPositive(y);
    var r := BacklogWorkers(y);
    BacklogWorkersIsLeast(y, r);
    assert r >= 0 by { BacklogWorkersIsLeast(y, -1); }
    MulMonotone(r, target, x.targetMessagesPerWorker);
    BacklogWorkersIsLeast(x, r);
  }

  lemma MonotoneInRate(x: Inputs, rate: real, current: int)
    requires x.targetMessagesPerWorker > 0 && current >= 0
    requires x.secondsToProcessOneJob >= 0.0 && x.messagesSentPerMinute <= rate
    ensures GetDesiredWorkers(x, current) <= GetDesiredWorkers(x.(messagesSentPerMinute := rate), current)
  {
    var y := x.(messagesSentPerMinute := rate);
    ClosedForm(x, current);
    ClosedForm(y, current);
    EffectiveMinFollowsRate(x, rate);
  }

  lemma EffectiveMinFollowsRate(x: Inputs, rate: real)
    requires x.secondsToProcessOneJob >= 0.0 && x.messagesSentPerMinute <= rate
    ensures var y := x.(messagesSentPerMinute := rate);
      EffectiveMin(x) <= EffectiveMin(y) && (HasThroughput(y) ==> EffectiveMin(y) >= 1)
  {
    var y := x.(messagesSentPerMinute := rate);
    MulRealMonotone(x.secondsToProcessOneJob, x.messagesSentPerMinute, rate);
    EffectiveMinFollowsWork(x, y);
    ThroughputNeedsWorkers(y);
  }

  lemma MulRealMonotone(k: real, a: real, b: real)
    requires k >= 0.0 && a <= b
    ensures k * a <= k * b
    ensures k > 0.0 && b > 0.0 ==> k * b > 0.0
  {
  }

  // A longer processing time never leads to fewer workers either, also when it
  // switches the throughput floor on.
  lemma MonotoneInProcessingTime(x: Inputs, seconds: real, current: int)
    requires x.targetMessagesPerWorker > 0 && current >= 0
    requires 0.0 <= x.secondsToProcessOneJob <= seconds && x.messagesSentPerMinute >= 0.0
    ensures GetDesiredWorkers(x, current) <= GetDesiredWorkers(x.(secondsToProcessOneJob := seconds), current)
  {
    var y := x.(secondsToProcessOneJob := seconds);
    ClosedForm(x, current);
    ClosedForm(y, current);
    EffectiveMinFollowsProcessingTime(x, seconds);
  }

  lemma EffectiveMinFollowsProcessingTime(x: Inputs, seconds: real)
    requires 0.0 <= x.secondsToProcessOneJob <= seconds && x.messagesSentPerMinute >= 0.0
    ensures var y := x.(secondsToProcessOneJob := seconds);
      EffectiveMin(x) <= EffectiveMin(y) && (HasThroughput(y) ==> EffectiveMin(y) >= 1)
  {
    var y := x.(secondsToProcessOneJob := seconds);
    RealMulMonotone(x.secondsToProcessOneJob, seconds, x.messagesSentPerMinute);
    EffectiveMinFollowsWork(x, y);
    ThroughputNeedsWorkers(y);
  }

  // The effective minimum follows the work that arrives in a minute.
  lemma EffectiveMinFollowsWork(x: Inputs, y: Inputs)
    requires x.minWorkers <= y.minWorkers
    requires x.secondsToProcessOneJob != 0.0 ==>
      && y.secondsToProcessOneJob != 0.0
      && x.secondsToProcessOneJob * x.messagesSentPerMinute <= y.secondsToProcessOneJob * y.messagesSentPerMinute
    ensures EffectiveMin(x) <= EffectiveMin(y)
  {
    EffectiveMinIsLeast(y, EffectiveMin(y));
    EffectiveMinIsLeast(x, EffectiveMin(y));
  }

  lemma ThroughputNeedsWorkers(x: Inputs)
    ensures HasThroughput(x) ==> EffectiveMin(x) >= 1
  {
    if HasThroughput(x) {
      EffectiveMinIsLeast(x, 0);
      MulRealMonotone(x.secondsToProcessOneJob, 0.0, x.messagesSentPerMinute);
    }
  }

  lemma RealMulMonotone(a: real, b: real, k: real)
    requires k >= 0.0 && a <= b
    ensures a * k <= b * k
  {
  }

  lemma MonotoneInBounds(x: Inputs, min: int, max: int, limit: MaxDisruption, current: int)
    requires x.targetMessagesPerWorker > 0 && current >= 0
    requires x.minWorkers <= min && x.maxWorkers <= max
    requires GetMaxDisruptableWorkers(limit, current) <= GetMaxDisruptableWorkers(x.maxDisruption, current)
    ensures GetDesiredWorkers(x, current)
         <= GetDesiredWorkers(x.(minWorkers := min, maxWorkers := max, maxDisruption := limit), current)
  {
    var y := x.(minWorkers := min, maxWorkers := max, maxDisruption := limit);
    ClosedForm(x, current);
    ClosedForm(y, current);
  }

  // More backlog, a higher rate, a longer processing time, higher bounds, a
  // smaller target or a tighter disruption limit never lead to fewer workers,
  // whichever of the return paths the two calls take. The processing time may
  // only differ if the higher rate is not the negative sentinel.
  lemma JointMonotonicity(x: Inputs, y: Inputs, current: int)
    requires current >= 0
    requires 0 <= x.queueMessages <= y.queueMessages
    requires 0 < y.targetMessagesPerWorker <= x.targetMessagesPerWorker
    requires x.messagesSentPerMinute <= y.messagesSentPerMinute
    requires 0.0 <= x.secondsToProcessOneJob <= y.secondsToProcessOneJob
    requires y.messagesSentPerMinute >= 0.0 || x.secondsToProcessOneJob == y.secondsToProcessOneJob
    requires x.idleWorkers == y.idleWorkers
    requires x.minWorkers <= y.minWorkers && x.maxWorkers <= y.maxWorkers
    requires GetMaxDisruptableWorkers(y.maxDisruption, current) <= GetMaxDisruptableWorkers(x.maxDisruption, current)
    ensures GetDesiredWorkers(x, current) <= GetDesiredWorkers(y, current)
  {
    MonotoneInBacklog(x, y.queueMessages, y.targetMessagesPerWorker, current);
    var x1 := x.(queueMessages := y.queueMessages, targetMessagesPerWorker := y.targetMessagesPerWorker);
    MonotoneInRate(x1, y.messagesSentPerMinute, current);
    var x2 := x1.(messagesSentPerMinute := y.messagesSentPerMinute);
    if y.messagesSentPerMinute >= 0.0 {
      MonotoneInProcessingTime(x2, y.secondsToProcessOneJob, current);
    }
    var x3 := x2.(secondsToProcessOneJob := y.secondsToProcessOneJob);
    MonotoneInBounds(x3, y.minWorkers, y.maxWorkers, y.maxDisruption, current);
    assert x3.(minWorkers := y.minWorkers, maxWorkers := y.maxWorkers, maxDisruption := y.maxDisruption) == y;
  }

  // ---------- Single-step bounds ----------

  lemma InRange(x: Inputs, current: int)
    requires x.targetMessagesPerWorker != 0
    ensures Min(EffectiveMin(x), x.maxWorkers) <= GetDesiredWorkers(x, current) <= x.maxWorkers
    ensures x.minWorkers <= x.maxWorkers ==> x.minWorkers <= GetDesiredWorkers(x, current)
  {
    ClosedForm(x, current);
  }

  // Work in the queue keeps at least one worker, on every path.
  lemma NeverZeroWithWork(x: Inputs, current: int)
    requires x.targetMessagesPerWorker > 0 && current >= 0
    requires x.queueMessages > 0 && x.maxWorkers >= 1
    ensures GetDesiredWorkers(x, current) >= 1
  {
    ClosedForm(x, current);
    BacklogIsPositive(x);
  }

  // Outside the massive path a step removes no more than the limit, except
  // that it may come down to the maximum.
  lemma StepBound(x: Inputs, current: int)
    requires x.targetMessagesPerWorker != 0
    requires !MassiveScaleDown(x, current)
    ensures GetDesiredWorkers(x, current)
         >= Min(x.maxWorkers, current - GetMaxDisruptableWorkers(x.maxDisruption, current))
  {
    ClosedForm(x, current);
  }

  // The repository's documentation promises that one scale down removes no
  // more than maxDisruption. The code keeps that promise exactly when the count
  // is not above the maximum by more than the limit and the massive path, if
  // taken, is stopped in time by the effective minimum.
  lemma DisruptionPromise(x: Inputs, current: int)
    requires x.targetMessagesPerWorker != 0
    ensures var limit := GetMaxDisruptableWorkers(x.maxDisruption, current);
      current - GetDesiredWorkers(x, current) <= limit
      <==> current - x.maxWorkers <= limit
           && (MassiveScaleDown(x, current) ==> current - Max(EffectiveMin(x), 0) <= limit)
  {
    ClosedForm(x, current);
  }

  lemma DisruptionPromiseBroken()
    ensures exists x: Inputs ::
              && Sensible(x)
              && GetMaxDisruptableWorkers(x.maxDisruption, 500) == 125
              && GetDesiredWorkers(x, 500) == 2
  {
    var x := Inputs(0, 0.0, 0.0, 1, 500, 2, 1000, Abs(125));
    assert GetDesiredWorkers(x, 500) == 2;
  }

  // Values that the repository itself gives as expectations.
  lemma ExpectedValues()
    ensures GetDesiredWorkers(Inputs(10, 10.0, 0.3, 200, 0, 0, 20, Percent(10)), 20) == 18
    ensures GetDesiredWorkers(Inputs(1, 2136.0, 10.0, 2500, 0, 2, 20, Percent(0)), 10) == 20
    ensures GetDesiredWorkers(Inputs(100, 0.0, 0.0, 10, 0, 0, 500, Percent(0)), 0) == 10
    ensures GetDesiredWorkers(Inputs(50, 0.0, 0.0, 10, 0, 0, 500, Percent(0)), 10) == 10
    ensures GetDesiredWorkers(Inputs(50, 0.0, 0.0, 10, 0, 0, 500, Percent(100)), 10) == 5
    ensures GetDesiredWorkers(Inputs(20, 0.0, 300.0, 10, 0, 0, 100, Percent(100)), 0) == 2
    ensures GetDesiredWorkers(Inputs(0, 120.0, 1.0, 60, 0, 0, 100, Percent(100)), 1) == 2
  {
  }
}
