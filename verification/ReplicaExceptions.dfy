/**
 Two things one might expect of the calculator and that it does not give: that
 it settles under a negative disruption limit, which the source accepts, and
 that more current workers never lead to fewer desired ones. For both, exactly
 when they hold.
 */
module ReplicaExceptions {
  import opened Orbits
  import opened Replicas
  import opened ReplicaDynamics

  // Within the tolerance around the backlog demand.
  predicate Band(x: Inputs, current: int)
    requires x.targetMessagesPerWorker != 0
  {
    current > 0 && IsChangeTooSmall(BacklogWorkers(x), current)
  }

  // ---------- More workers, fewer desired ----------

  // The lowest count the limit lets a sync reach never falls when the count
  // grows, except below zero, where it does not matter.
  lemma FloorsGrow(d: MaxDisruption, a: int, b: int)
    requires LimitIsNatural(d) && 0 <= a < b
    ensures var floorA, floorB := a - GetMaxDisruptableWorkers(d, a), b - GetMaxDisruptableWorkers(d, b);
      floorA <= floorB || floorA <= 0
  {
    match d
    case Abs(n) =>
    case Percent(p) =>
      PercentLimit(p, a);
      PercentLimit(p, b);
      if p <= 100 {
        assert p * b - p * a == p * (b - a);
        MulMonotone(b - a, p, 100);
      } else {
        MulMonotone(a, 100, p);
      }
  }

  // Exactly when, with a backlog, a larger current count gets a smaller
  // result. Either the larger one is held by the tolerance below the demand,
  // which the smaller one is raised to; or the smaller one is held by it above
  // the demand, and the larger one is allowed to drop below that.
  lemma BacklogInversions(x: Inputs, a: int, b: int)
    requires Sensible(x) && x.queueMessages > 0 && 0 <= a < b
    ensures var d, lo, hi := BacklogWorkers(x), EffectiveMin(x), x.maxWorkers;
      GetDesiredWorkers(x, a) > GetDesiredWorkers(x, b)
      <==> lo < hi
           && (|| (!Band(x, a) && Band(x, b) && b < Min(hi, d) && lo < Min(hi, d))
               || (Band(x, a) && !Band(x, b) && Max(lo, d) < Min(hi, a)
                   && b - GetMaxDisruptableWorkers(x.maxDisruption, b) < Min(hi, a)))
  {
    ClosedForm(x, a);
    ClosedForm(x, b);
    LimitBounds(x.maxDisruption, a);
    LimitBounds(x.maxDisruption, b);
    BacklogIsPositive(x);
    FloorsGrow(x.maxDisruption, a, b);
  }

  // Without a backlog: the larger count takes the massive path, and the
  // smaller one is held above the effective minimum by the limit.
  lemma IdleInversions(x: Inputs, a: int, b: int)
    requires Sensible(x) && x.queueMessages <= 0 && 0 <= a < b
    ensures var lo, hi := EffectiveMin(x), x.maxWorkers;
      GetDesiredWorkers(x, a) > GetDesiredWorkers(x, b)
      <==> MassiveScaleDown(x, b) && lo < Min(hi, a - GetMaxDisruptableWorkers(x.maxDisruption, a))
  {
    ClosedForm(x, a);
    ClosedForm(x, b);
    LimitBounds(x.maxDisruption, a);
    LimitBounds(x.maxDisruption, b);
    BacklogIsPositive(x);
    FloorsGrow(x.maxDisruption, a, b);
  }

  // One input for each of the two ways: nine workers are raised to eleven and
  // ten are held; eleven are held above a demand of ten and twelve drop to it.
  lemma MoreCurrentFewerDesired()
    ensures exists x: Inputs :: Sensible(x) && GetDesiredWorkers(x, 9) == 11 && GetDesiredWorkers(x, 10) == 10
    ensures exists x: Inputs :: Sensible(x) && GetDesiredWorkers(x, 11) == 11 && GetDesiredWorkers(x, 12) == 10
  {
    var x := Inputs(11, 0.0, 0.0, 1, 0, 0, 100, Percent(100));
    assert Sensible(x) && GetDesiredWorkers(x, 9) == 11 && GetDesiredWorkers(x, 10) == 10;
    var y := x.(queueMessages := 10);
    assert Sensible(y) && GetDesiredWorkers(y, 11) == 11 && GetDesiredWorkers(y, 12) == 10;
  }

  // ---------- Negative absolute limits ----------

  // The tolerance below the demand starts at ten elevenths of it.
  lemma BandBelow(x: Inputs, c: int)
    requires x.targetMessagesPerWorker > 0 && 0 < c <= BacklogWorkers(x)
    ensures Band(x, c) <==> CeilDiv(10 * BacklogWorkers(x), 11) <= c
  {
    CeilDivRoundsUp(10 * BacklogWorkers(x), 11);
  }

  // With a backlog, when each sync may be forced up by m workers.
  predicate HarmlessLimit(x: Inputs, m: int)
    requires x.targetMessagesPerWorker != 0
  {
    var d, lo, hi := BacklogWorkers(x), EffectiveMin(x), x.maxWorkers;
    lo >= hi || m >= hi || (d >= hi && CeilDiv(10 * d, 11) + m >= hi)
  }

  lemma HarmlessLimitSettlesAt(x: Inputs, m: int, c: int)
    requires x.targetMessagesPerWorker > 0 && x.minWorkers >= 0 && x.maxWorkers >= 0 && c >= 0
    requires x.queueMessages > 0 && x.maxDisruption == Abs(-m) && m > 0
    requires HarmlessLimit(x, m)
    ensures SettlesAt(Step(x), c)
  {
    CeilDivRoundsUp(10 * BacklogWorkers(x), 11);
    BacklogIsPositive(x);
    ClosedForm(x, c);
    ClosedForm(x, GetDesiredWorkers(x, c));
  }

  // Otherwise zero, or the lower edge of the tolerance, goes up more than once.
  lemma UnharmlessLimitClimbs(x: Inputs, m: int) returns (c: int)
    requires x.targetMessagesPerWorker > 0 && x.minWorkers >= 0 && x.maxWorkers >= 0
    requires x.queueMessages > 0 && x.maxDisruption == Abs(-m) && m > 0
    requires !HarmlessLimit(x, m)
    ensures c >= 0 && !SettlesAt(Step(x), c)
  {
    var d := BacklogWorkers(x);
    BacklogIsPositive(x);
    CeilDivRoundsUp(10 * d, 11);
    if d < x.maxWorkers {
      c := 0;
    } else {
      c := CeilDiv(10 * d, 11);
      BandBelow(x, c);
    }
    ClosedForm(x, c);
    ClosedForm(x, GetDesiredWorkers(x, c));
  }

  // Exactly when the calculator still settles with a negative absolute limit
  // and a backlog.
  lemma NegativeLimitWithBacklog(x: Inputs, m: int)
    requires x.targetMessagesPerWorker > 0 && x.minWorkers >= 0 && x.maxWorkers >= 0
    requires x.queueMessages > 0 && x.maxDisruption == Abs(-m) && m > 0
    ensures SettlesEverywhere(Step(x)) <==> HarmlessLimit(x, m)
  {
    if HarmlessLimit(x, m) {
      forall c | c >= 0 ensures SettlesAt(Step(x), c) {
        HarmlessLimitSettlesAt(x, m, c);
      }
    } else {
      var c := UnharmlessLimitClimbs(x, m);
    }
  }

  // An input for which it does not settle: ten, thirteen, sixteen.
  lemma NegativeLimitKeepsClimbing()
    ensures exists x: Inputs ::
              && x.targetMessagesPerWorker > 0 && x.minWorkers >= 0 && x.maxWorkers >= 0
              && GetDesiredWorkers(x, 10) == 13 && GetDesiredWorkers(x, 13) == 16
  {
    var x := Inputs(10, 0.0, 0.0, 1, 0, 0, 100, Abs(-3));
    assert BacklogWorkers(x) == 10;
    assert GetDesiredWorkers(x, 10) == 13;
    assert GetDesiredWorkers(x, 13) == 16;
  }

  // The massive branch exists for some count.
  predicate CanScaleDownMassively(x: Inputs) {
    x.queueMessages <= 0 && !HasThroughput(x) && x.idleWorkers > 0
  }

  // The same without a backlog. A reachable massive branch throws the count
  // back to the effective minimum, so that must be the idle count itself.
  lemma NegativeLimitWithoutBacklog(x: Inputs, m: int)
    requires x.targetMessagesPerWorker > 0 && x.minWorkers >= 0 && x.maxWorkers >= 0
    requires x.queueMessages <= 0 && x.maxDisruption == Abs(-m) && m > 0
    ensures var lo, hi, idle := EffectiveMin(x), x.maxWorkers, x.idleWorkers;
      SettlesEverywhere(Step(x))
      <==> lo >= hi
           || (if CanScaleDownMassively(x)
               then idle == lo && (m >= hi || hi == lo + 1 || (m == 1 && hi == lo + 2))
               else m >= hi)
  {
    var lo, hi, idle := EffectiveMin(x), x.maxWorkers, x.idleWorkers;
    BacklogIsPositive(x);
    if lo >= hi
       || (if CanScaleDownMassively(x)
           then idle == lo && (m >= hi || hi == lo + 1 || (m == 1 && hi == lo + 2))
           else m >= hi)
    {
      forall c | c >= 0 ensures SettlesAt(Step(x), c) {
        ClosedForm(x, c);
        ClosedForm(x, GetDesiredWorkers(x, c));
      }
    } else {
      var c :=
        if !CanScaleDownMassively(x) then 0
        else if idle != lo then idle
        else if hi > lo + m + 1 then lo + 1
        else Max(0, lo - m + 1);
      ClosedForm(x, c);
      ClosedForm(x, GetDesiredWorkers(x, c));
      assert !SettlesAt(Step(x), c);
    }
  }

  // ---------- Negative percentages ----------

  // Where a sync with the negative percentage forces the count to.
  function Forced(x: Inputs, c: int): int {
    c - GetMaxDisruptableWorkers(x.maxDisruption, c)
  }

  // From CeilDiv(100, p) workers on, p percent are at least one worker.
  lemma ForcedGrows(x: Inputs, p: int, a: int, b: int)
    requires x.maxDisruption == Percent(-p) && p > 0 && 0 <= a <= b
    ensures a <= Forced(x, a) <= Forced(x, b)
    ensures Forced(x, a) == a <==> a < CeilDiv(100, p)
    ensures a < b ==> Forced(x, a) < Forced(x, b)
  {
    PercentLimit(-p, a);
    PercentLimit(-p, b);
    CeilDivRoundsUp(100, p);
    MulMonotone(p, a, b);
    var first := CeilDiv(100, p);
    if a < first {
      MulMonotone(p, a, first - 1);
    } else {
      MulMonotone(p, first, a);
    }
  }

  // With a backlog: a step may be forced up past the count `first`, from which
  // on the percentage bites, only if it then reaches the maximum at once.
  predicate HarmlessWithBacklog(x: Inputs, p: int)
    requires x.targetMessagesPerWorker != 0 && p != 0
  {
    var d, lo, hi := BacklogWorkers(x), EffectiveMin(x), x.maxWorkers;
    var first, edge := CeilDiv(100, p), CeilDiv(10 * d, 11);
    || lo >= hi
    || first >= hi
    || (d >= hi && Forced(x, Max(edge, first)) >= hi && !(edge < first <= lo))
    || (Max(lo, d) < first && Forced(x, first) >= hi)
  }

  lemma HarmlessSettlesAt(x: Inputs, p: int, c: int)
    requires x.targetMessagesPerWorker > 0 && x.minWorkers >= 0 && x.maxWorkers >= 0 && c >= 0
    requires x.queueMessages > 0 && x.maxDisruption == Percent(-p) && p > 0
    requires HarmlessWithBacklog(x, p)
    ensures SettlesAt(Step(x), c)
  {
    var first, edge := CeilDiv(100, p), CeilDiv(10 * BacklogWorkers(x), 11);
    var next := GetDesiredWorkers(x, c);
    CeilDivRoundsUp(10 * BacklogWorkers(x), 11);
    CeilDivRoundsUp(100, p);
    BacklogIsPositive(x);
    ClosedForm(x, c);
    ClosedForm(x, next);
    ForcedGrows(x, p, c, c);
    ForcedGrows(x, p, next, next);
    if c >= first {
      ForcedGrows(x, p, first, c);
      if c >= edge {
        ForcedGrows(x, p, Max(edge, first), c);
      }
    }
  }

  lemma NegativePercentWithBacklog(x: Inputs, p: int)
    requires x.targetMessagesPerWorker > 0 && x.minWorkers >= 0 && x.maxWorkers >= 0
    requires x.queueMessages > 0 && x.maxDisruption == Percent(-p) && p > 0
    ensures SettlesEverywhere(Step(x)) <==> HarmlessWithBacklog(x, p)
  {
    if HarmlessWithBacklog(x, p) {
      forall c | c >= 0 ensures SettlesAt(Step(x), c) {
        HarmlessSettlesAt(x, p, c);
      }
    } else {
      var c := UnharmlessClimb(x, p);
      ClimbsAt(x, p, c);
      assert !SettlesAt(Step(x), c);
    }
  }

  // Otherwise some count is raised to one that is not fixed.
  lemma UnharmlessClimb(x: Inputs, p: int) returns (c: int)
    requires x.targetMessagesPerWorker > 0 && x.minWorkers >= 0 && x.maxWorkers >= 0
    requires x.queueMessages > 0 && x.maxDisruption == Percent(-p) && p > 0
    requires !HarmlessWithBacklog(x, p)
    ensures 0 <= c < GetDesiredWorkers(x, c) < x.maxWorkers && CeilDiv(100, p) <= GetDesiredWorkers(x, c)
  {
    var d, lo := BacklogWorkers(x), EffectiveMin(x);
    var first, edge := CeilDiv(100, p), CeilDiv(10 * d, 11);
    CeilDivRoundsUp(10 * d, 11);
    CeilDivRoundsUp(100, p);
    BacklogIsPositive(x);
    if d < x.maxWorkers {
      c := if Max(lo, d) >= first then 0 else first;
    } else {
      c := if edge < first <= lo then edge else Max(edge, first);
      BandBelow(x, c);
    }
    ClosedForm(x, c);
    ForcedGrows(x, p, c, c);
  }

  // A step that goes up to a count that is not fixed.
  lemma ClimbsAt(x: Inputs, p: int, c: int)
    requires x.targetMessagesPerWorker > 0 && x.maxDisruption == Percent(-p) && p > 0 && c >= 0
    requires var next := GetDesiredWorkers(x, c);
      c < next < x.maxWorkers && CeilDiv(100, p) <= next && !MassiveScaleDown(x, next)
    ensures !SettlesAt(Step(x), c)
  {
    var next := GetDesiredWorkers(x, c);
    ClosedForm(x, next);
    ForcedGrows(x, p, next, next);
  }

  // Without a backlog. The first count whose forced value is above the
  // effective minimum decides whether counts below it overshoot it.
  predicate HarmlessWithoutBacklog(x: Inputs, p: int)
    requires p > 0
  {
    var lo, hi, idle, first := EffectiveMin(x), x.maxWorkers, x.idleWorkers, CeilDiv(100, p);
    var over := CeilDiv(100 * (lo + 1), 100 + p);
    || lo >= hi
    || first >= hi
    || (if !CanScaleDownMassively(x) then lo < first && Forced(x, first) >= hi
        else if lo < first then idle != hi && Forced(x, if idle == first then first + 1 else first) >= hi
        else idle == lo && Forced(x, lo + 1) >= hi && (over >= lo || Forced(x, over) >= hi))
  }

  // Counts from `over` on are forced above lo, and no others.
  lemma ForcedOver(x: Inputs, p: int, lo: int, c: int)
    requires x.maxDisruption == Percent(-p) && p > 0 && lo >= 0 && c >= 0
    ensures Forced(x, c) > lo <==> c >= CeilDiv(100 * (lo + 1), 100 + p)
  {
    var over := CeilDiv(100 * (lo + 1), 100 + p);
    CeilDivRoundsUp(100 * (lo + 1), 100 + p);
    PercentLimit(-p, c);
    assert -p * c == -(p * c);
    assert (100 + p) * c == 100 * c + p * c;
    if c >= over {
      MulMonotone(100 + p, over, c);
    } else {
      MulMonotone(100 + p, c, over - 1);
    }
  }

  // The growth facts the idle case needs at one count.
  lemma ForcedAt(x: Inputs, p: int, lo: int, c: int)
    requires x.maxDisruption == Percent(-p) && p > 0 && lo >= 0 && c >= 0
    ensures var first, over := CeilDiv(100, p), CeilDiv(100 * (lo + 1), 100 + p);
      && c <= Forced(x, c)
      && (Forced(x, c) == c <==> c < first)
      && (Forced(x, c) > lo <==> c >= over)
      && 0 < first && 0 < over
      && (c >= first ==> Forced(x, first) <= Forced(x, c))
      && (c >= first + 1 ==> Forced(x, first + 1) <= Forced(x, c))
      && (c >= lo + 1 ==> Forced(x, lo + 1) <= Forced(x, c))
      && (c >= over ==> Forced(x, over) <= Forced(x, c))
  {
    var first, over := CeilDiv(100, p), CeilDiv(100 * (lo + 1), 100 + p);
    CeilDivRoundsUp(100, p);
    CeilDivRoundsUp(100 * (lo + 1), 100 + p);
    ForcedGrows(x, p, c, c);
    ForcedOver(x, p, lo, c);
    if c >= first { ForcedGrows(x, p, first, c); }
    if c >= first + 1 { ForcedGrows(x, p, first + 1, c); }
    if c >= lo + 1 { ForcedGrows(x, p, lo + 1, c); }
    if c >= over { ForcedGrows(x, p, over, c); }
  }

  lemma HarmlessIdleSettlesAt(x: Inputs, p: int, c: int)
    requires x.targetMessagesPerWorker > 0 && x.minWorkers >= 0 && x.maxWorkers >= 0 && c >= 0
    requires x.queueMessages <= 0 && x.maxDisruption == Percent(-p) && p > 0
    requires HarmlessWithoutBacklog(x, p)
    ensures SettlesAt(Step(x), c)
  {
    var next := GetDesiredWorkers(x, c);
    BacklogIsPositive(x);
    IdleForm(x, c);
    IdleForm(x, next);
    ForcedAt(x, p, EffectiveMin(x), c);
    ForcedAt(x, p, EffectiveMin(x), next);
  }

  // Without a backlog the formula is simpler.
  lemma IdleForm(x: Inputs, c: int)
    requires x.targetMessagesPerWorker > 0 && x.minWorkers >= 0 && x.maxWorkers >= 0 && c >= 0
    requires x.queueMessages <= 0
    ensures GetDesiredWorkers(x, c)
         == Min(x.maxWorkers, if MassiveScaleDown(x, c) then EffectiveMin(x) else Max(EffectiveMin(x), Forced(x, c)))
    ensures GetDesiredWorkers(x, c) >= 0
  {
    ClosedForm(x, c);
    BacklogIsPositive(x);
  }

  lemma NegativePercentWithoutBacklog(x: Inputs, p: int)
    requires x.targetMessagesPerWorker > 0 && x.minWorkers >= 0 && x.maxWorkers >= 0
    requires x.queueMessages <= 0 && x.maxDisruption == Percent(-p) && p > 0
    ensures SettlesEverywhere(Step(x)) <==> HarmlessWithoutBacklog(x, p)
  {
    if HarmlessWithoutBacklog(x, p) {
      forall c | c >= 0 ensures SettlesAt(Step(x), c) {
        HarmlessIdleSettlesAt(x, p, c);
      }
    } else {
      var c := UnharmlessIdleClimb(x, p);
      assert !SettlesAt(Step(x), c);
    }
  }

  lemma UnharmlessIdleClimb(x: Inputs, p: int) returns (c: int)
    requires x.targetMessagesPerWorker > 0 && x.minWorkers >= 0 && x.maxWorkers >= 0
    requires x.queueMessages <= 0 && x.maxDisruption == Percent(-p) && p > 0
    requires !HarmlessWithoutBacklog(x, p)
    ensures c >= 0 && !SettlesAt(Step(x), c)
  {
    var lo, first := EffectiveMin(x), CeilDiv(100, p);
    ForcedAt(x, p, lo, 0);
    if lo < first {
      c := if CanScaleDownMassively(x) && x.idleWorkers == first then first + 1 else first;
      ClimbFromFirst(x, p, c);
    } else {
      c :=
        if !CanScaleDownMassively(x) || x.idleWorkers != lo then 0
        else if Forced(x, lo + 1) < x.maxWorkers then lo + 1
        else CeilDiv(100 * (lo + 1), 100 + p);
      ClimbFromBelow(x, p, c);
    }
  }

  lemma ClimbFromFirst(x: Inputs, p: int, c: int)
    requires x.targetMessagesPerWorker > 0 && x.minWorkers >= 0 && x.maxWorkers >= 0
    requires x.queueMessages <= 0 && x.maxDisruption == Percent(-p) && p > 0
    requires !HarmlessWithoutBacklog(x, p)
    requires var first := CeilDiv(100, p);
      && EffectiveMin(x) < first
      && c == if CanScaleDownMassively(x) && x.idleWorkers == first then first + 1 else first
    ensures !SettlesAt(Step(x), c)
  {
    ForcedAt(x, p, EffectiveMin(x), c);
    IdleForm(x, c);
    var next := GetDesiredWorkers(x, c);
    IdleForm(x, next);
    ForcedAt(x, p, EffectiveMin(x), next);
  }

  lemma ClimbFromBelow(x: Inputs, p: int, c: int)
    requires x.targetMessagesPerWorker > 0 && x.minWorkers >= 0 && x.maxWorkers >= 0
    requires x.queueMessages <= 0 && x.maxDisruption == Percent(-p) && p > 0
    requires !HarmlessWithoutBacklog(x, p)
    requires c >= 0 && EffectiveMin(x) >= CeilDiv(100, p)
    requires var lo := EffectiveMin(x);
      c == if !CanScaleDownMassively(x) || x.idleWorkers != lo then 0
           else if Forced(x, lo + 1) < x.maxWorkers then lo + 1
           else CeilDiv(100 * (lo + 1), 100 + p)
    ensures !SettlesAt(Step(x), c)
  {
    ForcedAt(x, p, EffectiveMin(x), c);
    IdleForm(x, c);
    var next := GetDesiredWorkers(x, c);
    IdleForm(x, next);
    ForcedAt(x, p, EffectiveMin(x), next);
  }
}
