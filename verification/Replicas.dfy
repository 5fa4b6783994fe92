/**
 The replica calculator of pkg/controller/controller.go: how many workers one
 sync wants, from the queue metrics, the resource spec and the current count.
 Counts are mathematical integers; the float64 expressions of the source are
 exact on int32 counts, and rates and processing times are reals.
 */
module Replicas {

  // The maxDisruption string of the spec: "125" or "50%".
  datatype MaxDisruption = Abs(n: int) | Percent(p: int)

  // Everything GetDesiredWorkers looks at except the current worker count.
  datatype Inputs = Inputs(
    queueMessages: int,
    messagesSentPerMinute: real,
    secondsToProcessOneJob: real,
    targetMessagesPerWorker: int,
    idleWorkers: int,
    minWorkers: int,
    maxWorkers: int,
    maxDisruption: MaxDisruption)

  function Min(a: int, b: int): int {
    if a <= b then a else b
  }

  function Max(a: int, b: int): int {
    if a >= b then a else b
  }

  // math.Ceil(float64(a) / float64(b)): the least integer that is at least a / b.
  function CeilDiv(a: int, b: int): int
    requires b != 0
  {
    if b > 0 then -((-a) / b) else -(a / (-b))
  }

  // math.Ceil on a real number.
  function CeilReal(x: real): int {
    -((-x).Floor)
  }

  // The largest number of workers one scale down may remove.
  function GetMaxDisruptableWorkers(maxDisruption: MaxDisruption, current: int): int {
    match maxDisruption
    case Abs(n) => n
    case Percent(p) => CeilDiv(p * current, 100)
  }

  // The minimum worker count once the queue's throughput is taken into account.
  function GetMinWorkers(messagesSentPerMinute: real, minWorkers: int, secondsToProcessOneJob: real): (r: int)
    ensures r >= minWorkers
  {
    if secondsToProcessOneJob == 0.0 then
      minWorkers
    else
      var workersBasedOnMessagesSent := CeilReal((secondsToProcessOneJob * messagesSentPerMinute) / 60.0);
      if workersBasedOnMessagesSent > minWorkers then workersBasedOnMessagesSent else minWorkers
  }

  // |desired - current| / current <= 0.1, cross-multiplied. The source divides
  // by a non-zero current count.
  predicate IsChangeTooSmall(desired: int, current: int)
    requires current != 0
  {
    current < 0 || 10 * Max(desired - current, current - desired) <= current
  }

  function ConvertDesiredReplicasWithRules(current: int, desired: int, min: int, max: int, maxDisruptable: int): int {
    if min >= max then
      max
    else
      var limited := if current - desired > maxDisruptable then current - maxDisruptable else desired;
      if limited > max then max
      else if limited < min then min
      else limited
  }

  // The minimum that the rest of the calculation uses.
  function EffectiveMin(x: Inputs): int {
    GetMinWorkers(x.messagesSentPerMinute, x.minWorkers, x.secondsToProcessOneJob)
  }

  // The workers the backlog alone asks for.
  function BacklogWorkers(x: Inputs): int
    requires x.targetMessagesPerWorker != 0
  {
    CeilDiv(x.queueMessages, x.targetMessagesPerWorker)
  }

  predicate HasThroughput(x: Inputs) {
    x.messagesSentPerMinute > 0.0 && x.secondsToProcessOneJob > 0.0
  }

  function GetDesiredWorkers(x: Inputs, current: int): int
    requires x.targetMessagesPerWorker != 0
  {
    var min := EffectiveMin(x);
    var max := x.maxWorkers;
    var maxDisruptable := GetMaxDisruptableWorkers(x.maxDisruption, current);
    var desired := BacklogWorkers(x);
    if current == 0 then
      ConvertDesiredReplicasWithRules(current, desired, min, max, maxDisruptable)
    else if x.queueMessages > 0 then
      if IsChangeTooSmall(desired, current) then
        ConvertDesiredReplicasWithRules(current, current, min, max, maxDisruptable)
      else
        ConvertDesiredReplicasWithRules(current, desired, min, max, maxDisruptable)
    else if HasThroughput(x) then
      ConvertDesiredReplicasWithRules(current, min, min, max, maxDisruptable)
    else if current == x.idleWorkers then
      ConvertDesiredReplicasWithRules(current, 0, min, max, current)
    else
      ConvertDesiredReplicasWithRules(current, min, min, max, maxDisruptable)
  }

  // The "massive scale down" branch, where the disruption limit is ignored.
  predicate MassiveScaleDown(x: Inputs, current: int) {
    current != 0 && x.queueMessages <= 0 && !HasThroughput(x) && current == x.idleWorkers
  }

  // ---------- One call, described without its branches ----------

  // What the calculation aims for, before limits.
  function Goal(x: Inputs, current: int): int
    requires x.targetMessagesPerWorker != 0
  {
    if current == 0 then BacklogWorkers(x)
    else if x.queueMessages > 0 then
      if IsChangeTooSmall(BacklogWorkers(x), current) then current else BacklogWorkers(x)
    else if MassiveScaleDown(x, current) then 0
    else EffectiveMin(x)
  }

  // The lowest count the disruption rule lets this call reach.
  function DisruptionFloor(x: Inputs, current: int): int {
    if MassiveScaleDown(x, current) then 0
    else current - GetMaxDisruptableWorkers(x.maxDisruption, current)
  }

  // All six return paths are one formula: the goal, raised to the disruption
  // floor and the effective minimum, then cut at the maximum, which wins.
  lemma ClosedForm(x: Inputs, current: int)
    requires x.targetMessagesPerWorker != 0
    ensures GetDesiredWorkers(x, current)
         == Min(x.maxWorkers, Max(EffectiveMin(x), Max(Goal(x, current), DisruptionFloor(x, current))))
  {
  }

  // Rounding up gives the one integer r with r - 1 < a / b <= r, for a target
  // of either sign.
  lemma CeilDivRoundsUp(a: int, b: int)
    requires b != 0
    ensures var r := CeilDiv(a, b);
      if b > 0 then b * (r - 1) < a <= b * r else b * r <= a < b * (r - 1)
  {
  }

  // A percentage limit is that share of the current count, rounded up.
  lemma PercentLimit(p: int, current: int)
    ensures 100 * (GetMaxDisruptableWorkers(Percent(p), current) - 1) < p * current
         <= 100 * GetMaxDisruptableWorkers(Percent(p), current)
  {
    CeilDivRoundsUp(p * current, 100);
  }

  // The tolerance test is the source's float comparison against 0.1.
  lemma DeadBandIsTenPercent(desired: int, current: int)
    requires current != 0
    ensures IsChangeTooSmall(desired, current)
       <==> Max(desired - current, current - desired) as real / current as real <= 0.1
  {
    var d := Max(desired - current, current - desired) as real;
    if current > 0 {
      TenPercent(d, current as real);
    } else {
      assert d / current as real <= 0.0;
    }
  }

  lemma TenPercent(d: real, c: real)
    requires c > 0.0
    ensures d / c <= 0.1 <==> 10.0 * d <= c
  {
    var ratio := d / c;
    assert d == ratio * c;
    if ratio <= 0.1 {
      MulReal(c, ratio, 0.1);
    } else {
      MulReal(c, 0.1, ratio);
    }
  }

  lemma MulReal(k: real, a: real, b: real)
    requires k > 0.0
    ensures a <= b ==> a * k <= b * k
    ensures a < b ==> a * k < b * k
  {
  }

  // The effective minimum is the least count that is at least the configured
  // minimum and, when the feature is on, works through one minute's messages
  // in one minute.
  lemma EffectiveMinIsLeast(x: Inputs, n: int)
    ensures EffectiveMin(x) <= n
       <==> x.minWorkers <= n
            && (x.secondsToProcessOneJob == 0.0
                || x.secondsToProcessOneJob * x.messagesSentPerMinute <= 60.0 * n as real)
  {
    var work := x.secondsToProcessOneJob * x.messagesSentPerMinute;
    var need := CeilReal(work / 60.0);
    assert need as real - 1.0 < work / 60.0 <= need as real;
    assert work / 60.0 <= n as real <==> work <= 60.0 * n as real;
    assert need <= n <==> work / 60.0 <= n as real;
  }

  // The backlog workers are the least count that covers the backlog.
  lemma BacklogWorkersIsLeast(x: Inputs, n: int)
    requires x.targetMessagesPerWorker > 0
    ensures BacklogWorkers(x) <= n <==> x.queueMessages <= n * x.targetMessagesPerWorker
  {
    var t, r := x.targetMessagesPerWorker, BacklogWorkers(x);
    CeilDivRoundsUp(x.queueMessages, t);
    if r <= n {
      assert t * r <= t * n;
    } else {
      assert t * n <= t * (r - 1);
    }
  }

  // ---------- One call, described by what is enough ----------

  // The limit allows removing this many of the current workers.
  predicate MayRemove(maxDisruption: MaxDisruption, current: int, removed: int) {
    match maxDisruption
    case Abs(n) => removed <= n
    case Percent(p) => 100 * (removed - 1) < p * current
  }

  // The workers that cover the messages are within ten percent of the current ones.
  predicate DemandWithinTenPercent(messages: int, target: int, current: int) {
    ((9 * current + 9) / 10 - 1) * target < messages <= (11 * current / 10) * target
  }

  // n workers are as many as the calculation may answer. Each line is one
  // reason for which fewer would not do; the maximum ends the list.
  predicate Enough(messages: int, rate: real, seconds: real, target: int, idle: int, min: int, max: int,
                   maxDisruption: MaxDisruption, current: int, n: int) {
    var massive := current > 0 && messages <= 0 && !(rate > 0.0 && seconds > 0.0) && current == idle;
    || max <= n
    || (&& min <= n
        && (seconds != 0.0 ==> seconds * rate <= 60.0 * n as real)
        && (current == 0 || (messages > 0 && !DemandWithinTenPercent(messages, target, current)) ==>
              messages <= n * target)
        && (current > 0 && messages > 0 && DemandWithinTenPercent(messages, target, current) ==> current <= n)
        && (if massive then 0 <= n else MayRemove(maxDisruption, current, current - n)))
  }

  lemma LimitIsMayRemove(d: MaxDisruption, current: int, removed: int)
    ensures removed <= GetMaxDisruptableWorkers(d, current) <==> MayRemove(d, current, removed)
  {
    if d.Percent? {
      PercentLimit(d.p, current);
    }
  }

  lemma ToleranceIsTenPercent(x: Inputs, current: int)
    requires x.targetMessagesPerWorker > 0 && current > 0
    ensures IsChangeTooSmall(BacklogWorkers(x), current)
       <==> DemandWithinTenPercent(x.queueMessages, x.targetMessagesPerWorker, current)
  {
    BacklogWorkersIsLeast(x, 11 * current / 10);
    BacklogWorkersIsLeast(x, (9 * current + 9) / 10 - 1);
  }

  // The answer is the least count that is enough.
  lemma DesiredIsLeast(x: Inputs, current: int, n: int)
    requires x.targetMessagesPerWorker > 0 && current >= 0
    ensures GetDesiredWorkers(x, current) <= n
       <==> Enough(x.queueMessages, x.messagesSentPerMinute, x.secondsToProcessOneJob, x.targetMessagesPerWorker,
                   x.idleWorkers, x.minWorkers, x.maxWorkers, x.maxDisruption, current, n)
  {
    ClosedForm(x, current);
    EffectiveMinIsLeast(x, n);
    BacklogWorkersIsLeast(x, n);
    LimitIsMayRemove(x.maxDisruption, current, current - n);
    if current > 0 {
      ToleranceIsTenPercent(x, current);
    }
  }
}
