/**
 Facts about whole runs of syncs over one deployment, with edits of the replica
 count by others in between: cool-off, removal budget, and the closed loop.
 */
module ControllerRuns {
  import opened Orbits
  import opened Replicas
  import opened ReplicaDynamics
  import opened ScaleOperations
  import opened Controllers
  import opened QueueTable
  import opened Wrappers
  import opened ScaleLogs

  datatype Event =
    | SyncEvent(info: QueueInfo, spec: WpaSpec, s: Surroundings)
    | Edit(replicas: int)

  ghost predicate HasTarget(e: Event) {
    e.SyncEvent? ==> e.spec.targetMessagesPerWorker != 0
  }

  ghost predicate Usable(run: seq<Event>) {
    forall i | 0 <= i < |run| :: HasTarget(run[i])
  }

  // One clock that never goes back: within a sync the scale write follows the
  // cool-off test, and later syncs read later times.
  ghost predicate Clocked(run: seq<Event>) {
    && (forall i | 0 <= i < |run| && run[i].SyncEvent? :: run[i].s.decidedAt <= run[i].s.scaledAt)
    && (forall i, j | 0 <= i < j < |run| && run[i].SyncEvent? && run[j].SyncEvent? ::
          run[i].s.scaledAt <= run[j].s.decidedAt)
  }

  ghost function After(w: World, delay: int, e: Event): World
    requires HasTarget(e)
  {
    match e
    case SyncEvent(info, spec, s) => Sync(w, delay, info, spec, s)
    case Edit(replicas) => w.(replicas := replicas)
  }

  ghost function Operation(w: World, delay: int, e: Event): ScaleOperation
    requires HasTarget(e)
  {
    match e
    case SyncEvent(info, spec, s) => SyncOperation(w, delay, info, spec, s)
    case Edit(_) => ScaleNoop
  }

  // What is stored before event n of the run.
  ghost function At(w: World, delay: int, run: seq<Event>, n: nat): World
    requires Usable(run) && n <= |run|
  {
    if n == 0 then w else After(At(w, delay, run, n - 1), delay, run[n - 1])
  }

  // The operation of event n.
  ghost function Op(w: World, delay: int, run: seq<Event>, n: nat): ScaleOperation
    requires Usable(run) && n < |run|
  {
    Operation(At(w, delay, run, n), delay, run[n])
  }

  // ---------- Cool-off ----------

  // Once a scale action is recorded, the stored time never falls behind it.
  lemma {:induction false} RecordedTimeIsKept(w: World, delay: int, run: seq<Event>, i: nat, j: nat)
    requires Usable(run) && Clocked(run) && i < j <= |run|
    requires run[i].SyncEvent? && run[i].s.statusAccepted && Op(w, delay, run, i) != ScaleNoop
    ensures At(w, delay, run, j).status.lastScaleTime.Some?
    ensures run[i].s.scaledAt <= At(w, delay, run, j).status.lastScaleTime.value
  {
    if j > i + 1 {
      RecordedTimeIsKept(w, delay, run, i, j - 1);
    }
  }

  // Every scale down happens more than the delay after every earlier scale up
  // or scale down whose status update was accepted. Edits by others do not matter.
  lemma CoolOff(w: World, delay: int, run: seq<Event>, i: nat, j: nat)
    requires Usable(run) && Clocked(run) && i < j < |run|
    requires run[i].SyncEvent? && run[i].s.statusAccepted && Op(w, delay, run, i) != ScaleNoop
    requires Op(w, delay, run, j) == ScaleDown
    ensures run[j].s.decidedAt > run[i].s.scaledAt + delay
  {
    RecordedTimeIsKept(w, delay, run, i, j);
  }

  // So a sync within the delay after a recorded action never lowers the count.
  lemma NoDropWithinDelay(w: World, delay: int, run: seq<Event>, i: nat, j: nat)
    requires Usable(run) && Clocked(run) && i < j < |run|
    requires run[i].SyncEvent? && run[i].s.statusAccepted && Op(w, delay, run, i) != ScaleNoop
    requires run[j].SyncEvent? && run[j].s.decidedAt <= run[i].s.scaledAt + delay
    ensures At(w, delay, run, j + 1).replicas >= At(w, delay, run, j).replicas
  {
    if Op(w, delay, run, j) == ScaleDown {
      CoolOff(w, delay, run, i, j);
    }
  }

  // When the latest recorded scale action before event n was, if there was one;
  // otherwise what the status said at the start.
  ghost function LatestRecorded(w: World, delay: int, run: seq<Event>, n: nat): Option<int>
    requires Usable(run) && n <= |run|
  {
    if n == 0 then w.status.lastScaleTime
    else if run[n - 1].SyncEvent? && run[n - 1].s.statusAccepted && Op(w, delay, run, n - 1) != ScaleNoop
    then Some(run[n - 1].s.scaledAt)
    else LatestRecorded(w, delay, run, n - 1)
  }

  lemma {:induction false} StatusIsLatestRecorded(w: World, delay: int, run: seq<Event>, n: nat)
    requires Usable(run) && n <= |run|
    ensures At(w, delay, run, n).status.lastScaleTime == LatestRecorded(w, delay, run, n)
  {
    if n > 0 {
      StatusIsLatestRecorded(w, delay, run, n - 1);
    }
  }

  // Exactly when a sync scales down: it wants fewer workers, and the latest
  // recorded action, if any, is more than the delay ago.
  lemma ScalesDownExactlyWhen(w: World, delay: int, run: seq<Event>, n: nat)
    requires Usable(run) && n < |run| && run[n].SyncEvent? && Ready(run[n].info)
    ensures var current := At(w, delay, run, n).replicas;
      var latest := LatestRecorded(w, delay, run, n);
      Op(w, delay, run, n) == ScaleDown
      <==> Desired(run[n].info, run[n].spec, current) < current
           && (latest.Some? ==> latest.value + delay < run[n].s.decidedAt)
  {
    StatusIsLatestRecorded(w, delay, run, n);
  }

  lemma {:induction false} NothingRecordedSince(w: World, delay: int, run: seq<Event>, i: nat, j: nat)
    requires Usable(run) && i <= j <= |run|
    requires forall k | i <= k < j :: Op(w, delay, run, k) == ScaleNoop
    ensures LatestRecorded(w, delay, run, j) == LatestRecorded(w, delay, run, i)
  {
    if i < j {
      NothingRecordedSince(w, delay, run, i, j - 1);
    }
  }

  // Exactly when the cool-off fails: a sync scales down within the delay after
  // the last scale action if and only if the status update of that action was
  // refused and the action recorded before it, if any, is old enough.
  lemma CoolOffFailsExactlyWhen(w: World, delay: int, run: seq<Event>, i: nat, j: nat)
    requires Usable(run) && i < j < |run|
    requires Op(w, delay, run, i) != ScaleNoop
    requires forall k | i < k < j :: Op(w, delay, run, k) == ScaleNoop
    requires run[j].SyncEvent? && Ready(run[j].info)
    requires Desired(run[j].info, run[j].spec, At(w, delay, run, j).replicas) < At(w, delay, run, j).replicas
    requires run[j].s.decidedAt <= run[i].s.scaledAt + delay
    ensures var earlier := LatestRecorded(w, delay, run, i);
      Op(w, delay, run, j) == ScaleDown
      <==> !run[i].s.statusAccepted
           && (earlier.Some? ==> earlier.value + delay < run[j].s.decidedAt)
  {
    NothingRecordedSince(w, delay, run, i + 1, j);
    ScalesDownExactlyWhen(w, delay, run, j);
  }

  // The source only logs a failed status update. Then the action is not
  // recorded and the next sync may scale down at once.
  lemma LostStatusBreaksCoolOff(delay: nat)
    ensures exists w: World, run: seq<Event> ::
              && |run| == 2 && Usable(run) && Clocked(run)
              && Op(w, delay, run, 0) == ScaleDown && Op(w, delay, run, 1) == ScaleDown
              && run[0].SyncEvent? && run[1].SyncEvent?
              && run[1].s.decidedAt == run[0].s.scaledAt
  {
    var w := World(100, Status(0, 0, 0, 0, None));
    var info, spec := QueueInfo("q", 1, 0.0, 0), WpaSpec(0, 100, 1, 0.0, Abs(10));
    var e := SyncEvent(info, spec, Surroundings(0, 0, 0, false));
    var run := [e, e];
    assert Desired(info, spec, 100) == 90;
    assert At(w, delay, run, 0) == w;
    assert At(w, delay, run, 1) == World(90, w.status);
    assert Desired(info, spec, 90) == 80;
    assert Op(w, delay, run, 0) == ScaleDown && Op(w, delay, run, 1) == ScaleDown;
  }

  // ---------- Scale downs and removed pods in a window of time ----------

  // What the events of a run did. An edit is an entry that scales nothing.
  ghost function EntryAt(w: World, delay: int, run: seq<Event>, i: nat): Entry
    requires Usable(run) && i < |run|
  {
    Entry(Op(w, delay, run, i), if run[i].SyncEvent? then run[i].s.decidedAt else 0,
          At(w, delay, run, i).replicas, At(w, delay, run, i + 1).replicas)
  }

  ghost function Log(w: World, delay: int, run: seq<Event>): seq<Entry>
    requires Usable(run)
  {
    seq(|run|, i requires 0 <= i < |run| => EntryAt(w, delay, run, i))
  }

  ghost predicate DownsRecorded(w: World, delay: int, run: seq<Event>)
    requires Usable(run)
  {
    forall i | 0 <= i < |run| && Op(w, delay, run, i) == ScaleDown :: run[i].s.statusAccepted
  }

  lemma RunsCoolOff(w: World, delay: nat, run: seq<Event>)
    requires Usable(run) && Clocked(run) && DownsRecorded(w, delay, run)
    ensures CooledOff(Log(w, delay, run), delay)
  {
    var log := Log(w, delay, run);
    forall i, j | 0 <= i < j < |log| && log[i].op == ScaleDown && log[j].op == ScaleDown
      ensures log[i].decidedAt + delay < log[j].decidedAt
    {
      CoolOff(w, delay, run, i, j);
    }
  }

  // n scale downs in a window need (n - 1) delays of time.
  lemma FewScaleDowns(w: World, delay: nat, run: seq<Event>, from: int, to: int)
    requires Usable(run) && Clocked(run) && DownsRecorded(w, delay, run) && from <= to
    ensures (Downs(Log(w, delay, run), from, to) - 1) * delay <= to - from
  {
    RunsCoolOff(w, delay, run);
    WindowHoldsFewDowns(Log(w, delay, run), delay, from, to);
  }

  // The runs of the removal budget: one maximum, an absolute limit, nobody
  // edits the count above the maximum, and no sync takes the massive path.
  ghost predicate Limited(w: World, delay: int, run: seq<Event>, max: int, limit: int)
    requires Usable(run)
  {
    && w.replicas <= max
    && (forall i | 0 <= i < |run| && run[i].Edit? :: run[i].replicas <= max)
    && (forall i | 0 <= i < |run| && run[i].SyncEvent? ::
          && run[i].spec.maxReplicas == max && run[i].spec.maxDisruption == Abs(limit)
          && !MassiveScaleDown(InputsOf(run[i].info, run[i].spec), At(w, delay, run, i).replicas))
  }

  lemma {:induction false} StaysBelowMax(w: World, delay: int, run: seq<Event>, max: int, limit: int, n: nat)
    requires Usable(run) && Limited(w, delay, run, max, limit) && n <= |run|
    ensures At(w, delay, run, n).replicas <= max
  {
    if n > 0 {
      StaysBelowMax(w, delay, run, max, limit, n - 1);
      if run[n - 1].SyncEvent? {
        InRange(InputsOf(run[n - 1].info, run[n - 1].spec), At(w, delay, run, n - 1).replicas);
      }
    }
  }

  lemma OneDownRemoves(w: World, delay: int, run: seq<Event>, max: int, limit: int, i: nat)
    requires Usable(run) && Limited(w, delay, run, max, limit) && i < |run|
    requires Op(w, delay, run, i) == ScaleDown
    ensures At(w, delay, run, i).replicas - At(w, delay, run, i + 1).replicas <= limit
  {
    StaysBelowMax(w, delay, run, max, limit, i);
    StepBound(InputsOf(run[i].info, run[i].spec), At(w, delay, run, i).replicas);
  }

  // In any window of time the scale downs of such a run remove at most one
  // limit, plus one more for each whole delay that fits into the window.
  lemma RemovalBudget(w: World, delay: nat, run: seq<Event>, max: int, limit: nat, from: int, to: int)
    requires Usable(run) && Clocked(run) && DownsRecorded(w, delay, run)
    requires Limited(w, delay, run, max, limit)
    requires delay > 0 && from <= to
    ensures Removed(Log(w, delay, run), from, to) <= limit * (1 + (to - from) / delay)
  {
    var log := Log(w, delay, run);
    forall i | 0 <= i < |log| && log[i].op == ScaleDown ensures log[i].before - log[i].after <= limit {
      OneDownRemoves(w, delay, run, max, limit, i);
    }
    RunsCoolOff(w, delay, run);
    WindowBudget(log, limit, delay, from, to);
  }

  // ---------- The closed loop ----------

  // A run of nothing but syncs that all see the same queue and the same spec.
  ghost predicate Steady(run: seq<Event>, info: QueueInfo, spec: WpaSpec) {
    forall i | 0 <= i < |run| :: run[i].SyncEvent? && run[i].info == info && run[i].spec == spec
  }

  // The scale actions among the first n syncs.
  ghost function ActionsBefore(w: World, delay: int, run: seq<Event>, n: nat): nat
    requires Usable(run) && n <= |run|
  {
    Actions(Log(w, delay, run)[..n])
  }

  lemma ActingIsStepping(w: World, delay: int, e: Event)
    requires HasTarget(e) && e.SyncEvent?
    ensures After(w, delay, e).replicas
         == if Operation(w, delay, e) == ScaleNoop then w.replicas else Step(InputsOf(e.info, e.spec))(w.replicas)
  {
  }

  lemma SteadyRunSteps(w: World, delay: int, run: seq<Event>, info: QueueInfo, spec: WpaSpec)
    requires spec.targetMessagesPerWorker != 0 && Usable(run) && Steady(run, info, spec)
    ensures Steps(Log(w, delay, run), Step(InputsOf(info, spec)), w.replicas)
  {
    var log := Log(w, delay, run);
    forall i | 0 <= i < |log|
      ensures log[i].after
           == if log[i].op == ScaleNoop then log[i].before else Step(InputsOf(info, spec))(log[i].before)
    {
      ActingIsStepping(At(w, delay, run, i), delay, run[i]);
    }
  }

  // Under steady conditions the stored count follows the calculator's orbit:
  // the cool-off only delays it, one orbit step per scale action.
  lemma FollowsOrbit(w: World, delay: int, run: seq<Event>, info: QueueInfo, spec: WpaSpec, n: nat)
    requires spec.targetMessagesPerWorker != 0 && Usable(run) && Steady(run, info, spec) && n <= |run|
    ensures At(w, delay, run, n).replicas
         == Orbit(Step(InputsOf(info, spec)), w.replicas, ActionsBefore(w, delay, run, n))
  {
    SteadyRunSteps(w, delay, run, info, spec);
    StepsFollowOrbit(Log(w, delay, run)[..n], Step(InputsOf(info, spec)), w.replicas);
  }

  // Hence a run under steady conditions never reverses direction.
  lemma SteadyRunNeverReverses(
      w: World, delay: int, run: seq<Event>, info: QueueInfo, spec: WpaSpec, i: nat, j: nat)
    requires Sensible(InputsOf(info, spec)) && w.replicas >= 0
    requires Usable(run) && Steady(run, info, spec) && i <= j <= |run|
    ensures var before, after := At(w, delay, run, i).replicas, At(w, delay, run, j).replicas;
      if Desired(info, spec, w.replicas) > w.replicas
      then before <= after && (before != w.replicas ==> after == before == Desired(info, spec, w.replicas))
      else after <= before
  {
    var x := InputsOf(info, spec);
    var m, n := ActionsBefore(w, delay, run, i), ActionsBefore(w, delay, run, j);
    FollowsOrbit(w, delay, run, info, spec, i);
    FollowsOrbit(w, delay, run, info, spec, j);
    ActionsGrow(Log(w, delay, run)[..j], i);
    assert Log(w, delay, run)[..j][..i] == Log(w, delay, run)[..i];
    NoOscillation(x, w.replicas, m, n);
    if m == 0 {
      NoOscillation(x, w.replicas, n, n);
    }
  }

  // Syncs that are more than the delay apart, the first one free to scale.
  ghost predicate Spaced(w: World, delay: int, run: seq<Event>) {
    && (forall i | 0 <= i < |run| :: run[i].SyncEvent?)
    && (|run| > 0 ==> CanScaleDown(w.status.lastScaleTime, delay, run[0].s.decidedAt))
    && (forall i | 0 <= i < |run| - 1 :: run[i].s.scaledAt + delay < run[i + 1].s.decidedAt)
  }

  lemma {:induction false} NeverHeldBack(w: World, delay: nat, run: seq<Event>, n: nat)
    requires Usable(run) && Clocked(run) && Spaced(w, delay, run) && n < |run|
    ensures CanScaleDown(At(w, delay, run, n).status.lastScaleTime, delay, run[n].s.decidedAt)
  {
    if n > 0 {
      NeverHeldBack(w, delay, run, n - 1);
      assert run[n - 1].s.scaledAt + delay < run[n].s.decidedAt;
      assert run[n - 1].s.decidedAt <= run[n - 1].s.scaledAt;
    }
  }

  lemma {:induction false} SpacedSyncsFollowOrbit(
      w: World, delay: nat, run: seq<Event>, info: QueueInfo, spec: WpaSpec, n: nat)
    requires spec.targetMessagesPerWorker != 0 && Ready(info)
    requires Usable(run) && Clocked(run) && Spaced(w, delay, run) && Steady(run, info, spec) && n <= |run|
    ensures At(w, delay, run, n).replicas == Orbit(Step(InputsOf(info, spec)), w.replicas, n)
  {
    if n > 0 {
      SpacedSyncsFollowOrbit(w, delay, run, info, spec, n - 1);
      NeverHeldBack(w, delay, run, n - 1);
      assert run[n - 1].info == info && run[n - 1].spec == spec;
    }
  }

  // The count serves the queue as the spec asks: below the maximum it carries
  // the backlog within ten percent and keeps up with the rate of new messages.
  ghost predicate SettledServes(info: QueueInfo, spec: WpaSpec, settled: int) {
    settled < spec.maxReplicas ==>
      && spec.minReplicas <= settled
      && 10 * info.messages <= 11 * settled * spec.targetMessagesPerWorker
      && (spec.secondsToProcessOneJob != 0.0 ==>
            spec.secondsToProcessOneJob * info.messagesSentPerMinute <= 60.0 * settled as real)
  }

  lemma ServesInFields(info: QueueInfo, spec: WpaSpec, settled: int)
    requires Serves(InputsOf(info, spec), settled)
    ensures SettledServes(info, spec, settled)
  {
  }

  lemma SettledCountServes(info: QueueInfo, spec: WpaSpec, start: int, n: nat)
    requires Sensible(InputsOf(info, spec)) && start >= 0
    requires Settled(Step(InputsOf(info, spec)), Orbit(Step(InputsOf(info, spec)), start, n))
    ensures SettledServes(info, spec, Orbit(Step(InputsOf(info, spec)), start, n))
  {
    Settling(InputsOf(info, spec));
    OrbitIsNatural(Step(InputsOf(info, spec)), start, n);
    FixedPointServes(InputsOf(info, spec), Orbit(Step(InputsOf(info, spec)), start, n));
    ServesInFields(info, spec, Orbit(Step(InputsOf(info, spec)), start, n));
  }

  // The closed loop is live: max(1, replicas) syncs more than a delay apart
  // bring the deployment to a fixed point of the calculator.
  lemma SpacedSyncsSettle(w: World, delay: nat, run: seq<Event>, info: QueueInfo, spec: WpaSpec)
    requires Sensible(InputsOf(info, spec)) && Ready(info) && w.replicas >= 0
    requires Usable(run) && Clocked(run) && Spaced(w, delay, run) && Steady(run, info, spec)
    requires |run| >= 1 && |run| >= w.replicas
    ensures var settled := At(w, delay, run, |run|).replicas; Desired(info, spec, settled) == settled
    ensures SettledServes(info, spec, At(w, delay, run, |run|).replicas)
  {
    SpacedSyncsFollowOrbit(w, delay, run, info, spec, |run|);
    Convergence(InputsOf(info, spec), w.replicas, |run|);
    SettledCountServes(info, spec, w.replicas, |run|);
  }

  // With a limit of p percent, logarithmically many are enough.
  lemma SpacedSyncsSettleFast(w: World, delay: nat, run: seq<Event>, info: QueueInfo, spec: WpaSpec, p: int)
    requires Sensible(InputsOf(info, spec)) && Ready(info) && w.replicas >= 0
    requires spec.maxDisruption == Percent(p) && p <= 100
    requires Usable(run) && Clocked(run) && Spaced(w, delay, run) && Steady(run, info, spec)
    requires |run| >= 1 && Pow(100, |run|) > Pow(100 - p, |run|) * w.replicas
    ensures var settled := At(w, delay, run, |run|).replicas; Desired(info, spec, settled) == settled
    ensures SettledServes(info, spec, At(w, delay, run, |run|).replicas)
  {
    SpacedSyncsFollowOrbit(w, delay, run, info, spec, |run|);
    LogarithmicSettling(InputsOf(info, spec), w.replicas, p, |run|);
    SettledCountServes(info, spec, w.replicas, |run|);
  }

  // With an absolute limit of k workers, replicas / k are enough.
  lemma SpacedSyncsSettleLinearly(w: World, delay: nat, run: seq<Event>, info: QueueInfo, spec: WpaSpec, limit: nat)
    requires Sensible(InputsOf(info, spec)) && Ready(info) && w.replicas >= 0
    requires spec.maxDisruption == Abs(limit)
    requires Usable(run) && Clocked(run) && Spaced(w, delay, run) && Steady(run, info, spec)
    requires |run| >= 1 && |run| * limit >= w.replicas
    ensures var settled := At(w, delay, run, |run|).replicas; Desired(info, spec, settled) == settled
    ensures SettledServes(info, spec, At(w, delay, run, |run|).replicas)
  {
    SpacedSyncsFollowOrbit(w, delay, run, info, spec, |run|);
    LinearSettling(InputsOf(info, spec), w.replicas, limit, |run|);
    SettledCountServes(info, spec, w.replicas, |run|);
  }
}
