/**
 The decision part of syncHandler (pkg/controller/controller.go): read replicas,
 queue info and status, compute the desired count, scale, record the status.
 */
module Controllers {
  import opened QueueTable
  import opened Replicas
  import opened ScaleOperations
  import opened Wrappers

  datatype WpaSpec = WpaSpec(
    minReplicas: int,
    maxReplicas: int,
    targetMessagesPerWorker: int,
    secondsToProcessOneJob: real,
    maxDisruption: MaxDisruption)

  datatype Status = Status(
    currentMessages: int,
    currentReplicas: int,
    availableReplicas: int,
    desiredReplicas: int,
    lastScaleTime: Option<int>)

  // What the cluster stores for one autoscaled deployment.
  datatype World = World(replicas: int, status: Status)

  // The outside of one sync: the available replicas, the clock when the cool-off
  // is tested, the clock after the replicas were written, and whether the
  // status update reached the server.
  datatype Surroundings = Surroundings(available: int, decidedAt: int, scaledAt: int, statusAccepted: bool)

  function InputsOf(info: QueueInfo, spec: WpaSpec): Inputs {
    Inputs(info.messages, info.messagesSentPerMinute, spec.secondsToProcessOneJob, spec.targetMessagesPerWorker,
           info.idleWorkers, spec.minReplicas, spec.maxReplicas, spec.maxDisruption)
  }

  // The sync goes on to a decision only for a known queue with a real message count.
  predicate Ready(info: QueueInfo) {
    info.name != "" && info.messages != UNSYNCED_QUEUE_MESSAGE_COUNT
  }

  function Desired(info: QueueInfo, spec: WpaSpec, current: int): int
    requires spec.targetMessagesPerWorker != 0
  {
    GetDesiredWorkers(InputsOf(info, spec), current)
  }

  // The operation one sync performs.
  function SyncOperation(w: World, delay: int, info: QueueInfo, spec: WpaSpec, s: Surroundings): ScaleOperation
    requires spec.targetMessagesPerWorker != 0
  {
    if !Ready(info) then ScaleNoop
    else GetScaleOperation(Desired(info, spec, w.replicas), w.replicas, w.status.lastScaleTime, delay, s.decidedAt)
  }

  // What the cluster stores after one sync.
  function Sync(w: World, delay: int, info: QueueInfo, spec: WpaSpec, s: Surroundings): World
    requires spec.targetMessagesPerWorker != 0
  {
    if !Ready(info) then w
    else
      var desired := Desired(info, spec, w.replicas);
      var scaled := SyncOperation(w, delay, info, spec, s) != ScaleNoop;
      World(
        if scaled then desired else w.replicas,
        if !s.statusAccepted then w.status
        else Status(info.messages, w.replicas, s.available, desired,
                    if scaled then Some(s.scaledAt) else w.status.lastScaleTime))
  }

  class Controller {
    const scaleDownDelay: int
    var replicas: int
    var status: Status

    constructor (scaleDownDelay: int, replicas: int, status: Status)
      ensures this.scaleDownDelay == scaleDownDelay
      ensures Stored() == World(replicas, status)
    {
      this.scaleDownDelay := scaleDownDelay;
      this.replicas := replicas;
      this.status := status;
    }

    function Stored(): World
      reads this
    {
      World(replicas, status)
    }

    method UpdateReplicas(desired: int)
      modifies this`replicas
      ensures replicas == desired
    {
      replicas := desired;
    }

    // Skips the write when the status would not change. Skipping cannot be
    // told from writing; a refused write leaves the status as it was.
    method UpdateWorkerPodAutoScalerStatus(
        desired: int, current: int, available: int, messages: int, lastScaleTime: Option<int>, accepted: bool)
      modifies this`status
      ensures status == if accepted then Status(messages, current, available, desired, lastScaleTime) else old(status)
    {
      if status.currentReplicas == current
         && status.availableReplicas == available
         && status.desiredReplicas == desired
         && status.currentMessages == messages
         && status.lastScaleTime == lastScaleTime
      {
        return;
      }
      if accepted {
        status := Status(messages, current, available, desired, lastScaleTime);
      }
    }

    method SyncHandler(info: QueueInfo, spec: WpaSpec, s: Surroundings) returns (op: ScaleOperation)
      requires spec.targetMessagesPerWorker != 0
      modifies this
      ensures op == SyncOperation(old(Stored()), scaleDownDelay, info, spec, s)
      ensures Stored() == Sync(old(Stored()), scaleDownDelay, info, spec, s)
    {
      var currentWorkers := replicas;
      if info.name == "" {
        return ScaleNoop;
      }
      if info.messages == UNSYNCED_QUEUE_MESSAGE_COUNT {
        return ScaleNoop;
      }
      var desiredWorkers := GetDesiredWorkers(InputsOf(info, spec), currentWorkers);
      var lastScaleTime := status.lastScaleTime;
      op := GetScaleOperation(desiredWorkers, currentWorkers, lastScaleTime, scaleDownDelay, s.decidedAt);
      if op == ScaleUp || op == ScaleDown {
        UpdateReplicas(desiredWorkers);
        lastScaleTime := Some(s.scaledAt);
      }
      UpdateWorkerPodAutoScalerStatus(
        desiredWorkers, currentWorkers, s.available, info.messages, lastScaleTime, s.statusAccepted);
    }
  }

  // ---------- Single syncs ----------

  // From zero replicas, work in the queue scales up at once, whatever the
  // status says about earlier scaling; from any count it never leaves zero.
  lemma WakesAndStaysAwake(w: World, delay: int, info: QueueInfo, spec: WpaSpec, s: Surroundings)
    requires spec.targetMessagesPerWorker > 0 && spec.maxReplicas >= 1
    requires info.name != "" && info.messages > 0 && w.replicas >= 0
    ensures w.replicas == 0 ==> SyncOperation(w, delay, info, spec, s) == ScaleUp
    ensures Sync(w, delay, info, spec, s).replicas >= 1
  {
    var x := InputsOf(info, spec);
    ClosedForm(x, w.replicas);
    BacklogWorkersIsLeast(x, 0);
  }

  // The count a sync leaves, for every n: at most n if n workers are enough for
  // the queue it read and the spec it follows, and the cool-off does not hold
  // it above n. An unknown queue, or one without a message count, is left alone.
  lemma SyncScalesToLeast(w: World, delay: int, info: QueueInfo, spec: WpaSpec, s: Surroundings, n: int)
    requires spec.targetMessagesPerWorker > 0 && w.replicas >= 0
    ensures info.name == "" || info.messages == -1 ==> Sync(w, delay, info, spec, s) == w
    ensures info.name != "" && info.messages != -1 ==>
      var held := w.status.lastScaleTime.Some? && s.decidedAt <= w.status.lastScaleTime.value + delay;
      Sync(w, delay, info, spec, s).replicas <= n
      <==> && Enough(info.messages, info.messagesSentPerMinute, spec.secondsToProcessOneJob,
                     spec.targetMessagesPerWorker, info.idleWorkers, spec.minReplicas, spec.maxReplicas,
                     spec.maxDisruption, w.replicas, n)
           && (held ==> w.replicas <= n)
  {
    DesiredIsLeast(InputsOf(info, spec), w.replicas, n);
  }

  // What the status says after an accepted update: the messages and workers the
  // sync saw, the least count that was enough, and the time of the last change.
  lemma StatusTellsTheSync(w: World, delay: int, info: QueueInfo, spec: WpaSpec, s: Surroundings, n: int)
    requires spec.targetMessagesPerWorker > 0 && w.replicas >= 0
    requires info.name != "" && info.messages != -1
    ensures var after := Sync(w, delay, info, spec, s);
      if !s.statusAccepted then after.status == w.status
      else
        && after.status.currentMessages == info.messages
        && after.status.currentReplicas == w.replicas
        && after.status.availableReplicas == s.available
        && after.status.lastScaleTime == (if after.replicas != w.replicas then Some(s.scaledAt)
                                          else w.status.lastScaleTime)
        && (after.status.desiredReplicas <= n
            <==> Enough(info.messages, info.messagesSentPerMinute, spec.secondsToProcessOneJob,
                        spec.targetMessagesPerWorker, info.idleWorkers, spec.minReplicas, spec.maxReplicas,
                        spec.maxDisruption, w.replicas, n))
  {
    DesiredIsLeast(InputsOf(info, spec), w.replicas, n);
  }

  // From zero replicas a sync goes to the least count that covers the backlog.
  lemma FromZeroCoversBacklog(w: World, delay: int, info: QueueInfo, spec: WpaSpec, s: Surroundings, n: int)
    requires spec.targetMessagesPerWorker > 0 && w.replicas == 0
    requires info.name != "" && info.messages > 0 && spec.secondsToProcessOneJob == 0.0
    requires match spec.maxDisruption case Abs(limit) => limit >= 0 case Percent(p) => p >= 0
    requires 0 <= spec.minReplicas <= n < spec.maxReplicas
    ensures Sync(w, delay, info, spec, s).replicas <= n <==> info.messages <= n * spec.targetMessagesPerWorker
  {
    SyncScalesToLeast(w, delay, info, spec, s, n);
    SyncScalesToLeast(w, delay, info, spec, s, -1);
  }
}
