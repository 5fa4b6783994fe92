# Worker pod autoscaler: a verified model

This project models the worker pod autoscaler of practo/k8s-worker-pod-autoscaler
as a control loop fed by a shared in-memory table of queues, and proves what the
loop does over whole runs and under every interleaving of its goroutines.

- `Replicas.dfy`, `ReplicaDynamics.dfy`: the replica calculator
  (`GetDesiredWorkers` and its helpers) and what happens when it is applied again
  and again: convergence without oscillation, geometric descent, the exact set of
  fixed points and what they guarantee, monotonicity. `ReplicaExceptions.dfy` says
  exactly when it settles under negative limits and when it is not monotone in the
  current count. `Orbits.dfy` holds the reasoning about iterated steps that does not
  depend on the calculator.
- `ScaleOperations.dfy`, `Controller.dfy`, `ControllerRuns.dfy`: the cool-off, the
  decision part of `syncHandler` as a class, and runs of syncs with edits by others
  in between: cool-off, removal budget, and the closed loop as a delayed orbit of
  the calculator. `ScaleLogs.dfy` counts scale downs in windows of time.
- `QueueTable.dfy`, `SyncInterleaving.dfy`: the queue table actor as a class, its
  behaviour one key at a time, and syncs, poller updates and deletes interleaved at
  every channel operation.
- `Poller.dfy`, `PollerInterleaving.dfy`: the thread map actor and one manager tick
  as a class, and the manager, its goroutines and the table interleaved.
- `MetricCaches.dfy`, `Polls.dfy`, `PollEffects.dfy`, `PollContract.dfy`: the
  one-minute metric cache, the two poll procedures as classes, what they leave in the
  table for every answer of the services, and the contract that polls give to the
  calculator's massive scale down. `Wrappers.dfy` holds the option and result types.

Times are integers on one clock. Counts are unbounded integers; on int32 counts
the source's float64 quotients, ceilings and the comparison with 0.1 are exact, so
they appear as integer arithmetic. For the percentage limit this takes
percentages of ordinary size, whose product with the count a float64 holds
exactly. Rates and processing times are reals. Results
of remote services, clock readings and the informers' view of replicas are
parameters. Statements about code that changes state come in two parts: a method
proved equal to a function of the old state, and lemmas about that function.

Where the code does not do what it or its documentation says, or what one might
expect of it, with the exact condition in each case:

- README.md of the repository promises that one scale down removes no more than
  `maxDisruption`. The massive scale down ignores the limit, and so does the cut at
  `maxReplicas`. `ReplicaDynamics.DisruptionPromise` gives the exact condition under
  which the promise holds, `ReplicaDynamics.DisruptionPromiseBroken` an input where
  it does not.
- A failed status update is only logged, so the scale action it belongs to is not
  remembered and the cool-off does not apply to it
  (`ControllerRuns.CoolOffFailsExactlyWhen`, `ControllerRuns.LostStatusBreaksCoolOff`).
  `ControllerRuns.CoolOff` needs only that the earlier action was recorded.
- `Add` lists the table and sends later, so it undoes updates and deletes served in
  between (`SyncInterleaving.AddIsAtomicExactlyWhen`).
- The massive scale down relies on the last poll having finished without an error
  (`PollContract.MassiveDuringSqsPoll`, `PollContract.UnfinishedPollIsUnsafe`).
- A negative `maxDisruption` is accepted and makes the count climb in steps
  (`ReplicaExceptions.NegativeLimitWithBacklog` and the three lemmas beside it).
- More current workers can lead to fewer desired ones
  (`ReplicaExceptions.BacklogInversions`, `ReplicaExceptions.IdleInversions`).

## Model

| member | source | states |
|---|---|---|
| Replicas.ClosedForm | pkg/controller/controller.go:648-784 | All six return paths equal one formula: the goal, raised to the disruption floor and to the effective minimum, then cut at the maximum, which wins |
| Replicas.DesiredIsLeast | pkg/controller/controller.go:602-784 | The answer is the least count that is enough, over the arguments alone and without rounding: it meets the minimum, keeps up with the rate, covers the messages or stays within ten percent of the demand, and removes no more than the limit allows, unless the path is massive; the maximum is always enough |
| Replicas.CeilDivRoundsUp | pkg/controller/controller.go:679-681 | The quotient rounded up: the one integer r with r - 1 < a / b <= r, for either sign of the target |
| Replicas.BacklogWorkersIsLeast | pkg/controller/controller.go:679-681 | The backlog demand is the least worker count whose targets cover the messages |
| Replicas.EffectiveMinIsLeast | pkg/controller/controller.go:624-641 | The effective minimum is the least count that is at least minReplicas and, if a processing time is set, works through a minute's messages in a minute |
| Replicas.PercentLimit | pkg/controller/controller.go:602-620 | A percentage limit is that share of the current count, rounded up |
| Replicas.DeadBandIsTenPercent | pkg/controller/controller.go:643-645 | The integer tolerance test used throughout is the source's quotient compared with 0.1 |
| ReplicaDynamics.Settling | pkg/controller/controller.go:602-784 | For all sensible inputs every step from a natural count stays natural, an upward step lands on a fixed point, and a step that does not go up is not followed by one that does |
| ReplicaDynamics.Convergence | pkg/controller/controller.go:602-784 | Every orbit is at a fixed point after max(1, start) steps |
| ReplicaDynamics.NoOscillation | pkg/controller/controller.go:602-784 | An orbit either jumps up once and stays there for good, or never rises |
| ReplicaDynamics.UnsettledStepIsLimited | pkg/controller/controller.go:762-784 | A step that does not reach a fixed point removed at least the whole disruption limit |
| ReplicaDynamics.GeometricBound | pkg/controller/controller.go:602-620 | With a limit of p percent an orbit state n that is not a fixed point satisfies 100^n * c_n <= (100 - p)^n * c_0 |
| ReplicaDynamics.LogarithmicSettling | pkg/controller/controller.go:602-620 | n steps settle as soon as 100^n > (100 - p)^n * start |
| ReplicaDynamics.LinearSettling | pkg/controller/controller.go:602-620 | With an absolute limit N, n steps settle as soon as n * N >= start |
| ReplicaDynamics.BacklogFixedPoints | pkg/controller/controller.go:692-784 | While there is a backlog, exactly which counts are fixed points, for every disruption limit including zero |
| ReplicaDynamics.SteadyState | pkg/controller/controller.go:702-720 | With a limit of at least one worker, a count is a fixed point if and only if it is the clamped backlog demand or is in bounds and within ten percent of the demand |
| ReplicaDynamics.IdleFixedPoints | pkg/controller/controller.go:721-759 | Without a backlog the fixed points are the effective minimum cut at the maximum, and counts that a zero limit pins |
| ReplicaDynamics.SteadyStateServes | pkg/controller/controller.go:624-735 | A fixed point below the maximum carries the backlog within ten percent, 10 q <= 11 c target, and keeps up with the message rate |
| ReplicaDynamics.MonotoneInBacklog | pkg/controller/controller.go:679-720 | More messages or a smaller target never lead to fewer workers, across the switch between no backlog and backlog |
| ReplicaDynamics.MonotoneInRate | pkg/controller/controller.go:624-735 | A higher message rate never leads to fewer workers, across the throughput and massive scale down switches |
| ReplicaDynamics.MonotoneInProcessingTime | pkg/controller/controller.go:624-735 | With a non-negative rate a longer processing time never leads to fewer workers, also when it switches the throughput floor on |
| ReplicaDynamics.JointMonotonicity | pkg/controller/controller.go:648-784 | All of backlog, rate, processing time, bounds, target and limit together: larger demands never lead to fewer workers, whichever paths the two calls take |
| ReplicaDynamics.InRange | pkg/controller/controller.go:762-784 | Every path returns a value between the effective minimum, cut at the maximum, and the maximum |
| ReplicaDynamics.NeverZeroWithWork | pkg/controller/controller.go:678-719 | With messages in the queue and a positive maximum the result is at least one |
| ReplicaDynamics.StepBound | pkg/controller/controller.go:762-784 | Outside the massive path the result is not below the current count minus the limit, unless the maximum is |
| ReplicaDynamics.DisruptionPromise | README.md:89-116 | One scale down removes at most maxDisruption if and only if the count exceeds the maximum by no more than the limit and a massive scale down is stopped in time by the effective minimum |
| ReplicaDynamics.DisruptionPromiseBroken | pkg/controller/controller.go:737-749 | A limit of 125 and a drop from 500 to 2 |
| ReplicaExceptions.BacklogInversions | pkg/controller/controller.go:702-720 | With a backlog, exactly which pairs of counts a < b get results in the opposite order, for every natural limit |
| ReplicaExceptions.IdleInversions | pkg/controller/controller.go:721-759 | The same without a backlog: the larger count takes the massive path and the limit holds the smaller one above the effective minimum |
| ReplicaExceptions.MoreCurrentFewerDesired | pkg/controller/controller.go:702-712 | One input for each of the two ways in which a backlog can invert results |
| ReplicaExceptions.NegativeLimitWithBacklog | pkg/controller/controller.go:602-620 | With a backlog and a negative absolute limit the calculator settles from every count if and only if the effective minimum reaches the maximum, or one forced step reaches it from zero, or the demand reaches it and one forced step does from the lower edge of the tolerance |
| ReplicaExceptions.NegativeLimitWithoutBacklog | pkg/controller/controller.go:602-620 | The same without a backlog, where a reachable massive branch must lead back to its own count |
| ReplicaExceptions.NegativePercentWithBacklog | pkg/controller/controller.go:602-620 | With a backlog and a negative percentage, exactly when the calculator settles from every count |
| ReplicaExceptions.NegativePercentWithoutBacklog | pkg/controller/controller.go:602-620 | The same without a backlog |
| ReplicaExceptions.NegativeLimitKeepsClimbing | pkg/controller/controller.go:602-620 | An input where it does not settle: 10 becomes 13 becomes 16 |
| Controllers.Controller.UpdateWorkerPodAutoScalerStatus | pkg/controller/controller.go:786-828 | The status afterwards is the new one if the server accepts it, also when the write is skipped, and the old one otherwise |
| Controllers.Controller.SyncHandler | pkg/controller/controller.go:431-534 | One sync performs the specified operation and leaves the specified replicas and status |
| Controllers.SyncScalesToLeast | pkg/controller/controller.go:431-534 | For every n, a sync leaves at most n replicas if and only if n is enough for the queue info and the resource's own fields, and the cool-off does not hold the count above n; an unknown or uncounted queue is left alone |
| Controllers.StatusTellsTheSync | pkg/controller/controller.go:786-828 | An accepted status holds the messages and workers the sync saw, the least count that was enough, and the time of the last change; a refused one stays |
| Controllers.FromZeroCoversBacklog | pkg/controller/controller.go:446-513 | From zero replicas a sync goes to the least count that covers the backlog |
| Controllers.WakesAndStaysAwake | pkg/controller/scale_operation.go:18-39 | With messages, a sync from zero replicas scales up whatever the cool-off says, and no sync leaves zero replicas |
| ControllerRuns.CoolOff | pkg/controller/scale_operation.go:41-71 | In every run each scale down happens more than the delay after every earlier recorded scale up or down |
| ControllerRuns.NoDropWithinDelay | pkg/controller/scale_operation.go:41-71 | No sync within the delay after a recorded action lowers the count |
| ControllerRuns.ScalesDownExactlyWhen | pkg/controller/scale_operation.go:18-71 | A sync of a run scales down if and only if it wants fewer workers and the latest recorded action, if any, is more than the delay ago |
| ControllerRuns.CoolOffFailsExactlyWhen | pkg/controller/controller.go:504-534 | Within the delay after the last action a sync that wants fewer workers scales down if and only if that action's status update was refused and the action recorded before it, if any, is old enough |
| ControllerRuns.LostStatusBreaksCoolOff | pkg/controller/controller.go:822-826 | After a refused status update two scale downs follow each other at once |
| ControllerRuns.FewScaleDowns | pkg/controller/scale_operation.go:43-71 | n scale downs in a window of length W satisfy (n - 1) * delay <= W |
| ControllerRuns.RemovalBudget | pkg/controller/controller.go:762-784 | With an absolute limit N the scale downs in a window of length W remove at most N * (1 + W / delay) pods |
| ScaleLogs.WindowBudget | pkg/controller/scale_operation.go:41-71 | The counting step of the budget, for any log whose scale downs are spaced and limited |
| ControllerRuns.FollowsOrbit | pkg/controller/controller.go:446-534 | Under steady conditions the stored count after any syncs is the calculator's orbit at the number of scale actions so far |
| ControllerRuns.SteadyRunNeverReverses | pkg/controller/controller.go:446-534 | A run under steady conditions never reverses direction, whatever the timing of its syncs |
| ControllerRuns.SpacedSyncsSettle | pkg/controller/controller.go:446-534 | max(1, replicas) syncs more than a delay apart end at a fixed point, which below the maximum carries the backlog within ten percent and keeps up with the rate |
| ControllerRuns.SpacedSyncsSettleFast | pkg/controller/controller.go:446-534 | With a limit of p percent, n such syncs are enough once 100^n > (100 - p)^n * replicas, for the same service |
| ControllerRuns.SpacedSyncsSettleLinearly | pkg/controller/controller.go:446-534 | With an absolute limit N, n such syncs are enough once n * N >= replicas, for the same service |
| QueueTable.Queues.Serve | pkg/queue/queue.go:93-144 | Serving one command changes the table as specified, in whatever order the loops visit the message's keys |
| QueueTable.Queues.List | pkg/queue/queue.go:202-216 | Exactly the queues of one service, copied from the table, under exactly their keys |
| QueueTable.Queues.Add | pkg/queue/queue.go:146-195 | Stores name, namespace, URI, host, protocol, service, workers and processing time as given, with the metrics known for the key or the unsynced sentinels; changes nothing else, and nothing for unusable URIs |
| QueueTable.AddedQueueIsListed | pkg/queue/queue.go:146-241 | An added queue is listed for its own service and no other, other listings stay, and a sync finds its name and the known metrics |
| QueueTable.Queues.GetQueueInfo | pkg/queue/queue.go:218-241 | The stored name and metrics, or an empty name |
| QueueTable.KeysAreInjective | pkg/queue/queue.go:257-259 | Resources in slash-free namespaces share a key only if they are the same |
| QueueTable.KeyRunsAlone | pkg/queue/queue.go:93-144 | Each key of the table runs a machine of its own that sees only its own commands |
| QueueTable.EqualPerKeyMeansEqual | pkg/queue/queue.go:93-144 | Command sequences with equal per-key subsequences give equal tables |
| QueueTable.DisjointCommandsCommute | pkg/queue/queue.go:93-144 | Commands without a common key commute |
| QueueTable.CommandsTouchTheirKeys | pkg/queue/queue.go:93-144 | Over any commands a key that none of them names keeps its queue, and one that the last of them adds or deletes has the added spec or is gone |
| QueueTable.DeletedStaysDeleted | pkg/queue/queue.go:101-136 | No metric update re-creates a deleted key |
| QueueTable.MetricUpdatesOneField | pkg/queue/queue.go:101-130 | A metric update stores the sent value in its one field of the keys it names that are there, and changes nothing else |
| QueueTable.MessagesIgnoreOtherMetrics | pkg/queue/queue.go:101-130 | The message count of a key depends only on commands other than rate and idle updates |
| QueueTable.LastUpdatesWin | pkg/queue/queue.go:101-130 | Between adds and deletes each metric of a key holds the last value sent for it |
| SyncInterleaving.Provenance | pkg/queue/queue.go:93-195 | In every interleaving each stored or in-flight metric is the sentinel or was sent by a poller for that key, and every replica write is the calculator's answer to such metrics |
| SyncInterleaving.NoWriteBeforeCount | pkg/controller/controller.go:431-444 | No replicas of a key are written before a poller sent a real message count for it |
| SyncInterleaving.WritesInBounds | pkg/controller/controller.go:504-513 | However stale the count a sync read, it writes a value between minReplicas and maxReplicas |
| SyncInterleaving.ReplicasStayInBounds | pkg/controller/controller.go:504-513 | Replicas that start in bounds stay there in every interleaving |
| SyncInterleaving.UninterruptedAdd | pkg/queue/queue.go:172-193 | With nobody in between, the two phases are the atomic Add |
| SyncInterleaving.UninterruptedSync | pkg/controller/controller.go:405-513 | With nobody in between, the four steps of a sync are the controller's sync on the queue that the atomic Add left |
| SyncInterleaving.PolledMetricsDriveSync | pkg/queue/queue.go:101-130 | In any state with a queue for the key, the count, rate and idle count that pollers send decide what the next sync writes |
| SyncInterleaving.UninterruptedDelete | pkg/controller/controller.go:356-440 | A delete event, or a resource that is gone, takes the queue out of the table and writes no replicas |
| SyncInterleaving.SendIsAtomicExactlyWhen | pkg/queue/queue.go:169-193 | A send leaves the table that an atomic Add would leave if and only if the metrics it listed are the stored ones |
| SyncInterleaving.AddIsAtomicExactlyWhen | pkg/queue/queue.go:169-193 | With any steps of others between the two phases, an Add is atomic if and only if the key's own commands among them leave the listed metrics |
| SyncInterleaving.SendRestoresListedMetrics | pkg/queue/queue.go:169-193 | Whatever is served in between, updates and deletes included, the key is there afterwards with the metrics that were listed |
| SyncInterleaving.AddLosesUpdatesExactlyWhen | pkg/queue/queue.go:169-193 | Without adds and deletes of the key in between, an Add is atomic if and only if no metric's last update brought a new value |
| Pollers.Poller.ServeUpdate | pkg/queue/poller.go:67-74 | The thread map after one update message, in whatever order its keys are visited |
| Pollers.Poller.IsThreadRequired | pkg/queue/poller.go:29-35 | True exactly for keys stored as true |
| Pollers.Poller.Tick | pkg/queue/poller.go:87-103 | After the two loops the threads are exactly the listed queues, all true, and one goroutine was started for each queue that had no thread |
| PollerInterleaving.TickReconciles | pkg/queue/poller.go:82-109 | The same under every interleaving with table commands and goroutines |
| PollerInterleaving.RoundEnds | pkg/queue/poller.go:87-103 | Among any steps of others, a tick takes at most three manager steps per listed queue, one per thread and two more, and the manager waits again exactly when it has no step left |
| PollerInterleaving.RoundReconciles | pkg/queue/poller.go:82-109 | When the manager waits again after a tick, whatever happened meanwhile, the threads are exactly the service's queues in the table at the tick, and one goroutine was started for each that had no thread |
| PollerInterleaving.SpawnsAreNewListings | pkg/queue/poller.go:88-96 | Between ticks a goroutine was started for a key exactly as often as the key was in one listing and not in the one before |
| PollerInterleaving.SpawnBound | pkg/queue/poller.go:37-109 | Live goroutines for a key <= started ones <= appearances of the key among the service's queues, so one at most while presence is uninterrupted |
| PollerInterleaving.OneGoroutinePerQueue | pkg/queue/poller.go:37-109 | A queue that stays in the table once it has appeared never has two live goroutines, in any interleaving |
| PollerInterleaving.PollThreadPolls | pkg/queue/poller.go:37-48 | While its thread and queue stay, among any steps of others, a goroutine starts a poll with its third step and every fourth one after that, and never exits |
| PollerInterleaving.PollThreadStops | pkg/queue/poller.go:37-48 | A step ends a goroutine if and only if it is a check without a thread or a listing without a queue; it starts no poll then and never resumes |
| PollerInterleaving.PollThreadTerminates | pkg/queue/poller.go:37-48 | Once its key is gone for good, a goroutine exits within four of its own steps and starts one more poll only if it had already listed the queue |
| MetricCaches.MetricCache.CachedNumber | pkg/queue/sqs.go:227-299 | One cached read returns the specified value and leaves the specified cache |
| MetricCaches.CacheIsFresh | pkg/queue/sqs.go:240-262 | Over any calls on any queues the value returned is the latest one fetched for that queue, and less than 60 seconds old |
| MetricCaches.CacheAnswers | pkg/queue/sqs.go:240-262 | A call returns the value of a fetch for its queue less than 60 seconds ago if there is one, else the service's answer; it fails if and only if the service was asked and failed |
| MetricCaches.FetchesAreSpaced | pkg/queue/sqs.go:240-262 | Successful fetches for one queue are at least 60 seconds apart |
| MetricCaches.ErrorsChangeNothing | pkg/queue/sqs.go:255-258 | A failed read leaves the cache as it was |
| Polls.SQS.Poll | pkg/queue/sqs.go:374-493 | One SQS poll sends the specified updates one by one; it asks for the rate exactly if a processing time is set and it does not long-poll, and for the received messages exactly if both counts were read and are zero |
| Polls.LongPollReceive | pkg/queue/beanstalk.go:228-253 | A Beanstalk long poll reports at most one message and never an idle worker |
| Polls.Beanstalk.Poll | pkg/queue/beanstalk.go:340-420 | One Beanstalk poll sends the specified updates |
| PollEffects.SqsEffect | pkg/queue/sqs.go:374-493 | The whole table after the first n updates of an SQS poll, on every path including the error paths |
| PollEffects.BeanstalkEffect | pkg/queue/beanstalk.go:340-420 | The whole table after the first n updates of a Beanstalk poll |
| PollEffects.SqsLongPollOutcome | pkg/queue/sqs.go:375-401 | With no workers, messages and rate, the whole poll stores idle -1 and the messages received, or idle -1 alone after an error |
| PollEffects.SqsPollErrors | pkg/queue/sqs.go:403-452 | An error of the rate leaves the table as it was; an error of one of the two counts stores the rate alone |
| PollEffects.SqsPollOutcome | pkg/queue/sqs.go:403-493 | With both counts read, the whole poll stores the rate if asked for, visible plus in-flight messages, and idle -1, the old count, all workers or 0 |
| PollEffects.BeanstalkLongPollOutcome | pkg/queue/beanstalk.go:228-253 | A known reserved job, at the first try or after a reconnect, stores 1 message and 0 idle workers; a timeout stores 0 and 0; anything else nothing |
| PollEffects.BeanstalkPollOutcome | pkg/queue/beanstalk.go:128-167 | Ready plus reserved jobs become the messages, the waiting clients of a second request the idle workers of an empty tube; a missing tube is empty, reconnects are tried once, other failures keep the stored values |
| PollEffects.SqsWakes | pkg/queue/sqs.go:375-401 | A queue at rest wakes: once the long poll receives messages, a sync from zero replicas scales up at once |
| PollEffects.BeanstalkWakes | pkg/queue/beanstalk.go:340-362 | The same for a reserved job of a Beanstalk tube |
| PollContract.MassiveOnlyWhenQuiet | pkg/controller/controller.go:737-749 | With running workers the massive path is taken only if a request of the last poll failed, or the poll found no visible and no reserved messages and, for SQS, a count of zero received messages fetched less than 60 seconds before, for Beanstalk as many waiting clients as workers |
| PollContract.MassiveDuringSqsPoll | pkg/queue/sqs.go:403-490 | After any number of a poll's updates, exactly when a sync with running workers takes the massive path |
| PollContract.MassiveDuringSqsLongPoll | pkg/queue/sqs.go:375-401 | The same for a poll that long-polls: only before its first update |
| PollContract.MassiveDuringBeanstalkPoll | pkg/queue/beanstalk.go:340-420 | The same for a Beanstalk poll, long-polling or not |
| PollContract.UnfinishedPollIsUnsafe | pkg/queue/sqs.go:454-490 | Once the counts are sent, the massive path is taken without a reading of zero received messages if and only if the poll stopped or was interrupted right there with both counts zero, on an earlier poll's idle count; an error of the last request leaves that state behind |
| PollContract.StaleIdleIsReachable | pkg/queue/sqs.go:476-490 | A run from the empty table leads to such an idle count, for any named queue and any number of workers |
| PollContract.UnsafeScaleDownIsReachable | pkg/queue/sqs.go:454-490 | A run after which the next poll reads received messages and yet, between its updates, a sync scales down massively |

## Left out

- Kubernetes clients, informers, work queue, retries on conflict, events and Prometheus metrics: replicas and status are read and written as plain state.
- `klog.Fatalf` exits: an unparsable `maxDisruption`, a missing deployment during an update, an unparsable Beanstalk number.
- A target of zero messages per worker: the source then converts an infinite float, which Go leaves open; the calculator requires a non-zero target.
- int32 overflow and float rounding of rates: counts are unbounded and rates are exact.
- Truncation of stored times to whole seconds: one integer clock is used for readings and stored times.
- Informer delay of the status: within a run a sync reads the status that the previous one left. Stale replica counts are covered by the interleaved model.
- URI parsing, service detection and regular expressions: their result is a parameter of `Add`.
- CloudWatch queries and the sums and averages over their data points: a fetch is one value or an error.
- Connections and the client pool of Beanstalk, sleeping and poll intervals: a request succeeds, fails, or succeeds after one reconnect.
- Concurrent use of one metric cache by two poll goroutines of the same queue: cache calls are sequential.
- Stopping through `stopCh`, and `runPollThread` as an executable loop: it appears as the steps of a goroutine, since it may run forever.
- PollContract.MassiveOnlyWhenQuiet: polls and Adds are whole events there, because inside a poll the property is false; PollContract.MassiveDuringSqsPoll and the lemmas beside it say exactly when.
