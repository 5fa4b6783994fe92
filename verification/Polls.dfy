/**
 One poll of a queue: SQS.poll (pkg/queue/sqs.go) and Beanstalk.poll
 (pkg/queue/beanstalk.go). The remote services are oracles: values or errors.
 */
module Polls {
  import opened QueueTable
  import opened MetricCaches
  import opened Wrappers

  const NOT_IDLE := -1

  // One command for one key.
  function MessagesCommand(key: Key, count: int): Command { UpdateMessages(map[key := count]) }
  function MessagesSentCommand(key: Key, rate: real): Command { UpdateMessagesSent(map[key := rate]) }
  function IdleWorkersCommand(key: Key, idle: int): Command { UpdateIdleWorkers(map[key := idle]) }

  lemma {:induction false} ApplyLast(t: Table, cs: seq<Command>, c: Command)
    ensures ApplyAll(t, cs + [c]) == Apply(ApplyAll(t, cs), c)
    decreases |cs|
  {
    if cs == [] {
      assert ([] + [c])[1..] == [];
    } else {
      assert (cs + [c])[1..] == cs[1..] + [c];
      ApplyLast(Apply(t, cs[0]), cs[1..], c);
    }
  }

  // One channel send, with the updates sent since start as ghost state.
  method Send(queues: Queues, c: Command, ghost cs: seq<Command>, ghost start: Table)
    returns (ghost all: seq<Command>)
    requires queues.item == ApplyAll(start, cs)
    modifies queues
    ensures all == cs + [c] && queues.item == ApplyAll(start, all)
  {
    ApplyLast(start, cs, c);
    queues.Serve(c);
    all := cs + [c];
  }

  // ---------- SQS ----------

  // The clock readings around a metric request and the service's answer.
  datatype Answer = Answer(firstNow: int, now: int, value: Result<real>)

  function Ask(uri: string, a: Answer): Call {
    Call(uri, a.firstNow, a.now, a.value)
  }

  // The outside of one SQS poll.
  datatype SqsOracle = SqsOracle(
    longPoll: Result<int>, visible: Result<int>, inFlight: Result<int>, sent: Answer, received: Answer)

  // What one SQS poll gets to see, the metrics through their caches.
  datatype SqsReadings = SqsReadings(
    longPoll: Result<int>, sent: Result<real>, visible: Result<int>, inFlight: Result<int>, received: Result<real>)

  function ReadSqs(spec: QueueSpec, sent: Cache, received: Cache, o: SqsOracle): SqsReadings {
    SqsReadings(o.longPoll, Returned(sent, Ask(spec.uri, o.sent)), o.visible, o.inFlight,
                Returned(received, Ask(spec.uri, o.received)))
  }

  predicate SqsLongPolls(spec: QueueSpec) {
    spec.workers == 0 && spec.messages == 0 && spec.messagesSentPerMinute == 0.0
  }

  predicate AsksSent(spec: QueueSpec) {
    !SqsLongPolls(spec) && spec.secondsToProcessOneJob != 0.0
  }

  // The poll got as far as reading both message counts.
  predicate Counted(spec: QueueSpec, r: SqsReadings) {
    && !SqsLongPolls(spec)
    && (AsksSent(spec) ==> r.sent.Ok?)
    && r.visible.Ok? && r.inFlight.Ok?
  }

  predicate AsksReceived(spec: QueueSpec, r: SqsReadings) {
    Counted(spec, r) && r.visible.value == 0 && r.inFlight.value <= 0
  }

  // The idle workers update that ends a poll, if there is one.
  function IdleCommands(key: Key, workers: int, visible: int, inFlight: int, received: Result<real>): seq<Command> {
    if visible != 0 then [IdleWorkersCommand(key, NOT_IDLE)]
    else if inFlight <= 0 && received.Ok? then
      [IdleWorkersCommand(key, if received.value == 0.0 then workers else 0)]
    else []
  }

  // The updates the poll sends, in order.
  function SqsCommands(key: Key, spec: QueueSpec, r: SqsReadings): seq<Command> {
    if SqsLongPolls(spec) then
      [IdleWorkersCommand(key, NOT_IDLE)]
      + (if r.longPoll.Ok? then [MessagesCommand(key, r.longPoll.value)] else [])
    else
      (if AsksSent(spec) && r.sent.Ok? then [MessagesSentCommand(key, r.sent.value)] else [])
      + (if Counted(spec, r) then
           [MessagesCommand(key, r.visible.value + r.inFlight.value)]
           + IdleCommands(key, spec.workers, r.visible.value, r.inFlight.value, r.received)
         else [])
  }

  // The poll met no error on its way.
  predicate SqsCompletes(spec: QueueSpec, r: SqsReadings) {
    if SqsLongPolls(spec) then r.longPoll.Ok?
    else Counted(spec, r) && (AsksReceived(spec, r) ==> r.received.Ok?)
  }

  class SQS {
    const queues: Queues
    const sentCache: MetricCache
    const receiveCache: MetricCache

    constructor (queues: Queues, sentCache: MetricCache, receiveCache: MetricCache)
      ensures this.queues == queues && this.sentCache == sentCache && this.receiveCache == receiveCache
    {
      this.queues, this.sentCache, this.receiveCache := queues, sentCache, receiveCache;
    }

    function Seen(spec: QueueSpec, o: SqsOracle): SqsReadings
      reads sentCache, receiveCache
    {
      ReadSqs(spec, sentCache.Contents(), receiveCache.Contents(), o)
    }

    // Sends its updates one by one and returns early on errors. The caches
    // change only when they are asked.
    method Poll(key: Key, spec: QueueSpec, o: SqsOracle)
      requires sentCache != receiveCache
      modifies queues, sentCache, receiveCache
      ensures queues.item == ApplyAll(old(queues.item), SqsCommands(key, spec, old(Seen(spec, o))))
      ensures var asked := spec.secondsToProcessOneJob != 0.0
                           && !(spec.workers == 0 && spec.messages == 0 && spec.messagesSentPerMinute == 0.0);
        (asked <==> AsksSent(spec))
        && sentCache.Contents()
        == if asked
           then AfterCall(old(sentCache.Contents()), Call(spec.uri, o.sent.firstNow, o.sent.now, o.sent.value))
           else old(sentCache.Contents())
      ensures var rate := Returned(old(sentCache.Contents()),
                                   Call(spec.uri, o.sent.firstNow, o.sent.now, o.sent.value));
        var asked := && o.visible == Ok(0) && o.inFlight.Ok? && o.inFlight.value <= 0
                     && (spec.secondsToProcessOneJob != 0.0 ==> rate.Ok?)
                     && !(spec.workers == 0 && spec.messages == 0 && spec.messagesSentPerMinute == 0.0);
        (asked <==> AsksReceived(spec, old(Seen(spec, o))))
        && receiveCache.Contents()
        == if asked
           then AfterCall(old(receiveCache.Contents()),
                          Call(spec.uri, o.received.firstNow, o.received.now, o.received.value))
           else old(receiveCache.Contents())
    {
      ghost var seen := Seen(spec, o);
      ghost var cs: seq<Command> := [];
      if spec.workers == 0 && spec.messages == 0 && spec.messagesSentPerMinute == 0.0 {
        cs := Send(queues, IdleWorkersCommand(key, -1), cs, queues.item);
        if o.longPoll.Error? {
          return;
        }
        cs := Send(queues, MessagesCommand(key, o.longPoll.value), cs, old(queues.item));
        return;
      }
      if spec.secondsToProcessOneJob != 0.0 {
        var messagesSentPerMinute := sentCache.CachedNumber(Ask(spec.uri, o.sent));
        if messagesSentPerMinute.Error? {
          return;
        }
        cs := Send(queues, MessagesSentCommand(key, messagesSentPerMinute.value), cs, old(queues.item));
      }
      if o.visible.Error? {
        return;
      }
      if o.inFlight.Error? {
        return;
      }
      cs := Send(queues, MessagesCommand(key, o.visible.value + o.inFlight.value), cs, old(queues.item));
      cs := FinishPoll(key, spec, o, cs, old(queues.item));
      assert cs == SqsCommands(key, spec, seen);
    }

    // The end of the poll, once both message counts are known.
    method FinishPoll(key: Key, spec: QueueSpec, o: SqsOracle, ghost cs: seq<Command>, ghost start: Table)
      returns (ghost all: seq<Command>)
      requires o.visible.Ok? && o.inFlight.Ok?
      requires queues.item == ApplyAll(start, cs)
      modifies queues, receiveCache
      ensures all == cs + IdleCommands(key, spec.workers, o.visible.value, o.inFlight.value,
                                       Returned(old(receiveCache.Contents()), Ask(spec.uri, o.received)))
      ensures queues.item == ApplyAll(start, all)
      ensures receiveCache.Contents() ==
        if o.visible.value == 0 && o.inFlight.value <= 0
        then AfterCall(old(receiveCache.Contents()), Ask(spec.uri, o.received))
        else old(receiveCache.Contents())
    {
      all := cs;
      if o.visible.value != 0 {
        all := Send(queues, IdleWorkersCommand(key, -1), cs, start);
        return;
      }
      if o.inFlight.value > 0 {
        return;
      }
      var received := receiveCache.CachedNumber(Ask(spec.uri, o.received));
      if received.Error? {
        return;
      }
      var idleWorkers := 0;
      if received.value == 0.0 {
        idleWorkers := spec.workers;
      }
      all := Send(queues, IdleWorkersCommand(key, idleWorkers), cs, start);
    }
  }

  // ---------- Beanstalk ----------

  // One reserve attempt, and one stats request, on the connection.
  datatype Reserve = Reserved | TimedOut | ReserveEof | ReserveFailed
  datatype Stats = Tube(ready: int, waiting: int, reserved: int) | TubeNotFound | StatsEof | StatsFailed

  // longPollReceiveMessage of the client: a lost connection is reestablished
  // and tried once more. Returns messages and idle workers.
  function LongPollReceive(first: Reserve, reconnected: bool, second: Reserve, jobKnown: bool): (r: Result<(int, int)>)
    ensures r.Ok? ==> 0 <= r.value.0 <= 1 && r.value.1 == 0
  {
    var got := if first.ReserveEof? && reconnected then second else first;
    match got
    case TimedOut => Ok((0, 0))
    case Reserved => if jobKnown then Ok((1, 0)) else Error
    case _ => Error
  }

  datatype Counts = Counts(ready: int, waiting: int, reserved: int)

  // getStats of the client. A tube that does not exist is an empty one.
  function GetStats(first: Stats, reconnected: bool, second: Stats): Result<Counts> {
    var got := if first.StatsEof? && reconnected then second else first;
    match got
    case Tube(ready, waiting, reserved) => Ok(Counts(ready, waiting, reserved))
    case TubeNotFound => Ok(Counts(0, 0, 0))
    case _ => Error
  }

  // What one Beanstalk poll gets to see: the long poll, and the tube's stats
  // asked for twice, first for the messages and then for the idle workers.
  datatype BeanstalkReadings = BeanstalkReadings(
    longPoll: Result<(int, int)>, messages: Result<Counts>, idle: Result<Counts>)

  // The outside of one Beanstalk poll: what the connection answers to each
  // request, before and after a reconnect.
  datatype BeanstalkOracle = BeanstalkOracle(
    reserve: Reserve, reserveReconnected: bool, reserveAgain: Reserve, jobKnown: bool,
    messages: Stats, messagesReconnected: bool, messagesAgain: Stats,
    idle: Stats, idleReconnected: bool, idleAgain: Stats)

  function ReadBeanstalk(o: BeanstalkOracle): BeanstalkReadings {
    BeanstalkReadings(
      LongPollReceive(o.reserve, o.reserveReconnected, o.reserveAgain, o.jobKnown),
      GetStats(o.messages, o.messagesReconnected, o.messagesAgain),
      GetStats(o.idle, o.idleReconnected, o.idleAgain))
  }

  predicate BeanstalkLongPolls(spec: QueueSpec) {
    spec.workers == 0 && spec.messages == 0
  }

  function BeanstalkCommands(key: Key, spec: QueueSpec, r: BeanstalkReadings): seq<Command> {
    if BeanstalkLongPolls(spec) then
      if r.longPoll.Ok? then
        [MessagesCommand(key, r.longPoll.value.0), IdleWorkersCommand(key, r.longPoll.value.1)]
      else []
    else if r.messages.Error? then []
    else
      var m := r.messages.value;
      [MessagesCommand(key, m.ready + m.reserved)]
      + (if m.ready != 0 then [IdleWorkersCommand(key, NOT_IDLE)]
         else if m.reserved <= 0 && r.idle.Ok? then [IdleWorkersCommand(key, r.idle.value.waiting)]
         else [])
  }

  predicate BeanstalkCompletes(spec: QueueSpec, r: BeanstalkReadings) {
    if BeanstalkLongPolls(spec) then r.longPoll.Ok?
    else
      && r.messages.Ok?
      && (r.messages.value.ready == 0 && r.messages.value.reserved <= 0 ==> r.idle.Ok?)
  }

  class Beanstalk {
    const queues: Queues

    constructor (queues: Queues)
      ensures this.queues == queues
    {
      this.queues := queues;
    }

    method Poll(key: Key, spec: QueueSpec, o: BeanstalkOracle)
      modifies queues
      ensures queues.item == ApplyAll(old(queues.item), BeanstalkCommands(key, spec, ReadBeanstalk(o)))
    {
      ghost var cs: seq<Command> := [];
      if spec.workers == 0 && spec.messages == 0 {
        var received := LongPollReceive(o.reserve, o.reserveReconnected, o.reserveAgain, o.jobKnown);
        if received.Error? {
          return;
        }
        cs := Send(queues, MessagesCommand(key, received.value.0), cs, queues.item);
        cs := Send(queues, IdleWorkersCommand(key, received.value.1), cs, old(queues.item));
        return;
      }
      var counts := GetStats(o.messages, o.messagesReconnected, o.messagesAgain);
      if counts.Error? {
        return;
      }
      var m := counts.value;
      cs := Send(queues, MessagesCommand(key, m.ready + m.reserved), cs, queues.item);
      if m.ready != 0 {
        cs := Send(queues, IdleWorkersCommand(key, -1), cs, old(queues.item));
        return;
      }
      if m.reserved > 0 {
        return;
      }
      var idle := GetStats(o.idle, o.idleReconnected, o.idleAgain);
      if idle.Error? {
        return;
      }
      cs := Send(queues, IdleWorkersCommand(key, idle.value.waiting), cs, old(queues.item));
    }
  }
}
