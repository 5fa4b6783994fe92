/**
 What one poll leaves in the queue table: after any number of its updates, and
 after the whole poll, from what the services answered.
 */
module PollEffects {
  import opened Controllers
  import opened QueueTable
  import opened MetricCaches
  import opened Polls
  import opened ScaleOperations
  import opened Wrappers

  // ---------- One poll, update by update ----------

  // A spec after updates of single metrics.
  function Updated(spec: QueueSpec, c: Command, key: Key): QueueSpec {
    match c
    case UpdateMessages(m) => if key in m then spec.(messages := m[key]) else spec
    case UpdateMessagesSent(m) => if key in m then spec.(messagesSentPerMinute := m[key]) else spec
    case UpdateIdleWorkers(m) => if key in m then spec.(idleWorkers := m[key]) else spec
    case _ => spec
  }

  function UpdatedAll(spec: QueueSpec, cs: seq<Command>, key: Key): QueueSpec {
    if cs == [] then spec else Updated(UpdatedAll(spec, cs[..|cs| - 1], key), cs[|cs| - 1], key)
  }

  // The command is one metric of one key.
  predicate ForOneKey(c: Command, key: Key) {
    match c
    case UpdateMessages(m) => m.Keys == {key}
    case UpdateMessagesSent(m) => m.Keys == {key}
    case UpdateIdleWorkers(m) => m.Keys == {key}
    case _ => false
  }

  lemma {:induction false} OnlyTheKeyChanges(t: Table, cs: seq<Command>, key: Key)
    requires key in t && forall c | c in cs :: ForOneKey(c, key)
    ensures ApplyAll(t, cs) == t[key := UpdatedAll(t[key], cs, key)]
  {
    if cs != [] {
      var n := |cs| - 1;
      OnlyTheKeyChanges(t, cs[..n], key);
      ApplyLast(t, cs[..n], cs[n]);
      assert cs[..n] + [cs[n]] == cs;
      assert ForOneKey(cs[n], key);
    } else {
      assert t[key := t[key]] == t;
    }
  }

  // How many updates an SQS poll sends before the message count.
  function Lead(spec: QueueSpec, r: SqsReadings): nat {
    if AsksSent(spec) && r.sent.Ok? then 1 else 0
  }

  // The spec after the first n updates of an SQS poll that does not long-poll.
  function SqsSpecAfter(spec: QueueSpec, r: SqsReadings, n: nat): QueueSpec {
    var lead := Lead(spec, r);
    var s1 := if lead == 1 && n >= 1 then spec.(messagesSentPerMinute := r.sent.value) else spec;
    if n <= lead || !Counted(spec, r) then s1
    else
      var s2 := s1.(messages := r.visible.value + r.inFlight.value);
      if n == lead + 1 then s2
      else if r.visible.value != 0 then s2.(idleWorkers := NOT_IDLE)
      else if r.inFlight.value <= 0 && r.received.Ok? then
        s2.(idleWorkers := if r.received.value == 0.0 then spec.workers else 0)
      else s2
  }

  // ... and of one that does.
  function SqsSpecAfterLongPoll(spec: QueueSpec, r: SqsReadings, n: nat): QueueSpec {
    if n == 0 then spec
    else if n == 1 || r.longPoll.Error? then spec.(idleWorkers := NOT_IDLE)
    else spec.(idleWorkers := NOT_IDLE, messages := r.longPoll.value)
  }

  // What the first n updates of an SQS poll leave in the table, completely.
  lemma SqsEffect(t: Table, key: Key, r: SqsReadings, n: nat)
    requires key in t && n <= |SqsCommands(key, t[key], r)|
    ensures var spec := t[key];
      ApplyAll(t, SqsCommands(key, spec, r)[..n])
      == t[key := if SqsLongPolls(spec) then SqsSpecAfterLongPoll(spec, r, n) else SqsSpecAfter(spec, r, n)]
  {
    var spec := t[key];
    var cs := SqsCommands(key, spec, r);
    OnlyTheKeyChanges(t, cs[..n], key);
    UnrollUpdates(spec, cs[..n], key);
  }

  // The spec after the first n updates of a Beanstalk poll.
  function BeanstalkSpecAfter(spec: QueueSpec, b: BeanstalkReadings, n: nat): QueueSpec {
    if n == 0 then spec
    else if BeanstalkLongPolls(spec) then
      if b.longPoll.Error? then spec
      else if n == 1 then spec.(messages := b.longPoll.value.0)
      else spec.(messages := b.longPoll.value.0, idleWorkers := b.longPoll.value.1)
    else if b.messages.Error? then spec
    else
      var m := b.messages.value;
      var s1 := spec.(messages := m.ready + m.reserved);
      if n == 1 then s1
      else if m.ready != 0 then s1.(idleWorkers := NOT_IDLE)
      else if m.reserved <= 0 && b.idle.Ok? then s1.(idleWorkers := b.idle.value.waiting)
      else s1
  }

  lemma BeanstalkEffect(t: Table, key: Key, b: BeanstalkReadings, n: nat)
    requires key in t && n <= |BeanstalkCommands(key, t[key], b)|
    ensures ApplyAll(t, BeanstalkCommands(key, t[key], b)[..n]) == t[key := BeanstalkSpecAfter(t[key], b, n)]
  {
    var cs := BeanstalkCommands(key, t[key], b);
    OnlyTheKeyChanges(t, cs[..n], key);
    UnrollUpdates(t[key], cs[..n], key);
  }

  // A short sequence of updates, unrolled.
  lemma UnrollUpdates(spec: QueueSpec, cs: seq<Command>, key: Key)
    requires |cs| <= 3
    ensures |cs| == 0 ==> UpdatedAll(spec, cs, key) == spec
    ensures |cs| == 1 ==> UpdatedAll(spec, cs, key) == Updated(spec, cs[0], key)
    ensures |cs| == 2 ==> UpdatedAll(spec, cs, key) == Updated(Updated(spec, cs[0], key), cs[1], key)
    ensures |cs| == 3 ==>
      UpdatedAll(spec, cs, key) == Updated(Updated(Updated(spec, cs[0], key), cs[1], key), cs[2], key)
  {
    if |cs| > 0 {
      var cs1 := cs[..|cs| - 1];
      assert UpdatedAll(spec, cs, key) == Updated(UpdatedAll(spec, cs1, key), cs[|cs| - 1], key);
      if |cs1| > 0 {
        var cs2 := cs1[..|cs1| - 1];
        assert UpdatedAll(spec, cs1, key) == Updated(UpdatedAll(spec, cs2, key), cs1[|cs1| - 1], key);
        if |cs2| > 0 {
          assert UpdatedAll(spec, cs2, key) == Updated(UpdatedAll(spec, cs2[..0], key), cs2[0], key);
        }
      }
    }
  }

  // The whole poll.
  lemma WholeSqsPoll(t: Table, key: Key, r: SqsReadings)
    requires key in t
    ensures var spec, cs := t[key], SqsCommands(key, t[key], r);
      ApplyAll(t, cs)
      == t[key := if SqsLongPolls(spec) then SqsSpecAfterLongPoll(spec, r, |cs|) else SqsSpecAfter(spec, r, |cs|)]
  {
    var cs := SqsCommands(key, t[key], r);
    SqsEffect(t, key, r, |cs|);
    assert cs[..|cs|] == cs;
  }

  lemma WholeBeanstalkPoll(t: Table, key: Key, b: BeanstalkReadings)
    requires key in t
    ensures var cs := BeanstalkCommands(key, t[key], b);
      ApplyAll(t, cs) == t[key := BeanstalkSpecAfter(t[key], b, |cs|)]
  {
    var cs := BeanstalkCommands(key, t[key], b);
    BeanstalkEffect(t, key, b, |cs|);
    assert cs[..|cs|] == cs;
  }

  // ---------- Whole polls, from the services' answers ----------

  // The table after a whole SQS poll.
  ghost function AfterSqs(t: Table, key: Key, sent: Cache, received: Cache, o: SqsOracle): Table
    requires key in t
  {
    ApplyAll(t, SqsCommands(key, t[key], ReadSqs(t[key], sent, received, o)))
  }

  // With no workers, messages and rate, the poll waits for a message.
  lemma SqsLongPollOutcome(t: Table, key: Key, sent: Cache, received: Cache, o: SqsOracle)
    requires key in t
    requires t[key].workers == 0 && t[key].messages == 0 && t[key].messagesSentPerMinute == 0.0
    ensures AfterSqs(t, key, sent, received, o)
         == t[key := if o.longPoll.Ok? then t[key].(idleWorkers := -1, messages := o.longPoll.value)
                     else t[key].(idleWorkers := -1)]
  {
    WholeSqsPoll(t, key, ReadSqs(t[key], sent, received, o));
  }

  // Otherwise an error of the rate stores nothing, and an error of one of the
  // two counts stores the rate alone.
  lemma SqsPollErrors(t: Table, key: Key, sent: Cache, received: Cache, o: SqsOracle)
    requires key in t
    requires !(t[key].workers == 0 && t[key].messages == 0 && t[key].messagesSentPerMinute == 0.0)
    ensures var rate := Returned(sent, Call(t[key].uri, o.sent.firstNow, o.sent.now, o.sent.value));
      var asked := t[key].secondsToProcessOneJob != 0.0;
      && (asked && rate.Error? ==> AfterSqs(t, key, sent, received, o) == t)
      && (asked && rate.Ok? && (o.visible.Error? || o.inFlight.Error?) ==>
            AfterSqs(t, key, sent, received, o) == t[key := t[key].(messagesSentPerMinute := rate.value)])
      && (!asked && (o.visible.Error? || o.inFlight.Error?) ==> AfterSqs(t, key, sent, received, o) == t)
  {
    WholeSqsPoll(t, key, ReadSqs(t[key], sent, received, o));
    assert t[key := t[key]] == t;
  }

  // With both counts known: the rate if it is asked for, all messages of the
  // queue, and the idle workers, which are only counted on an empty queue.
  lemma SqsPollOutcome(t: Table, key: Key, sent: Cache, received: Cache, o: SqsOracle)
    requires key in t && o.visible.Ok? && o.inFlight.Ok?
    requires !(t[key].workers == 0 && t[key].messages == 0 && t[key].messagesSentPerMinute == 0.0)
    requires t[key].secondsToProcessOneJob != 0.0 ==>
               Returned(sent, Call(t[key].uri, o.sent.firstNow, o.sent.now, o.sent.value)).Ok?
    ensures var spec, visible, inFlight := t[key], o.visible.value, o.inFlight.value;
      var read := Returned(received, Call(spec.uri, o.received.firstNow, o.received.now, o.received.value));
      AfterSqs(t, key, sent, received, o) == t[key := spec.(
        messagesSentPerMinute :=
          if spec.secondsToProcessOneJob != 0.0
          then Returned(sent, Call(spec.uri, o.sent.firstNow, o.sent.now, o.sent.value)).value
          else spec.messagesSentPerMinute,
        messages := visible + inFlight,
        idleWorkers :=
          if visible != 0 then -1
          else if inFlight > 0 || read.Error? then spec.idleWorkers
          else if read.value == 0.0 then spec.workers
          else 0)]
  {
    WholeSqsPoll(t, key, ReadSqs(t[key], sent, received, o));
  }

  // The table after a whole Beanstalk poll.
  ghost function AfterBeanstalk(t: Table, key: Key, o: BeanstalkOracle): Table
    requires key in t
  {
    ApplyAll(t, BeanstalkCommands(key, t[key], ReadBeanstalk(o)))
  }

  // With no workers and messages, the poll waits for a job. A lost connection
  // is tried once more if it can be reestablished.
  lemma BeanstalkLongPollOutcome(t: Table, key: Key, o: BeanstalkOracle)
    requires key in t && t[key].workers == 0 && t[key].messages == 0
    ensures var got := if o.reserve == ReserveEof && o.reserveReconnected then o.reserveAgain else o.reserve;
      AfterBeanstalk(t, key, o)
      == if got == Reserved && o.jobKnown then t[key := t[key].(messages := 1, idleWorkers := 0)]
         else if got == TimedOut then t[key := t[key].(messages := 0, idleWorkers := 0)]
         else t
  {
    WholeBeanstalkPoll(t, key, ReadBeanstalk(o));
    assert t[key := t[key]] == t;
  }

  // Otherwise the tube's ready and reserved jobs are the messages, and its
  // waiting clients, asked for separately, are the idle workers of an empty
  // tube. A missing tube is empty; other failures leave the stored values.
  lemma BeanstalkPollOutcome(t: Table, key: Key, o: BeanstalkOracle)
    requires key in t && !(t[key].workers == 0 && t[key].messages == 0)
    ensures var m := if o.messages == StatsEof && o.messagesReconnected then o.messagesAgain else o.messages;
      var i := if o.idle == StatsEof && o.idleReconnected then o.idleAgain else o.idle;
      var ready, reserved := if m.Tube? then m.ready else 0, if m.Tube? then m.reserved else 0;
      AfterBeanstalk(t, key, o)
      == if m == StatsEof || m == StatsFailed then t
         else t[key := t[key].(
           messages := ready + reserved,
           idleWorkers :=
             if ready != 0 then -1
             else if reserved > 0 || i == StatsEof || i == StatsFailed then t[key].idleWorkers
             else if i == TubeNotFound then 0
             else i.waiting)]
  {
    WholeBeanstalkPoll(t, key, ReadBeanstalk(o));
    assert t[key := t[key]] == t;
  }

  // ---------- Waking up ----------

  // A queue at rest, with no workers, messages and rate, wakes up: once the
  // long poll receives messages, a sync from zero replicas scales up at once.
  lemma SqsWakes(t: Table, key: Key, sent: Cache, received: Cache, o: SqsOracle,
                 w: World, delay: int, spec: WpaSpec, s: Surroundings)
    requires key in t && t[key].name != ""
    requires t[key].workers == 0 && t[key].messages == 0 && t[key].messagesSentPerMinute == 0.0
    requires o.longPoll.Ok? && o.longPoll.value > 0
    requires spec.targetMessagesPerWorker > 0 && spec.maxReplicas >= 1 && w.replicas == 0
    ensures SyncOperation(w, delay, InfoOf(AfterSqs(t, key, sent, received, o), key), spec, s) == ScaleUp
  {
    SqsLongPollOutcome(t, key, sent, received, o);
    WakesAndStaysAwake(w, delay, InfoOf(AfterSqs(t, key, sent, received, o), key), spec, s);
  }

  lemma BeanstalkWakes(t: Table, key: Key, o: BeanstalkOracle, w: World, delay: int, spec: WpaSpec, s: Surroundings)
    requires key in t && t[key].name != "" && t[key].workers == 0 && t[key].messages == 0
    requires o.jobKnown
    requires o.reserve == Reserved || (o.reserve == ReserveEof && o.reserveReconnected && o.reserveAgain == Reserved)
    requires spec.targetMessagesPerWorker > 0 && spec.maxReplicas >= 1 && w.replicas == 0
    ensures SyncOperation(w, delay, InfoOf(AfterBeanstalk(t, key, o), key), spec, s) == ScaleUp
  {
    BeanstalkLongPollOutcome(t, key, o);
    WakesAndStaysAwake(w, delay, InfoOf(AfterBeanstalk(t, key, o), key), spec, s);
  }
}
