/**
 What the polls promise the replica calculator: the massive scale down is only
 taken on a queue that the last poll found empty and idle. Polls, Adds and
 deletes of many keys come in any order, each as a whole; syncs decide in between.
 */
module PollContract {
  import opened Replicas
  import opened Controllers
  import opened QueueTable
  import opened MetricCaches
  import opened Polls
  import opened PollEffects
  import opened Wrappers

  // How the last poll of a key went.
  datatype LastPoll =
    | SqsFailed(spec: QueueSpec, r: SqsReadings)
    | BeanstalkFailed(spec: QueueSpec, b: BeanstalkReadings)
    | SqsPoll(spec: QueueSpec, r: SqsReadings, at: int)
    | BeanstalkPoll(spec: QueueSpec, b: BeanstalkReadings)

  datatype State = State(
    table: Table,
    sent: Cache,
    received: Cache,
    clock: int,
    // History: the fetches of received messages, the last poll of each key.
    log: seq<Fetch>,
    last: map<Key, LastPoll>)

  datatype Event =
    | PollSqs(key: Key, o: SqsOracle)
    | PollBeanstalk(key: Key, b: BeanstalkOracle)
    | AddQueue(key: Key, namespace: string, uri: Uri, workers: int, seconds: real)
    | Delete(key: Key)

  ghost function PollSqsKey(s: State, key: Key, o: SqsOracle): State {
    var spec := Lookup(s.table, key);
    // runPollThread gives up on a queue without a name.
    if spec.name == "" then s
    else
      var r := ReadSqs(spec, s.sent, s.received, o);
      var q := Ask(spec.uri, o.received);
      var asks := AsksReceived(spec, r);
      State(
        ApplyAll(s.table, SqsCommands(key, spec, r)),
        if AsksSent(spec) then AfterCall(s.sent, Ask(spec.uri, o.sent)) else s.sent,
        if asks then AfterCall(s.received, q) else s.received,
        o.received.now,
        if asks then Logged(s.received, s.log, q) else s.log,
        s.last[key := if SqsCompletes(spec, r) then SqsPoll(spec, r, o.received.now) else SqsFailed(spec, r)])
  }

  ghost function PollBeanstalkKey(s: State, key: Key, o: BeanstalkOracle): State {
    var spec := Lookup(s.table, key);
    var b := ReadBeanstalk(o);
    if spec.name == "" then s
    else s.(table := ApplyAll(s.table, BeanstalkCommands(key, spec, b)),
            last := s.last[key := if BeanstalkCompletes(spec, b) then BeanstalkPoll(spec, b)
                                  else BeanstalkFailed(spec, b)])
  }

  ghost function Next(s: State, e: Event): State {
    match e
    case PollSqs(key, o) => PollSqsKey(s, key, o)
    case PollBeanstalk(key, o) => PollBeanstalkKey(s, key, o)
    case AddQueue(key, namespace, uri, workers, seconds) =>
      if uri.QueueUri?
      then s.(table := s.table[key := BuildSpec(Lookup(s.table, key), namespace, uri, workers, seconds)])
      else s
    case Delete(key) => s.(table := Apply(s.table, DeleteQueue(key)))
  }

  ghost function Start(clock: int): State {
    State(map[], Cache(map[], map[]), Cache(map[], map[]), clock, [], map[])
  }

  ghost function Run(s: State, run: seq<Event>): State {
    if run == [] then s else Next(Run(s, run[..|run| - 1]), run[|run| - 1])
  }

  // ---------- What the services may answer ----------

  ghost predicate Natural(r: Result<int>) {
    r.Ok? ==> r.value >= 0
  }

  ghost predicate NaturalStats(t: Stats) {
    t.Tube? ==> t.ready >= 0 && t.waiting >= 0 && t.reserved >= 0
  }

  // Counts are never negative.
  ghost predicate Plausible(e: Event) {
    match e
    case PollSqs(_, o) => Natural(o.longPoll) && Natural(o.visible) && Natural(o.inFlight)
    case PollBeanstalk(_, o) =>
      NaturalStats(o.messages) && NaturalStats(o.messagesAgain) && NaturalStats(o.idle) && NaturalStats(o.idleAgain)
    case _ => true
  }

  // The clock readings of the run never go back.
  ghost predicate OnTime(s: State, e: Event) {
    e.PollSqs? ==> s.clock <= e.o.received.firstNow <= e.o.received.now
  }

  ghost predicate Regular(s: State, run: seq<Event>) {
    run != [] ==>
      var n := |run| - 1;
      Regular(s, run[..n]) && Plausible(run[n]) && OnTime(Run(s, run[..n]), run[n])
  }

  // ---------- The invariant ----------

  // The queue was empty, and a count of zero received messages was fetched for
  // it less than a minute before the poll.
  ghost predicate QuietSqs(log: seq<Fetch>, spec: QueueSpec, r: SqsReadings, at: int) {
    && !SqsLongPolls(spec)
    && r.visible == Ok(0) && r.inFlight == Ok(0) && r.received == Ok(0.0)
    && (exists f | f in log :: f.uri == spec.uri && f.value == 0.0 && at < f.at + 60_000_000_000)
  }

  // The tube was empty, and that many clients were waiting for jobs.
  ghost predicate QuietBeanstalk(spec: QueueSpec, b: BeanstalkReadings, idle: int) {
    && !BeanstalkLongPolls(spec)
    && b.messages.Ok? && b.messages.value.ready == 0 && b.messages.value.reserved == 0
    && b.idle.Ok? && b.idle.value.waiting == idle
  }

  // A request that the poll made failed.
  ghost predicate SqsMetAnError(spec: QueueSpec, r: SqsReadings) {
    if spec.workers == 0 && spec.messages == 0 && spec.messagesSentPerMinute == 0.0 then r.longPoll.Error?
    else
      || (spec.secondsToProcessOneJob != 0.0 && r.sent.Error?)
      || r.visible.Error? || r.inFlight.Error?
      || (r.visible.value == 0 && r.inFlight.value <= 0 && r.received.Error?)
  }

  ghost predicate BeanstalkMetAnError(spec: QueueSpec, b: BeanstalkReadings) {
    if spec.workers == 0 && spec.messages == 0 then b.longPoll.Error?
    else b.messages.Error? || (b.messages.value.ready == 0 && b.messages.value.reserved <= 0 && b.idle.Error?)
  }

  ghost predicate Explains(s: State, p: LastPoll, idle: int) {
    match p
    case SqsFailed(spec, r) => SqsMetAnError(spec, r)
    case BeanstalkFailed(spec, b) => BeanstalkMetAnError(spec, b)
    case SqsPoll(spec, r, at) => QuietSqs(s.log, spec, r, at) && spec.workers == idle
    case BeanstalkPoll(spec, b) => QuietBeanstalk(spec, b, idle)
  }

  // Idle workers on an empty queue have an explanation in the last poll.
  ghost predicate CellOk(s: State, key: Key, spec: QueueSpec) {
    && spec.messages >= UNSYNCED_QUEUE_MESSAGE_COUNT
    && (spec.messages == 0 && spec.idleWorkers > 0 ==>
          key in s.last && Explains(s, s.last[key], spec.idleWorkers))
  }

  ghost predicate Inv(s: State) {
    && Faithful(s.received, s.log, s.clock)
    && (forall k | k in s.table :: CellOk(s, k, s.table[k]))
  }

  // ---------- Runs ----------

  // A longer history explains what a shorter one did.
  lemma StillExplained(s: State, t: State, key: Key, spec: QueueSpec)
    requires CellOk(s, key, spec)
    requires key in s.last ==> key in t.last && t.last[key] == s.last[key]
    requires forall f | f in s.log :: f in t.log
    ensures CellOk(t, key, spec)
  {
  }

  // The polled key: if the poll left idle workers on an empty queue, it was
  // quiet, and its zero comes from a fresh fetch.
  lemma PollSqsOwnCell(s: State, key: Key, o: SqsOracle)
    requires Inv(s) && Plausible(PollSqs(key, o)) && OnTime(s, PollSqs(key, o))
    requires Lookup(s.table, key).name != ""
    ensures var t := PollSqsKey(s, key, o); key in t.table && CellOk(t, key, t.table[key])
  {
    var spec := s.table[key];
    var r := ReadSqs(spec, s.sent, s.received, o);
    assert CellOk(s, key, spec);
    WholeSqsPoll(s.table, key, r);
    if AsksReceived(spec, r) && r.received.Ok? {
      ReturnedIsFresh(s.received, s.log, s.clock, Ask(spec.uri, o.received));
    }
  }

  lemma PollSqsOtherCell(s: State, key: Key, o: SqsOracle, k: Key)
    requires Inv(s) && Lookup(s.table, key).name != ""
    requires k != key && k in PollSqsKey(s, key, o).table
    ensures CellOk(PollSqsKey(s, key, o), k, PollSqsKey(s, key, o).table[k])
  {
    WholeSqsPoll(s.table, key, ReadSqs(s.table[key], s.sent, s.received, o));
    StillExplained(s, PollSqsKey(s, key, o), k, s.table[k]);
  }

  lemma PollSqsStep(s: State, key: Key, o: SqsOracle)
    requires Inv(s) && Plausible(PollSqs(key, o)) && OnTime(s, PollSqs(key, o))
    ensures Inv(PollSqsKey(s, key, o))
  {
    var spec := Lookup(s.table, key);
    if spec.name != "" {
      var t := PollSqsKey(s, key, o);
      CallKeepsFaith(s.received, s.log, s.clock, Ask(spec.uri, o.received));
      forall k | k in t.table ensures CellOk(t, k, t.table[k]) {
        if k == key {
          PollSqsOwnCell(s, key, o);
        } else {
          PollSqsOtherCell(s, key, o, k);
        }
      }
    }
  }

  lemma PollBeanstalkStep(s: State, key: Key, o: BeanstalkOracle)
    requires Inv(s) && Plausible(PollBeanstalk(key, o))
    ensures Inv(PollBeanstalkKey(s, key, o))
  {
    var spec := Lookup(s.table, key);
    if spec.name != "" {
      var t := PollBeanstalkKey(s, key, o);
      WholeBeanstalkPoll(s.table, key, ReadBeanstalk(o));
      forall k | k in t.table ensures CellOk(t, k, t.table[k]) {
        assert CellOk(s, k, s.table[k]);
        if k != key {
          StillExplained(s, t, k, s.table[k]);
        }
      }
    }
  }

  lemma TableStep(s: State, e: Event)
    requires Inv(s) && (e.AddQueue? || e.Delete?)
    ensures Inv(Next(s, e))
  {
    var t := Next(s, e);
    forall k | k in t.table ensures CellOk(t, k, t.table[k]) {
      if k in s.table {
        assert CellOk(s, k, s.table[k]);
      }
    }
  }

  lemma {:induction false} InvRun(clock: int, run: seq<Event>)
    requires Regular(Start(clock), run)
    ensures Inv(Run(Start(clock), run))
  {
    if run != [] {
      var n := |run| - 1;
      InvRun(clock, run[..n]);
      var s := Run(Start(clock), run[..n]);
      match run[n]
      case PollSqs(key, o) => PollSqsStep(s, key, o);
      case PollBeanstalk(key, o) => PollBeanstalkStep(s, key, o);
      case _ => TableStep(s, run[n]);
    }
  }

  // A sync that takes the massive path with workers running does so because
  // the last poll of the queue, unless a request of it failed, found no visible and no
  // reserved message, and either a fresh count of zero received messages (SQS)
  // or as many waiting clients as there are workers (Beanstalk).
  lemma MassiveOnlyWhenQuiet(clock: int, run: seq<Event>, key: Key, spec: WpaSpec, current: int)
    requires Regular(Start(clock), run)
    requires current > 0
    requires var info := InfoOf(Run(Start(clock), run).table, key);
      Ready(info) && MassiveScaleDown(InputsOf(info, spec), current)
    ensures var s := Run(Start(clock), run);
      && key in s.last
      && match s.last[key]
         case SqsFailed(polled, r) => SqsMetAnError(polled, r)
         case BeanstalkFailed(polled, b) => BeanstalkMetAnError(polled, b)
         case SqsPoll(polled, r, at) => QuietSqs(s.log, polled, r, at) && polled.workers == current
         case BeanstalkPoll(polled, b) => QuietBeanstalk(polled, b, current)
  {
    InvRun(clock, run);
    var s := Run(Start(clock), run);
    assert key in s.table && CellOk(s, key, s.table[key]);
  }

  // ---------- Exactly when the promise fails ----------

  // A sync between the updates of an SQS poll, or after its last one, takes
  // the massive path exactly in these cases. Before the message count is sent,
  // when the stored values say so. Right after it, when both new counts are
  // zero and the idle count of an earlier poll still equals the workers. And
  // after the idle count, when nothing was received and the polled workers
  // are the current ones.
  lemma MassiveDuringSqsPoll(t: Table, key: Key, r: SqsReadings, n: nat, wpa: WpaSpec, current: int)
    requires key in t && t[key].name != "" && current > 0
    requires Natural(r.visible) && Natural(r.inFlight) && !SqsLongPolls(t[key])
    requires n <= |SqsCommands(key, t[key], r)|
    ensures var spec, lead := t[key], Lead(t[key], r);
      var x := InputsOf(InfoOf(ApplyAll(t, SqsCommands(key, spec, r)[..n]), key), wpa);
      var rate := if lead == 1 && n >= 1 then r.sent.value else spec.messagesSentPerMinute;
      MassiveScaleDown(x, current)
      <==> !(rate > 0.0 && wpa.secondsToProcessOneJob > 0.0)
           && if n <= lead then spec.messages <= 0 && spec.idleWorkers == current
              else
                && r.visible == Ok(0) && r.inFlight == Ok(0)
                && if n == lead + 1 then spec.idleWorkers == current
                   else r.received == Ok(0.0) && spec.workers == current
  {
    SqsEffect(t, key, r, n);
  }

  // A long poll first declares the workers not idle, so only a sync before
  // that can take the massive path.
  lemma MassiveDuringSqsLongPoll(t: Table, key: Key, r: SqsReadings, n: nat, wpa: WpaSpec, current: int)
    requires key in t && t[key].name != "" && current > 0 && SqsLongPolls(t[key])
    requires n <= |SqsCommands(key, t[key], r)|
    ensures MassiveScaleDown(InputsOf(InfoOf(ApplyAll(t, SqsCommands(key, t[key], r)[..n]), key), wpa), current)
       <==> n == 0 && t[key].idleWorkers == current
  {
    SqsEffect(t, key, r, n);
  }

  lemma MassiveDuringBeanstalkPoll(
      t: Table, key: Key, o: BeanstalkOracle, n: nat, wpa: WpaSpec, current: int)
    requires key in t && t[key].name != "" && current > 0
    requires Plausible(PollBeanstalk(key, o))
    requires n <= |BeanstalkCommands(key, t[key], ReadBeanstalk(o))|
    ensures var spec, b := t[key], ReadBeanstalk(o);
      var x := InputsOf(InfoOf(ApplyAll(t, BeanstalkCommands(key, spec, b)[..n]), key), wpa);
      MassiveScaleDown(x, current)
      <==> !(spec.messagesSentPerMinute > 0.0 && wpa.secondsToProcessOneJob > 0.0)
           && if n == 0 then spec.messages <= 0 && spec.idleWorkers == current
              else if BeanstalkLongPolls(spec) then
                n == 1 && b.longPoll.value.0 == 0 && spec.idleWorkers == current
              else
                && b.messages.value.ready == 0 && b.messages.value.reserved == 0
                && if n == 1 then spec.idleWorkers == current
                   else b.idle.Ok? && b.idle.value.waiting == current
  {
    BeanstalkEffect(t, key, ReadBeanstalk(o), n);
  }

  // So, once an SQS poll has sent its counts, the massive path is taken without
  // a reading of zero received messages exactly when the poll has stopped or
  // been interrupted right there, with both counts zero, on the idle count of
  // an earlier poll. An error of the last request makes that state last.
  lemma UnfinishedPollIsUnsafe(t: Table, key: Key, r: SqsReadings, n: nat, wpa: WpaSpec, current: int)
    requires key in t && t[key].name != "" && current > 0
    requires Natural(r.visible) && Natural(r.inFlight) && !SqsLongPolls(t[key])
    requires Lead(t[key], r) < n <= |SqsCommands(key, t[key], r)|
    ensures var spec, lead := t[key], Lead(t[key], r);
      var x := InputsOf(InfoOf(ApplyAll(t, SqsCommands(key, spec, r)[..n]), key), wpa);
      var rate := if lead == 1 then r.sent.value else spec.messagesSentPerMinute;
      MassiveScaleDown(x, current) && r.received != Ok(0.0)
      <==> && n == lead + 1 && r.received != Ok(0.0)
           && r.visible == Ok(0) && r.inFlight == Ok(0)
           && spec.idleWorkers == current
           && !(rate > 0.0 && wpa.secondsToProcessOneJob > 0.0)
    ensures r.visible == Ok(0) && r.inFlight == Ok(0) && r.received.Error?
            ==> |SqsCommands(key, t[key], r)| == Lead(t[key], r) + 1 && !SqsCompletes(t[key], r)
  {
    MassiveDuringSqsPoll(t, key, r, n, wpa, current);
  }

  // Such tables occur: adding a queue with some workers and one quiet poll lead
  // there, for any named queue and any number of workers.
  lemma StaleIdleIsReachable(key: Key, namespace: string, uri: Uri, workers: int, now: int) returns (run: seq<Event>)
    requires uri.QueueUri? && uri.queueName != "" && workers > 0
    ensures Regular(Start(now), run)
    ensures var t := Run(Start(now), run).table;
      && key in t && t[key].name == uri.queueName
      && t[key].idleWorkers == t[key].workers == workers
      && t[key].messages == 0 && t[key].secondsToProcessOneJob == 0.0 && !SqsLongPolls(t[key])
  {
    var quiet := SqsOracle(Error, Ok(0), Ok(0), Answer(now, now, Error), Answer(now, now, Ok(0.0)));
    var add, poll := AddQueue(key, namespace, uri, workers, 0.0), PollSqs(key, quiet);
    run := [add, poll];
    assert run[..1] == [add] && [add][..0] == [];
    var s1 := Next(Start(now), add);
    assert Run(Start(now), [add]) == s1;
    assert Run(Start(now), run) == Next(s1, poll);
    var spec := s1.table[key];
    var r := ReadSqs(spec, s1.sent, s1.received, quiet);
    assert Regular(Start(now), []) && Regular(Start(now), [add]);
    WholeSqsPoll(s1.table, key, r);
  }

  // Hence a run exists, for any number of workers, after which a next poll
  // that reads received messages is cut short by a massive scale down.
  lemma UnsafeScaleDownIsReachable(
      key: Key, namespace: string, uri: Uri, workers: int, now: int, received: real, wpa: WpaSpec)
    returns (run: seq<Event>)
    requires uri.QueueUri? && uri.queueName != "" && workers > 0
    requires received > 0.0 && wpa.secondsToProcessOneJob == 0.0
    ensures Regular(Start(now), run)
    ensures var t := Run(Start(now), run).table;
      var r := SqsReadings(Error, Error, Ok(0), Ok(0), Ok(received));
      && key in t && SqsCompletes(t[key], r) && |SqsCommands(key, t[key], r)| >= 1
      && MassiveScaleDown(InputsOf(InfoOf(ApplyAll(t, SqsCommands(key, t[key], r)[..1]), key), wpa), workers)
  {
    run := StaleIdleIsReachable(key, namespace, uri, workers, now);
    var r := SqsReadings(Error, Error, Ok(0), Ok(0), Ok(received));
    MassiveDuringSqsPoll(Run(Start(now), run).table, key, r, 1, wpa, workers);
  }
}
