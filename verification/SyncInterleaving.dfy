/**
 Syncs, poller updates and deletes running at the same time. Every channel
 operation on the table is one step; what a sync holds between its steps is kept
 in flight. The current count a sync works with may be arbitrarily stale.
 */
module SyncInterleaving {
  import opened ReplicaDynamics
  import opened ScaleOperations
  import opened Controllers
  import opened QueueTable
  import opened Wrappers

  // A resource: where its queue is and how it wants to be scaled.
  datatype Resource = Resource(namespace: string, uri: Uri, spec: WpaSpec)

  type Resources = map<Key, Resource>

  datatype InFlight =
    // Add has listed the table and is about to send this spec.
    | Listed(key: Key, current: int, spec: QueueSpec)
    // The add or delete was served; the queue info comes next.
    | Served(key: Key, current: int)
    // The decision to scale is made; the replicas are not written yet.
    | Decided(key: Key, current: int, info: QueueInfo, desired: int)

  datatype Write = Write(key: Key, current: int, info: QueueInfo, count: int)

  datatype State = State(
    table: Table,
    syncs: map<nat, InFlight>,
    replicas: map<Key, int>,
    // History: what pollers sent, and the replica writes.
    sentMessages: set<(Key, int)>,
    sentRates: set<(Key, real)>,
    sentIdle: set<(Key, int)>,
    writes: seq<Write>)

  datatype Action =
    | PollMessages(key: Key, count: int)
    | PollMessagesSent(key: Key, rate: real)
    | PollIdleWorkers(key: Key, idle: int)
    // An add or update event starts a sync: Add lists the table.
    | Begin(id: nat, key: Key, current: int)
    // A delete event for a resource that still exists.
    | BeginDelete(id: nat, key: Key, current: int)
    // A sync finds the resource gone.
    | Drop(key: Key)
    | SendAdd(id: nat)
    | Decide(id: nat, lastScaleTime: Option<int>, delay: int, now: int)
    | WriteReplicas(id: nat)

  ghost predicate Targets(rs: Resources) {
    forall k | k in rs :: rs[k].spec.targetMessagesPerWorker != 0
  }

  // One step. An action that is not enabled changes nothing.
  ghost function Next(rs: Resources, s: State, a: Action): State
    requires Targets(rs)
  {
    match a
    case PollMessages(k, v) =>
      s.(table := Apply(s.table, UpdateMessages(map[k := v])), sentMessages := s.sentMessages + {(k, v)})
    case PollMessagesSent(k, v) =>
      s.(table := Apply(s.table, UpdateMessagesSent(map[k := v])), sentRates := s.sentRates + {(k, v)})
    case PollIdleWorkers(k, v) =>
      s.(table := Apply(s.table, UpdateIdleWorkers(map[k := v])), sentIdle := s.sentIdle + {(k, v)})
    case Begin(id, k, current) =>
      if k !in rs || id in s.syncs || rs[k].uri.BadUri? then s
      else if rs[k].uri.QueueUri? then
        var spec := BuildSpec(Lookup(s.table, k), rs[k].namespace, rs[k].uri, current,
                              rs[k].spec.secondsToProcessOneJob);
        s.(syncs := s.syncs[id := Listed(k, current, spec)])
      else s.(syncs := s.syncs[id := Served(k, current)])
    case BeginDelete(id, k, current) =>
      if k !in rs || id in s.syncs then s
      else s.(table := Apply(s.table, DeleteQueue(k)), syncs := s.syncs[id := Served(k, current)])
    case Drop(k) =>
      s.(table := Apply(s.table, DeleteQueue(k)))
    case SendAdd(id) =>
      if id in s.syncs && s.syncs[id].Listed? then
        var f := s.syncs[id];
        s.(table := Apply(s.table, AddQueues(map[f.key := f.spec])), syncs := s.syncs[id := Served(f.key, f.current)])
      else s
    case Decide(id, lastScaleTime, delay, now) =>
      if id in s.syncs && s.syncs[id].Served? && s.syncs[id].key in rs then
        var f := s.syncs[id];
        var info := InfoOf(s.table, f.key);
        if !Ready(info) then s.(syncs := s.syncs - {id})
        else
          var desired := Desired(info, rs[f.key].spec, f.current);
          if GetScaleOperation(desired, f.current, lastScaleTime, delay, now) == ScaleNoop
          then s.(syncs := s.syncs - {id})
          else s.(syncs := s.syncs[id := Decided(f.key, f.current, info, desired)])
      else s
    case WriteReplicas(id) =>
      if id in s.syncs && s.syncs[id].Decided? then
        var f := s.syncs[id];
        s.(replicas := s.replicas[f.key := f.desired],
           syncs := s.syncs - {id},
           writes := s.writes + [Write(f.key, f.current, f.info, f.desired)])
      else s
  }

  ghost function Start(replicas: map<Key, int>): State {
    State(map[], map[], replicas, {}, {}, {}, [])
  }

  ghost function Run(rs: Resources, s: State, run: seq<Action>): State
    requires Targets(rs)
  {
    if run == [] then s
    else Next(rs, Run(rs, s, run[..|run| - 1]), run[|run| - 1])
  }

  // ---------- The invariant ----------

  // Each metric of the spec is the unsynced sentinel or was sent for this key.
  ghost predicate Sourced(s: State, key: Key, messages: int, rate: real, idle: int) {
    && (messages == UNSYNCED_QUEUE_MESSAGE_COUNT || (key, messages) in s.sentMessages)
    && (rate == UNSYNCED_MESSAGES_SENT_PER_MINUTE || (key, rate) in s.sentRates)
    && (idle == UNSYNCED_IDLE_WORKERS || (key, idle) in s.sentIdle)
  }

  ghost predicate SpecSourced(s: State, key: Key, spec: QueueSpec) {
    Sourced(s, key, spec.messages, spec.messagesSentPerMinute, spec.idleWorkers)
  }

  // A decision rests on sourced metrics, a real message count among them.
  ghost predicate Justified(rs: Resources, s: State, key: Key, current: int, info: QueueInfo, count: int)
    requires Targets(rs)
  {
    && key in rs
    && Ready(info)
    && Sourced(s, key, info.messages, info.messagesSentPerMinute, info.idleWorkers)
    && count == Desired(info, rs[key].spec, current)
  }

  ghost predicate FlightOk(rs: Resources, s: State, f: InFlight)
    requires Targets(rs)
  {
    match f
    case Listed(k, _, spec) => SpecSourced(s, k, spec)
    case Served(k, _) => true
    case Decided(k, current, info, desired) => Justified(rs, s, k, current, info, desired)
  }

  ghost predicate WriteOk(rs: Resources, s: State, w: Write)
    requires Targets(rs)
  {
    Justified(rs, s, w.key, w.current, w.info, w.count)
  }

  ghost predicate Inv(rs: Resources, s: State)
    requires Targets(rs)
  {
    && (forall k | k in s.table :: SpecSourced(s, k, s.table[k]))
    && (forall id | id in s.syncs :: FlightOk(rs, s, s.syncs[id]))
    && (forall i | 0 <= i < |s.writes| :: WriteOk(rs, s, s.writes[i]))
  }

  // History only grows.
  ghost predicate Grows(s: State, t: State) {
    s.sentMessages <= t.sentMessages && s.sentRates <= t.sentRates && s.sentIdle <= t.sentIdle
  }

  lemma HistoryGrows(rs: Resources, s: State, a: Action)
    requires Targets(rs)
    ensures Grows(s, Next(rs, s, a))
  {
  }

  lemma FlightStaysOk(rs: Resources, s: State, t: State, f: InFlight)
    requires Targets(rs) && Grows(s, t) && FlightOk(rs, s, f)
    ensures FlightOk(rs, t, f)
  {
  }

  lemma TableStep(rs: Resources, s: State, a: Action, k: Key)
    requires Targets(rs) && Inv(rs, s)
    requires k in Next(rs, s, a).table
    ensures SpecSourced(Next(rs, s, a), k, Next(rs, s, a).table[k])
  {
    if a.SendAdd? && a.id in s.syncs {
      assert FlightOk(rs, s, s.syncs[a.id]);
    }
  }

  // The action is a step of this sync.
  ghost predicate Concerns(a: Action, id: nat) {
    (a.Begin? || a.BeginDelete? || a.SendAdd? || a.Decide? || a.WriteReplicas?) && a.id == id
  }

  // What a sync holds after its own step rests on what it held, or on the table.
  lemma OwnStep(rs: Resources, s: State, a: Action, id: nat)
    requires Targets(rs) && Inv(rs, s)
    requires Concerns(a, id) && id in Next(rs, s, a).syncs
    ensures FlightOk(rs, Next(rs, s, a), Next(rs, s, a).syncs[id])
  {
    if id in s.syncs {
      assert FlightOk(rs, s, s.syncs[id]);
      if s.syncs[id].key in s.table {
        assert SpecSourced(s, s.syncs[id].key, s.table[s.syncs[id].key]);
      }
    }
  }

  lemma OtherStep(rs: Resources, s: State, a: Action, id: nat)
    requires Targets(rs) && id in Next(rs, s, a).syncs && !Concerns(a, id)
    ensures id in s.syncs && Next(rs, s, a).syncs[id] == s.syncs[id]
  {
  }

  lemma WriteStep(rs: Resources, s: State, a: Action, i: nat)
    requires Targets(rs) && Inv(rs, s) && i < |Next(rs, s, a).writes|
    ensures WriteOk(rs, Next(rs, s, a), Next(rs, s, a).writes[i])
  {
    HistoryGrows(rs, s, a);
    if i < |s.writes| {
      assert Next(rs, s, a).writes[i] == s.writes[i];
      assert WriteOk(rs, s, s.writes[i]);
    } else {
      assert FlightOk(rs, s, s.syncs[a.id]);
    }
  }

  lemma InvStep(rs: Resources, s: State, a: Action)
    requires Targets(rs) && Inv(rs, s)
    ensures Inv(rs, Next(rs, s, a))
  {
    var t := Next(rs, s, a);
    HistoryGrows(rs, s, a);
    forall k | k in t.table ensures SpecSourced(t, k, t.table[k]) {
      TableStep(rs, s, a, k);
    }
    forall id | id in t.syncs ensures FlightOk(rs, t, t.syncs[id]) {
      if Concerns(a, id) {
        OwnStep(rs, s, a, id);
      } else {
        OtherStep(rs, s, a, id);
        FlightStaysOk(rs, s, t, s.syncs[id]);
      }
    }
    forall i | 0 <= i < |t.writes| ensures WriteOk(rs, t, t.writes[i]) {
      WriteStep(rs, s, a, i);
    }
  }

  // Whatever the interleaving: every stored metric was sent by a poller for
  // that key or is the sentinel, and every replica write was justified.
  lemma {:induction false} Provenance(rs: Resources, replicas: map<Key, int>, run: seq<Action>)
    requires Targets(rs)
    ensures Inv(rs, Run(rs, Start(replicas), run))
  {
    if run != [] {
      Provenance(rs, replicas, run[..|run| - 1]);
      InvStep(rs, Run(rs, Start(replicas), run[..|run| - 1]), run[|run| - 1]);
    }
  }

  // So no sync writes replicas of a key before a poller sent a real message
  // count for it.
  lemma NoWriteBeforeCount(rs: Resources, replicas: map<Key, int>, run: seq<Action>, i: nat)
    requires Targets(rs) && i < |Run(rs, Start(replicas), run).writes|
    ensures var s := Run(rs, Start(replicas), run);
      exists v :: v != UNSYNCED_QUEUE_MESSAGE_COUNT && (s.writes[i].key, v) in s.sentMessages
  {
    Provenance(rs, replicas, run);
    var s := Run(rs, Start(replicas), run);
    assert WriteOk(rs, s, s.writes[i]);
  }

  // ---------- Range safety ----------

  ghost predicate InBounds(rs: Resources, key: Key, count: int) {
    key in rs && rs[key].spec.minReplicas <= rs[key].spec.maxReplicas ==>
      rs[key].spec.minReplicas <= count <= rs[key].spec.maxReplicas
  }

  // However stale the count a sync read, what it writes is inside the bounds.
  lemma WritesInBounds(rs: Resources, replicas: map<Key, int>, run: seq<Action>, i: nat)
    requires Targets(rs) && i < |Run(rs, Start(replicas), run).writes|
    ensures var w := Run(rs, Start(replicas), run).writes[i]; InBounds(rs, w.key, w.count)
  {
    Provenance(rs, replicas, run);
    var s := Run(rs, Start(replicas), run);
    var w := s.writes[i];
    assert WriteOk(rs, s, w);
    InRange(InputsOf(w.info, rs[w.key].spec), w.current);
  }

  lemma StaysInBounds(rs: Resources, s: State, a: Action, key: Key)
    requires Targets(rs) && Inv(rs, s)
    requires key in s.replicas && InBounds(rs, key, s.replicas[key])
    ensures key in Next(rs, s, a).replicas && InBounds(rs, key, Next(rs, s, a).replicas[key])
  {
    if a.WriteReplicas? && a.id in s.syncs && s.syncs[a.id].Decided? && s.syncs[a.id].key == key {
      var f := s.syncs[a.id];
      assert FlightOk(rs, s, f);
      InRange(InputsOf(f.info, rs[key].spec), f.current);
    }
  }

  // Replicas that start inside the bounds never leave them.
  lemma {:induction false} ReplicasStayInBounds(rs: Resources, replicas: map<Key, int>, run: seq<Action>, key: Key)
    requires Targets(rs)
    requires key in replicas && InBounds(rs, key, replicas[key])
    ensures var s := Run(rs, Start(replicas), run); key in s.replicas && InBounds(rs, key, s.replicas[key])
  {
    if run != [] {
      var before := run[..|run| - 1];
      ReplicasStayInBounds(rs, replicas, before, key);
      Provenance(rs, replicas, before);
      StaysInBounds(rs, Run(rs, Start(replicas), before), run[|run| - 1], key);
    }
  }

  // ---------- What the two-phase Add does not give ----------

  lemma RunOne(rs: Resources, s: State, run: seq<Action>, a: Action)
    requires Targets(rs)
    ensures Run(rs, s, run + [a]) == Next(rs, Run(rs, s, run), a)
  {
    assert (run + [a])[..|run|] == run;
  }

  // With nobody in between, the two phases are Queues.Add.
  lemma UninterruptedAdd(rs: Resources, s: State, id: nat, key: Key, current: int)
    requires Targets(rs) && key in rs && rs[key].uri.QueueUri? && id !in s.syncs
    ensures var r := rs[key];
      Run(rs, s, [Begin(id, key, current), SendAdd(id)]).table
      == s.table[key := BuildSpec(Lookup(s.table, key), r.namespace, r.uri, current, r.spec.secondsToProcessOneJob)]
  {
    var b, e := Begin(id, key, current), SendAdd(id);
    assert [] + [b] == [b] && [b] + [e] == [b, e];
    RunOne(rs, s, [], b);
    RunOne(rs, s, [b], e);
  }

  // What Add takes over from the spec it found: the stored metrics, or the
  // sentinels if there is none.
  ghost function Metrics(found: QueueSpec): (int, real, int) {
    if found.name == ""
    then (UNSYNCED_QUEUE_MESSAGE_COUNT, UNSYNCED_MESSAGES_SENT_PER_MINUTE, UNSYNCED_IDLE_WORKERS)
    else (found.messages, found.messagesSentPerMinute, found.idleWorkers)
  }

  ghost function CellMetrics(cell: Option<QueueSpec>): (int, real, int) {
    Metrics(if cell.Some? then cell.value else NO_QUEUE)
  }

  // The table after an Add of the key whose two phases were one step.
  ghost function AtomicAdd(rs: Resources, t: Table, key: Key, current: int): Table
    requires key in rs && rs[key].uri.QueueUri?
  {
    var r := rs[key];
    t[key := BuildSpec(Lookup(t, key), r.namespace, r.uri, current, r.spec.secondsToProcessOneJob)]
  }

  // The commands on the table that a step amounts to.
  ghost function StepCommands(rs: Resources, s: State, a: Action): seq<Command> {
    match a
    case PollMessages(k, v) => [UpdateMessages(map[k := v])]
    case PollMessagesSent(k, v) => [UpdateMessagesSent(map[k := v])]
    case PollIdleWorkers(k, v) => [UpdateIdleWorkers(map[k := v])]
    case BeginDelete(id, k, _) => if k in rs && id !in s.syncs then [DeleteQueue(k)] else []
    case Drop(k) => [DeleteQueue(k)]
    case SendAdd(id) =>
      if id in s.syncs && s.syncs[id].Listed? then [AddQueues(map[s.syncs[id].key := s.syncs[id].spec])] else []
    case _ => []
  }

  ghost function Commands(rs: Resources, s: State, run: seq<Action>): seq<Command>
    requires Targets(rs)
  {
    if run == [] then []
    else
      var before := run[..|run| - 1];
      Commands(rs, s, before) + StepCommands(rs, Run(rs, s, before), run[|run| - 1])
  }

  lemma StepIsCommands(rs: Resources, s: State, a: Action)
    requires Targets(rs)
    ensures Next(rs, s, a).table == ApplyAll(s.table, StepCommands(rs, s, a))
  {
    var cs := StepCommands(rs, s, a);
    if cs != [] {
      assert cs[1..] == [];
      assert ApplyAll(Apply(s.table, cs[0]), []) == Apply(s.table, cs[0]);
    }
  }

  // A run acts on the table by its commands alone.
  lemma {:induction false} RunIsCommands(rs: Resources, s: State, run: seq<Action>)
    requires Targets(rs)
    ensures Run(rs, s, run).table == ApplyAll(s.table, Commands(rs, s, run))
  {
    if run != [] {
      var before := run[..|run| - 1];
      var mid := Run(rs, s, before);
      RunIsCommands(rs, s, before);
      StepIsCommands(rs, mid, run[|run| - 1]);
      ApplyAllAppend(s.table, Commands(rs, s, before), StepCommands(rs, mid, run[|run| - 1]));
    }
  }

  lemma {:induction false} ListedIsKept(rs: Resources, s: State, run: seq<Action>, id: nat)
    requires Targets(rs) && id in s.syncs
    requires forall a | a in run :: !Concerns(a, id)
    ensures id in Run(rs, s, run).syncs && Run(rs, s, run).syncs[id] == s.syncs[id]
  {
    if run != [] {
      var before := run[..|run| - 1];
      ListedIsKept(rs, s, before, id);
      UntouchedStep(rs, Run(rs, s, before), run[|run| - 1], id);
    }
  }

  lemma UntouchedStep(rs: Resources, s: State, a: Action, id: nat)
    requires Targets(rs) && id in s.syncs && !Concerns(a, id)
    ensures id in Next(rs, s, a).syncs && Next(rs, s, a).syncs[id] == s.syncs[id]
  {
  }

  // A send is what an atomic Add would do now if and only if the spec it
  // found had the metrics that the table has now.
  lemma SendIsAtomicExactlyWhen(rs: Resources, s: State, id: nat, key: Key, current: int, found: QueueSpec)
    requires Targets(rs) && key in rs && rs[key].uri.QueueUri? && id in s.syncs
    requires s.syncs[id] == Listed(key, current, BuildSpec(
               found, rs[key].namespace, rs[key].uri, current, rs[key].spec.secondsToProcessOneJob))
    ensures Next(rs, s, SendAdd(id)).table == AtomicAdd(rs, s.table, key, current)
       <==> Metrics(found) == Metrics(Lookup(s.table, key))
  {
    var sent := Next(rs, s, SendAdd(id)).table;
    assert sent == s.table[key := s.syncs[id].spec];
    if Metrics(found) != Metrics(Lookup(s.table, key)) {
      assert sent[key] != AtomicAdd(rs, s.table, key, current)[key];
    }
  }

  // Exactly when the two phases of an Add, with any steps of other parties in
  // between, come to an atomic Add at the time of the send: when the key's own
  // commands among those steps leave the metrics that were listed.
  lemma AddIsAtomicExactlyWhen(rs: Resources, s: State, id: nat, key: Key, current: int, run: seq<Action>)
    requires Targets(rs) && key in rs && rs[key].uri.QueueUri? && id !in s.syncs
    requires forall a | a in run :: !Concerns(a, id)
    ensures var listed := Next(rs, s, Begin(id, key, current));
      var meanwhile := Run(rs, listed, run);
      var cell := CellOf(s.table, key);
      Next(rs, meanwhile, SendAdd(id)).table == AtomicAdd(rs, meanwhile.table, key, current)
      <==> CellMetrics(ChangeAll(cell, AllOnKey(Commands(rs, listed, run), key))) == CellMetrics(cell)
  {
    var listed := Next(rs, s, Begin(id, key, current));
    var meanwhile := Run(rs, listed, run);
    ListedIsKept(rs, listed, run, id);
    SendIsAtomicExactlyWhen(rs, meanwhile, id, key, current, Lookup(s.table, key));
    RunIsCommands(rs, listed, run);
    KeyRunsAlone(s.table, Commands(rs, listed, run), key);
  }

  lemma SendStoresListed(rs: Resources, s: State, id: nat)
    requires Targets(rs) && id in s.syncs && s.syncs[id].Listed?
    ensures Next(rs, s, SendAdd(id)).table == s.table[s.syncs[id].key := s.syncs[id].spec]
  {
  }

  // Whatever happened meanwhile, the send restores the listed metrics.
  lemma SendRestoresListedMetrics(rs: Resources, s: State, id: nat, key: Key, current: int, run: seq<Action>)
    requires Targets(rs) && key in rs && rs[key].uri.QueueUri? && id !in s.syncs
    requires forall a | a in run :: !Concerns(a, id)
    ensures var meanwhile := Run(rs, Next(rs, s, Begin(id, key, current)), run);
      var after := Next(rs, meanwhile, SendAdd(id)).table;
      && key in after
      && (after[key].messages, after[key].messagesSentPerMinute, after[key].idleWorkers)
         == Metrics(Lookup(s.table, key))
  {
    var listed := Next(rs, s, Begin(id, key, current));
    ListedIsKept(rs, listed, run, id);
    SendStoresListed(rs, Run(rs, listed, run), id);
  }

  // If the key is neither added nor deleted meanwhile, the last update of
  // each metric decides: an Add is atomic exactly when no metric's last update
  // brought a new value.
  lemma AddLosesUpdatesExactlyWhen(rs: Resources, s: State, id: nat, key: Key, current: int, run: seq<Action>)
    requires Targets(rs) && key in rs && rs[key].uri.QueueUri? && id !in s.syncs
    requires forall a | a in run :: !Concerns(a, id)
    requires key in s.table && s.table[key].name != ""
    requires var own := AllOnKey(Commands(rs, Next(rs, s, Begin(id, key, current)), run), key);
      forall c | c in own :: !c.Put? && !c.Remove?
    ensures var listed := Next(rs, s, Begin(id, key, current));
      var meanwhile := Run(rs, listed, run);
      var own := AllOnKey(Commands(rs, listed, run), key);
      var spec := s.table[key];
      Next(rs, meanwhile, SendAdd(id)).table == AtomicAdd(rs, meanwhile.table, key, current)
      <==> && LastMessages(own, spec.messages) == spec.messages
           && LastMessagesSent(own, spec.messagesSentPerMinute) == spec.messagesSentPerMinute
           && LastIdleWorkers(own, spec.idleWorkers) == spec.idleWorkers
  {
    var listed := Next(rs, s, Begin(id, key, current));
    AddIsAtomicExactlyWhen(rs, s, id, key, current, run);
    LastUpdatesWin(s.table[key], AllOnKey(Commands(rs, listed, run), key));
  }

  // ---------- What the steps come to when nobody is in between ----------

  // The four steps of a sync, one after the other, are the sync of the
  // controller on the queue that the atomic Add left, if the count it works
  // with is the stored one.
  lemma UninterruptedSync(rs: Resources, s: State, id: nat, key: Key, last: Option<int>, delay: int, now: int)
    requires Targets(rs) && key in rs && rs[key].uri.QueueUri? && id !in s.syncs && key in s.replicas
    ensures var t := AtomicAdd(rs, s.table, key, s.replicas[key]);
      var end := Run(rs, s, [Begin(id, key, s.replicas[key]), SendAdd(id), Decide(id, last, delay, now),
                             WriteReplicas(id)]);
      && end.table == t
      && end.syncs == s.syncs
      && end.replicas == s.replicas[key := Sync(World(s.replicas[key], Status(0, 0, 0, 0, last)), delay,
                                                InfoOf(t, key), rs[key].spec,
                                                Surroundings(0, now, now, false)).replicas]
  {
    var b, e, d, w := Begin(id, key, s.replicas[key]), SendAdd(id), Decide(id, last, delay, now), WriteReplicas(id);
    RunFour(rs, s, b, e, d, w);
    AddSteps(rs, s, id, key, s.replicas[key]);
    DecisionSteps(rs, Next(rs, Next(rs, s, b), e), id, key, last, delay, now);
    assert s.syncs[id := Served(key, s.replicas[key])] - {id} == s.syncs;
  }

  lemma AddSteps(rs: Resources, s: State, id: nat, key: Key, current: int)
    requires Targets(rs) && key in rs && rs[key].uri.QueueUri? && id !in s.syncs
    ensures Next(rs, Next(rs, s, Begin(id, key, current)), SendAdd(id))
         == s.(table := AtomicAdd(rs, s.table, key, current), syncs := s.syncs[id := Served(key, current)])
  {
    var listed, served := Next(rs, s, Begin(id, key, current)), Served(key, current);
    assert listed.syncs[id := served] == s.syncs[id := served];
  }

  // The second half: decide on the queue info of the moment, and write.
  lemma DecisionSteps(rs: Resources, s: State, id: nat, key: Key, last: Option<int>, delay: int, now: int)
    requires Targets(rs) && key in rs && id in s.syncs && key in s.replicas
    requires s.syncs[id] == Served(key, s.replicas[key])
    ensures var end := Next(rs, Next(rs, s, Decide(id, last, delay, now)), WriteReplicas(id));
      && end.table == s.table
      && end.syncs == s.syncs - {id}
      && end.replicas == s.replicas[key := Sync(World(s.replicas[key], Status(0, 0, 0, 0, last)), delay,
                                                InfoOf(s.table, key), rs[key].spec,
                                                Surroundings(0, now, now, false)).replicas]
  {
    var info, current := InfoOf(s.table, key), s.replicas[key];
    var decided := Next(rs, s, Decide(id, last, delay, now));
    if Ready(info) {
      var desired := Desired(info, rs[key].spec, current);
      SyncFromDesired(info, rs[key].spec, current, last, delay, now, desired);
    }
    assert s.replicas[key := s.replicas[key]] == s.replicas;
    if id in decided.syncs {
      assert decided.syncs - {id} == s.syncs - {id};
    }
  }

  lemma SyncFromDesired(info: QueueInfo, spec: WpaSpec, current: int, last: Option<int>, delay: int, now: int,
                        desired: int)
    requires spec.targetMessagesPerWorker != 0 && Ready(info) && desired == Desired(info, spec, current)
    ensures Sync(World(current, Status(0, 0, 0, 0, last)), delay, info, spec,
                 Surroundings(0, now, now, false)).replicas
         == if GetScaleOperation(desired, current, last, delay, now) == ScaleNoop then current else desired
  {
  }

  lemma RunFour(rs: Resources, s: State, a: Action, b: Action, c: Action, d: Action)
    requires Targets(rs)
    ensures Run(rs, s, [a, b, c, d]) == Next(rs, Next(rs, Next(rs, Next(rs, s, a), b), c), d)
  {
    assert [] + [a] == [a] && [a] + [b] == [a, b] && [a, b] + [c] == [a, b, c] && [a, b, c] + [d] == [a, b, c, d];
    RunOne(rs, s, [], a);
    RunOne(rs, s, [a], b);
    RunOne(rs, s, [a, b], c);
    RunOne(rs, s, [a, b, c], d);
  }

  lemma {:induction false} RunAppend(rs: Resources, s: State, a: seq<Action>, b: seq<Action>)
    requires Targets(rs)
    ensures Run(rs, s, a + b) == Run(rs, Run(rs, s, a), b)
    decreases |b|
  {
    if b == [] {
      assert a + b == a;
    } else {
      var n := |b| - 1;
      assert (a + b)[..|a + b| - 1] == a + b[..n];
      RunAppend(rs, s, a, b[..n]);
    }
  }

  // What pollers send reaches the replicas: in any state with a queue for the
  // key, a count, a rate and an idle count sent for it decide the next sync.
  lemma PolledMetricsDriveSync(
      rs: Resources, s: State, id: nat, key: Key, count: int, rate: real, idle: int,
      last: Option<int>, delay: int, now: int)
    requires Targets(rs) && key in rs && rs[key].uri.QueueUri? && rs[key].uri.queueName != ""
    requires id !in s.syncs && key in s.replicas && key in s.table && s.table[key].name != ""
    ensures var polls := [PollMessagesSent(key, rate), PollMessages(key, count), PollIdleWorkers(key, idle)];
      var sync := [Begin(id, key, s.replicas[key]), SendAdd(id), Decide(id, last, delay, now), WriteReplicas(id)];
      Run(rs, s, polls + sync).replicas
      == s.replicas[key := Sync(World(s.replicas[key], Status(0, 0, 0, 0, last)), delay,
                                QueueInfo(rs[key].uri.queueName, count, rate, idle), rs[key].spec,
                                Surroundings(0, now, now, false)).replicas]
  {
    var polls := [PollMessagesSent(key, rate), PollMessages(key, count), PollIdleWorkers(key, idle)];
    var sync := [Begin(id, key, s.replicas[key]), SendAdd(id), Decide(id, last, delay, now), WriteReplicas(id)];
    RunAppend(rs, s, polls, sync);
    var polled := Run(rs, s, polls);
    RunThree(rs, s, polls[0], polls[1], polls[2]);
    assert polled.table[key]
        == s.table[key].(messages := count, messagesSentPerMinute := rate, idleWorkers := idle);
    assert polled.replicas == s.replicas && polled.syncs == s.syncs;
    UninterruptedSync(rs, polled, id, key, last, delay, now);
  }

  lemma RunThree(rs: Resources, s: State, a: Action, b: Action, c: Action)
    requires Targets(rs)
    ensures Run(rs, s, [a, b, c]) == Next(rs, Next(rs, Next(rs, s, a), b), c)
  {
    assert [] + [a] == [a] && [a] + [b] == [a, b] && [a, b] + [c] == [a, b, c];
    RunOne(rs, s, [], a);
    RunOne(rs, s, [a], b);
    RunOne(rs, s, [a, b], c);
  }

  // A delete event takes the queue out of the table, and its sync then finds
  // no queue and writes nothing, as does one that finds the resource gone.
  lemma UninterruptedDelete(rs: Resources, s: State, id: nat, key: Key, current: int,
                            last: Option<int>, delay: int, now: int)
    requires Targets(rs) && key in rs && id !in s.syncs
    ensures Run(rs, s, [BeginDelete(id, key, current), Decide(id, last, delay, now)])
         == s.(table := s.table - {key})
    ensures Run(rs, s, [Drop(key)]) == s.(table := s.table - {key})
  {
    var b, d := BeginDelete(id, key, current), Decide(id, last, delay, now);
    assert [] + [b] == [b] && [b] + [d] == [b, d] && [] + [Drop(key)] == [Drop(key)];
    RunOne(rs, s, [], b);
    RunOne(rs, s, [b], d);
    RunOne(rs, s, [], Drop(key));
    var end := Next(rs, Next(rs, s, b), d);
    assert end.syncs == s.syncs;
  }
}
