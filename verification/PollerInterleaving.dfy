/**
 The poller manager, its goroutines and the queue table, interleaved. Each channel
 operation is one step. The manager's tick is cut at every operation, and other
 parties may change the table at any point of it.
 */
module PollerInterleaving {
  import opened QueueTable
  import opened Pollers

  // Where Run stands inside its tick.
  datatype Manager =
    | Waiting
    // First loop: keys of the snapshot still to be visited.
    | Creating(remaining: set<Key>)
    // Saw no thread for key; about to send the update.
    | Updating(key: Key, remaining: set<Key>)
    // The update was served; about to start the goroutine.
    | Spawning(key: Key, remaining: set<Key>)
    // Second loop: listed keys still to be visited.
    | Reaping(remaining: set<Key>)

  // Where runPollThread stands.
  datatype Phase = Checking | Listing | Starting | Polling | Exited

  datatype Goroutine = Goroutine(key: Key, phase: Phase, polls: nat)

  datatype State = State(
    service: string,
    table: Table,
    threads: Threads,
    manager: Manager,
    // The last listing of the queues, and the one before it.
    snapshot: set<Key>,
    previous: set<Key>,
    goroutines: seq<Goroutine>,
    // History: how often each key appeared among the queues of this service, in
    // how many ticks it was listed after not being listed, and the keys started
    // in this tick.
    appearances: map<Key, nat>,
    newListings: map<Key, nat>,
    started: set<Key>)

  datatype Action =
    // Anyone's command on the table.
    | TableCommand(command: Command)
    // A step of the manager; the key is its choice of the next map entry.
    | Tick
    | Visit(key: Key)
    | SendUpdate
    | Spawn
    | ListForReaping
    | Reap(key: Key)
    | TickDone
    // A step of goroutine number id.
    | GoStep(id: nat)

  ghost function Count(m: map<Key, nat>, k: Key): nat {
    if k in m then m[k] else 0
  }

  // One more for every key that is there now and was not before.
  ghost function CountNew(m: map<Key, nat>, before: set<Key>, now: set<Key>): map<Key, nat> {
    map k | k in m.Keys + now :: Count(m, k) + if k in now && k !in before then 1 else 0
  }

  ghost function GoNext(s: State, g: Goroutine): Goroutine {
    match g.phase
    case Checking => g.(phase := if g.key in s.threads && s.threads[g.key] then Listing else Exited)
    case Listing => g.(phase := if Lookup(s.table, g.key).name != "" then Starting else Exited)
    case Starting => g.(phase := Polling, polls := g.polls + 1)
    case Polling => g.(phase := Checking)
    case Exited => g
  }

  // One step. An action that is not enabled changes nothing.
  ghost function Next(s: State, a: Action): State {
    match a
    case TableCommand(c) =>
      var t := Apply(s.table, c);
      s.(table := t, appearances := CountNew(s.appearances, Present(s.service, s.table), Present(s.service, t)))
    case Tick =>
      if !s.manager.Waiting? then s
      else
        var now := Present(s.service, s.table);
        s.(manager := Creating(now), snapshot := now, previous := s.snapshot,
            newListings := CountNew(s.newListings, s.snapshot, now), started := {})
    case Visit(k) =>
      if !s.manager.Creating? || k !in s.manager.remaining then s
      else
        var remaining := s.manager.remaining - {k};
        s.(manager := if k in s.threads then Creating(remaining) else Updating(k, remaining))
    case SendUpdate =>
      if !s.manager.Updating? then s
      else s.(threads := ApplyStatus(s.threads, map[s.manager.key := true]),
              manager := Spawning(s.manager.key, s.manager.remaining))
    case Spawn =>
      if !s.manager.Spawning? then s
      else s.(goroutines := s.goroutines + [Goroutine(s.manager.key, Checking, 0)],
              manager := Creating(s.manager.remaining),
              started := s.started + {s.manager.key})
    case ListForReaping =>
      if s.manager != Creating({}) then s else s.(manager := Reaping(s.threads.Keys))
    case Reap(k) =>
      if !s.manager.Reaping? || k !in s.manager.remaining then s
      else
        s.(manager := Reaping(s.manager.remaining - {k}),
           threads := if k in s.snapshot then s.threads else ApplyStatus(s.threads, map[k := false]))
    case TickDone =>
      if s.manager != Reaping({}) then s else s.(manager := Waiting)
    case GoStep(id) =>
      if id >= |s.goroutines| then s
      else s.(goroutines := s.goroutines[id := GoNext(s, s.goroutines[id])])
  }

  ghost function Start(service: string): State {
    State(service, map[], map[], Waiting, {}, {}, [], map[], map[], {})
  }

  ghost function Run(s: State, run: seq<Action>): State {
    if run == [] then s else Next(Run(s, run[..|run| - 1]), run[|run| - 1])
  }

  // ---------- Tick reconciliation ----------

  // The thread map in terms of the two snapshots, at each point of the tick.
  ghost predicate ManagerInv(s: State) {
    && AllTrue(s.threads)
    && (match s.manager
        case Waiting =>
          s.threads.Keys == s.snapshot && s.started == s.snapshot - s.previous
        case Creating(remaining) =>
          && remaining <= s.snapshot
          && s.threads.Keys == s.previous + (s.snapshot - remaining)
          && s.started == s.snapshot - s.previous - remaining
        case Updating(k, remaining) =>
          && remaining <= s.snapshot && k in s.snapshot && k !in remaining && k !in s.previous
          && s.threads.Keys == s.previous + (s.snapshot - remaining - {k})
          && s.started == s.snapshot - s.previous - remaining - {k}
        case Spawning(k, remaining) =>
          && remaining <= s.snapshot && k in s.snapshot && k !in remaining && k !in s.previous
          && s.threads.Keys == s.previous + (s.snapshot - remaining)
          && s.started == s.snapshot - s.previous - remaining - {k}
        case Reaping(remaining) =>
          && s.threads.Keys == s.snapshot + (s.previous * remaining)
          && remaining <= s.previous + s.snapshot
          && s.started == s.snapshot - s.previous)
  }

  lemma CreatingStep(s: State, a: Action)
    requires ManagerInv(s) && (a.Tick? || a.Visit? || a.SendUpdate? || a.Spawn?)
    ensures ManagerInv(Next(s, a))
  {
  }

  lemma ReapingStep(s: State, a: Action)
    requires ManagerInv(s) && (a.ListForReaping? || a.Reap? || a.TickDone?)
    ensures ManagerInv(Next(s, a))
  {
  }

  lemma ManagerStep(s: State, a: Action)
    requires ManagerInv(s)
    ensures ManagerInv(Next(s, a))
  {
    if a.Tick? || a.Visit? || a.SendUpdate? || a.Spawn? {
      CreatingStep(s, a);
    } else if a.ListForReaping? || a.Reap? || a.TickDone? {
      ReapingStep(s, a);
    }
  }

  lemma {:induction false} ManagerRun(service: string, run: seq<Action>)
    ensures ManagerInv(Run(Start(service), run))
  {
    if run != [] {
      ManagerRun(service, run[..|run| - 1]);
      ManagerStep(Run(Start(service), run[..|run| - 1]), run[|run| - 1]);
    }
  }

  // Whenever the manager waits for its next tick, the threads are exactly the
  // queues it listed at the start of the last one, and the goroutines it
  // started are exactly for the queues that were new in that listing.
  lemma TickReconciles(service: string, run: seq<Action>)
    ensures var s := Run(Start(service), run);
      s.manager.Waiting? ==>
        && s.threads == (map k | k in s.snapshot :: true)
        && s.started == s.snapshot - s.previous
  {
    ManagerRun(service, run);
  }

  // The manager can take this step now. (Other parties' steps, and the tick
  // that starts a round, are not steps of a round.)
  ghost predicate RoundStep(s: State, a: Action) {
    match a
    case Visit(k) => s.manager.Creating? && k in s.manager.remaining
    case SendUpdate => s.manager.Updating?
    case Spawn => s.manager.Spawning?
    case ListForReaping => s.manager == Creating({})
    case Reap(k) => s.manager.Reaping? && k in s.manager.remaining
    case TickDone => s.manager == Reaping({})
    case _ => false
  }

  // Steps the manager can still take in this round: three for a key to visit,
  // one for a thread to look at when reaping, and two more.
  ghost function RoundRank(s: State): nat {
    var toReap := |s.previous + s.snapshot|;
    match s.manager
    case Waiting => 0
    case Creating(remaining) => 3 * |remaining| + toReap + 2
    case Updating(_, remaining) => 3 * |remaining| + 2 + toReap + 2
    case Spawning(_, remaining) => 3 * |remaining| + 1 + toReap + 2
    case Reaping(remaining) => |remaining| + 1
  }

  lemma VisitCounts(s: State, k: Key)
    requires RoundStep(s, Visit(k))
    ensures RoundRank(Next(s, Visit(k))) < RoundRank(s)
  {
    assert |s.manager.remaining - {k}| == |s.manager.remaining| - 1;
  }

  lemma ReapCounts(s: State, k: Key)
    requires RoundStep(s, Reap(k))
    ensures RoundRank(Next(s, Reap(k))) < RoundRank(s)
  {
    assert |s.manager.remaining - {k}| == |s.manager.remaining| - 1;
  }

  lemma ListingCounts(s: State)
    requires ManagerInv(s) && RoundStep(s, ListForReaping)
    ensures RoundRank(Next(s, ListForReaping)) < RoundRank(s)
  {
    assert s.threads.Keys == s.previous + s.snapshot;
  }

  lemma OtherRoundStepCounts(s: State, a: Action)
    requires a.SendUpdate? || a.Spawn? || a.TickDone?
    requires RoundStep(s, a)
    ensures RoundRank(Next(s, a)) < RoundRank(s)
  {
  }

  lemma NoRoundStepNoChange(s: State, a: Action)
    requires !a.Tick? && !RoundStep(s, a)
    ensures RoundRank(Next(s, a)) == RoundRank(s)
  {
  }

  // Every step of the round counts, and nobody else's step undoes it.
  lemma RoundStepCounts(s: State, a: Action)
    requires ManagerInv(s) && !a.Tick?
    ensures RoundRank(Next(s, a)) + (if RoundStep(s, a) then 1 else 0) <= RoundRank(s)
  {
    if !RoundStep(s, a) {
      NoRoundStepNoChange(s, a);
    } else if a.Visit? {
      VisitCounts(s, a.key);
    } else if a.Reap? {
      ReapCounts(s, a.key);
    } else if a.ListForReaping? {
      ListingCounts(s);
    } else {
      OtherRoundStepCounts(s, a);
    }
  }

  // Until it waits again, the manager is never stuck.
  lemma ManagerNeverStuck(s: State)
    requires !s.manager.Waiting?
    ensures exists a :: RoundStep(s, a)
  {
    match s.manager
    case Creating(remaining) =>
      if remaining == {} {
        assert RoundStep(s, ListForReaping);
      } else {
        var k :| k in remaining;
        assert RoundStep(s, Visit(k));
      }
    case Updating(_, _) => assert RoundStep(s, SendUpdate);
    case Spawning(_, _) => assert RoundStep(s, Spawn);
    case Reaping(remaining) =>
      if remaining == {} {
        assert RoundStep(s, TickDone);
      } else {
        var k :| k in remaining;
        assert RoundStep(s, Reap(k));
      }
  }

  lemma WaitingHasNoStep(s: State)
    requires s.manager.Waiting?
    ensures forall a :: !RoundStep(s, a)
  {
  }

  lemma RankAfterTick(s: State)
    requires s.manager.Waiting?
    ensures var t := Next(s, Tick); RoundRank(t) == 3 * |t.snapshot| + |t.previous + t.snapshot| + 2
  {
  }

  ghost function RoundSteps(s: State, run: seq<Action>): nat {
    if run == [] then 0
    else
      var before := run[..|run| - 1];
      RoundSteps(s, before) + (if RoundStep(Run(s, before), run[|run| - 1]) then 1 else 0)
  }

  lemma {:induction false} RoundIsBounded(s: State, run: seq<Action>)
    requires ManagerInv(s)
    requires forall a | a in run :: !a.Tick?
    ensures ManagerInv(Run(s, run))
    ensures RoundRank(Run(s, run)) + RoundSteps(s, run) <= RoundRank(s)
  {
    if run != [] {
      var before := run[..|run| - 1];
      RoundIsBounded(s, before);
      ManagerStep(Run(s, before), run[|run| - 1]);
      RoundStepCounts(Run(s, before), run[|run| - 1]);
    }
  }

  // A round ends: after its tick, and among any steps of others, the manager
  // takes no more steps than three per listed queue, one per thread and two,
  // and when it has no step left it waits again.
  lemma RoundEnds(service: string, history: seq<Action>, run: seq<Action>)
    requires Run(Start(service), history).manager.Waiting?
    requires forall a | a in run :: !a.Tick?
    ensures var s := Next(Run(Start(service), history), Tick);
      var t := Run(s, run);
      && RoundSteps(s, run) <= 3 * |s.snapshot| + |s.previous + s.snapshot| + 2
      && (t.manager.Waiting? <==> !exists a :: RoundStep(t, a))
  {
    ManagerRun(service, history);
    var before := Run(Start(service), history);
    ManagerStep(before, Tick);
    var s := Next(before, Tick);
    RankAfterTick(before);
    RoundIsBounded(s, run);
    var t := Run(s, run);
    if t.manager.Waiting? {
      WaitingHasNoStep(t);
    } else {
      ManagerNeverStuck(t);
    }
  }

  lemma StepKeepsListings(s: State, a: Action)
    ensures Next(s, a).service == s.service
    ensures !a.Tick? ==>
      && Next(s, a).snapshot == s.snapshot && Next(s, a).previous == s.previous
      && Next(s, a).newListings == s.newListings
  {
  }

  // Between ticks the listings, and the history about them, stay.
  lemma {:induction false} RoundKeepsListings(s: State, run: seq<Action>)
    requires forall a | a in run :: !a.Tick?
    ensures var t := Run(s, run);
      && t.service == s.service && t.snapshot == s.snapshot
      && t.previous == s.previous && t.newListings == s.newListings
  {
    if run != [] {
      RoundKeepsListings(s, run[..|run| - 1]);
      StepKeepsListings(Run(s, run[..|run| - 1]), run[|run| - 1]);
    }
  }

  lemma {:induction false} ServiceIsKept(s: State, run: seq<Action>)
    ensures Run(s, run).service == s.service
  {
    if run != [] {
      ServiceIsKept(s, run[..|run| - 1]);
      StepKeepsListings(Run(s, run[..|run| - 1]), run[|run| - 1]);
    }
  }

  // ---------- Spawn bound ----------

  ghost function Spawned(gs: seq<Goroutine>, k: Key): nat {
    if gs == [] then 0
    else Spawned(gs[..|gs| - 1], k) + if gs[|gs| - 1].key == k then 1 else 0
  }

  ghost function Live(gs: seq<Goroutine>, k: Key): nat {
    if gs == [] then 0
    else Live(gs[..|gs| - 1], k) + if gs[|gs| - 1].key == k && !gs[|gs| - 1].phase.Exited? then 1 else 0
  }

  // A spawn is owed for k: the snapshot asks for one that has not happened, or
  // k is present although the snapshot did not have it.
  ghost predicate Owed(s: State, k: Key) {
    if k in s.snapshot then k !in s.threads || (s.manager.Spawning? && s.manager.key == k)
    else k in Present(s.service, s.table)
  }

  // Every spawn, and every owed one, is paid for by an appearance of its own.
  ghost predicate Paid(s: State, k: Key) {
    Spawned(s.goroutines, k) + (if Owed(s, k) then 1 else 0) <= Count(s.appearances, k)
  }

  lemma {:induction false} SpawnedAfterGoStep(gs: seq<Goroutine>, id: nat, g: Goroutine, k: Key)
    requires id < |gs| && gs[id].key == g.key
    ensures Spawned(gs[id := g], k) == Spawned(gs, k)
  {
    var n := |gs| - 1;
    if id < n {
      assert gs[id := g][..n] == gs[..n][id := g];
      SpawnedAfterGoStep(gs[..n], id, g, k);
    } else {
      assert gs[id := g][..n] == gs[..n];
    }
  }

  lemma SpawnedAfterSpawn(gs: seq<Goroutine>, g: Goroutine, k: Key)
    ensures Spawned(gs + [g], k) == Spawned(gs, k) + if g.key == k then 1 else 0
  {
    assert (gs + [g])[..|gs|] == gs;
  }

  lemma PaidStep(s: State, a: Action, k: Key)
    requires ManagerInv(s) && Paid(s, k)
    ensures Paid(Next(s, a), k)
  {
    match a
    case TableCommand(c) =>
    case Tick =>
    case Visit(_) =>
    case SendUpdate =>
    case Spawn =>
      if s.manager.Spawning? {
        SpawnedAfterSpawn(s.goroutines, Goroutine(s.manager.key, Checking, 0), k);
      }
    case ListForReaping =>
    case Reap(_) =>
    case TickDone =>
    case GoStep(id) =>
      if id < |s.goroutines| {
        SpawnedAfterGoStep(s.goroutines, id, GoNext(s, s.goroutines[id]), k);
      }
  }

  lemma {:induction false} PaidRun(service: string, run: seq<Action>, k: Key)
    ensures Paid(Run(Start(service), run), k)
  {
    if run != [] {
      var before := run[..|run| - 1];
      ManagerRun(service, before);
      PaidRun(service, before, k);
      PaidStep(Run(Start(service), before), run[|run| - 1], k);
    }
  }

  // One spawn for every new listing, except those this tick has still to do.
  ghost predicate Accounted(s: State, k: Key) {
    Spawned(s.goroutines, k) + (if k in s.snapshot - s.previous - s.started then 1 else 0) == Count(s.newListings, k)
  }

  lemma AccountedStep(s: State, a: Action, k: Key)
    requires ManagerInv(s) && Accounted(s, k)
    ensures Accounted(Next(s, a), k)
  {
    match a
    case TableCommand(c) =>
    case Tick =>
    case Visit(_) =>
    case SendUpdate =>
    case Spawn =>
      if s.manager.Spawning? {
        SpawnedAfterSpawn(s.goroutines, Goroutine(s.manager.key, Checking, 0), k);
      }
    case ListForReaping =>
    case Reap(_) =>
    case TickDone =>
    case GoStep(id) =>
      if id < |s.goroutines| {
        SpawnedAfterGoStep(s.goroutines, id, GoNext(s, s.goroutines[id]), k);
      }
  }

  // Between ticks, a goroutine was started for a key exactly as often as the
  // key was in one listing and not in the listing before.
  lemma {:induction false} SpawnsAreNewListings(service: string, run: seq<Action>, k: Key)
    ensures var s := Run(Start(service), run);
      && Accounted(s, k)
      && (s.manager.Waiting? ==> Spawned(s.goroutines, k) == Count(s.newListings, k))
  {
    if run != [] {
      var before := run[..|run| - 1];
      ManagerRun(service, before);
      SpawnsAreNewListings(service, before, k);
      AccountedStep(Run(Start(service), before), run[|run| - 1], k);
    }
    ManagerRun(service, run);
  }

  // What a whole round comes to, whatever others do during it. When the manager
  // waits again, the threads are exactly the queues of its service that were in
  // the table at the tick, and since the tick one goroutine was started for each
  // of them that had no thread, and none for any other key.
  lemma RoundReconciles(service: string, history: seq<Action>, run: seq<Action>, k: Key)
    requires Run(Start(service), history).manager.Waiting?
    requires forall a | a in run :: !a.Tick?
    ensures var before := Run(Start(service), history);
      var after := Run(Next(before, Tick), run);
      var listed := k in before.table && before.table[k].queueServiceName == service;
      after.manager.Waiting? ==>
        && (k in after.threads <==> listed)
        && (listed ==> after.threads[k])
        && Spawned(after.goroutines, k)
           == Spawned(before.goroutines, k) + if listed && k !in before.threads then 1 else 0
  {
    var before := Run(Start(service), history);
    var ticked := Next(before, Tick);
    ServiceIsKept(Start(service), history);
    ManagerRun(service, history);
    SpawnsAreNewListings(service, history, k);
    ManagerStep(before, Tick);
    AccountedStep(before, Tick, k);
    RoundKeepsListings(ticked, run);
    AccountedRun(ticked, run, k);
  }

  lemma {:induction false} AccountedRun(s: State, run: seq<Action>, k: Key)
    requires ManagerInv(s) && Accounted(s, k)
    ensures ManagerInv(Run(s, run)) && Accounted(Run(s, run), k)
  {
    if run != [] {
      var before := run[..|run| - 1];
      AccountedRun(s, before, k);
      ManagerStep(Run(s, before), run[|run| - 1]);
      AccountedStep(Run(s, before), run[|run| - 1], k);
    }
  }

  lemma {:induction false} LiveWereSpawned(gs: seq<Goroutine>, k: Key)
    ensures Live(gs, k) <= Spawned(gs, k)
  {
    if gs != [] {
      LiveWereSpawned(gs[..|gs| - 1], k);
    }
  }

  // In every interleaving there are no more live goroutines for a key than were
  // started, and no more were started than the key has appeared; so one at most
  // while its presence is uninterrupted.
  lemma SpawnBound(service: string, run: seq<Action>, k: Key)
    ensures var s := Run(Start(service), run);
      && Live(s.goroutines, k) <= Spawned(s.goroutines, k) <= Count(s.appearances, k)
      && (Count(s.appearances, k) <= 1 ==> Live(s.goroutines, k) <= 1)
  {
    PaidRun(service, run, k);
    LiveWereSpawned(Run(Start(service), run).goroutines, k);
  }

  // A queue that appears after the first n steps and then stays.
  ghost predicate AppearsOnce(service: string, run: seq<Action>, n: nat, k: Key)
    requires n <= |run|
  {
    forall i | 0 <= i <= |run| :: k in Present(service, Run(Start(service), run[..i]).table) <==> i > n
  }

  lemma {:induction false} OneAppearance(service: string, run: seq<Action>, n: nat, k: Key, i: nat)
    requires n <= |run| && AppearsOnce(service, run, n, k) && i <= |run|
    ensures Count(Run(Start(service), run[..i]).appearances, k) == if i > n then 1 else 0
  {
    var s := Run(Start(service), run[..i]);
    if i > 0 {
      OneAppearance(service, run, n, k, i - 1);
      assert run[..i][..i - 1] == run[..i - 1];
      var before := Run(Start(service), run[..i - 1]);
      ServiceIsKept(Start(service), run[..i - 1]);
      assert s == Next(before, run[i - 1]);
      assert k in Present(service, before.table) <==> i - 1 > n;
      assert k in Present(service, s.table) <==> i > n;
      CountAfterStep(before, run[i - 1], k);
    }
  }

  lemma CountAfterStep(s: State, a: Action, k: Key)
    ensures var t := Next(s, a);
      Count(t.appearances, k) == Count(s.appearances, k)
        + if k in Present(s.service, t.table) && k !in Present(s.service, s.table) then 1 else 0
  {
  }

  lemma {:induction false} TwoAreLive(gs: seq<Goroutine>, k: Key, i: nat, j: nat)
    requires i < j < |gs| && gs[i].key == k && gs[j].key == k
    requires !gs[i].phase.Exited? && !gs[j].phase.Exited?
    ensures Live(gs, k) >= 2
  {
    if j < |gs| - 1 {
      TwoAreLive(gs[..|gs| - 1], k, i, j);
    } else {
      OneIsLive(gs[..|gs| - 1], k, i);
    }
  }

  lemma {:induction false} OneIsLive(gs: seq<Goroutine>, k: Key, i: nat)
    requires i < |gs| && gs[i].key == k && !gs[i].phase.Exited?
    ensures Live(gs, k) >= 1
  {
    if i < |gs| - 1 {
      OneIsLive(gs[..|gs| - 1], k, i);
    }
  }

  // So a queue that stays once it has appeared never has two live goroutines,
  // in any interleaving of everything else.
  lemma OneGoroutinePerQueue(service: string, run: seq<Action>, n: nat, k: Key, i: nat, j: nat)
    requires n <= |run| && AppearsOnce(service, run, n, k)
    requires var gs := Run(Start(service), run).goroutines;
      && i < j < |gs| && gs[i].key == k && gs[j].key == k
    ensures var gs := Run(Start(service), run).goroutines;
      gs[i].phase.Exited? || gs[j].phase.Exited?
  {
    assert run[..|run|] == run;
    OneAppearance(service, run, n, k, |run|);
    SpawnBound(service, run, k);
    var gs := Run(Start(service), run).goroutines;
    if !gs[i].phase.Exited? && !gs[j].phase.Exited? {
      TwoAreLive(gs, k, i, j);
    }
  }

  // ---------- Progress of a poll goroutine ----------

  // The manager keeps a thread for the key, and the table its queue.
  ghost predicate Required(s: State, k: Key) {
    && k in s.threads && s.threads[k]
    && k in s.table && s.table[k].name != ""
  }

  // ... at the start, and after every step of the run.
  ghost predicate RequiredThroughout(s: State, run: seq<Action>, k: Key) {
    && Required(Run(s, run), k)
    && (run != [] ==> RequiredThroughout(s, run[..|run| - 1], k))
  }

  lemma RequiredAtEnd(s: State, run: seq<Action>, k: Key)
    requires RequiredThroughout(s, run, k)
    ensures Required(Run(s, run), k)
  {
  }

  ghost function PhaseAfter(steps: nat): Phase {
    match steps % 4
    case 0 => Checking
    case 1 => Listing
    case 2 => Starting
    case _ => Polling
  }

  // The steps that a goroutine itself takes in the run.
  ghost function Own(run: seq<Action>, id: nat): nat {
    if run == [] then 0
    else Own(run[..|run| - 1], id) + if run[|run| - 1] == GoStep(id) then 1 else 0
  }

  // Goroutine h is g, which was about to check, that many own steps later.
  ghost predicate InLoop(g: Goroutine, h: Goroutine, steps: nat) {
    h == Goroutine(g.key, PhaseAfter(steps), g.polls + (steps + 1) / 4)
  }

  lemma LoopTurns(s: State, g: Goroutine, h: Goroutine, steps: nat)
    requires Required(s, g.key) && InLoop(g, h, steps)
    ensures InLoop(g, GoNext(s, h), steps + 1)
  {
  }

  lemma RoundTheLoop(s: State, a: Action, id: nat, g: Goroutine, steps: nat)
    requires id < |s.goroutines| && Required(s, g.key) && InLoop(g, s.goroutines[id], steps)
    ensures id < |Next(s, a).goroutines|
    ensures InLoop(g, Next(s, a).goroutines[id], steps + if a == GoStep(id) then 1 else 0)
  {
    LoopTurns(s, g, s.goroutines[id], steps);
    OnlyOwnSteps(s, a, id);
  }

  // A goroutine moves by its own steps alone.
  lemma OnlyOwnSteps(s: State, a: Action, id: nat)
    requires id < |s.goroutines|
    ensures id < |Next(s, a).goroutines|
    ensures Next(s, a).goroutines[id] == if a == GoStep(id) then GoNext(s, s.goroutines[id]) else s.goroutines[id]
  {
  }

  lemma {:induction false} StaysInLoop(s: State, run: seq<Action>, id: nat, g: Goroutine)
    requires id < |s.goroutines| && InLoop(g, s.goroutines[id], 0)
    requires RequiredThroughout(s, run, g.key)
    ensures id < |Run(s, run).goroutines| && InLoop(g, Run(s, run).goroutines[id], Own(run, id))
  {
    if run != [] {
      var before, last := run[..|run| - 1], run[|run| - 1];
      StaysInLoop(s, before, id, g);
      RequiredAtEnd(s, before, g.key);
      RoundTheLoop(Run(s, before), last, id, g, Own(before, id));
    }
  }

  // While its thread and its queue stay, whatever else happens, a goroutine
  // keeps polling: it starts a poll with the third of its own steps and with
  // every fourth one after that, and never exits.
  lemma PollThreadPolls(s: State, run: seq<Action>, id: nat)
    requires id < |s.goroutines| && s.goroutines[id].phase.Checking?
    requires RequiredThroughout(s, run, s.goroutines[id].key)
    ensures id < |Run(s, run).goroutines|
    ensures var g, steps := s.goroutines[id], Own(run, id);
      Run(s, run).goroutines[id] == Goroutine(g.key, PhaseAfter(steps), g.polls + (steps + 1) / 4)
  {
    StaysInLoop(s, run, id, s.goroutines[id]);
  }

  // A step ends a live goroutine exactly when it is a check that finds no
  // thread or a listing that finds no queue; it starts no poll then, and
  // nothing that happens later makes it go on.
  lemma PollThreadStops(s: State, id: nat, later: seq<Action>)
    requires id < |s.goroutines| && !s.goroutines[id].phase.Exited?
    ensures var g, h := s.goroutines[id], Next(s, GoStep(id)).goroutines[id];
      && (h.phase.Exited?
          <==> || (g.phase.Checking? && !(g.key in s.threads && s.threads[g.key]))
               || (g.phase.Listing? && !(g.key in s.table && s.table[g.key].name != "")))
      && (h.phase.Exited? ==>
            && h.polls == g.polls
            && id < |Run(Next(s, GoStep(id)), later).goroutines|
            && Run(Next(s, GoStep(id)), later).goroutines[id] == h)
  {
    if Next(s, GoStep(id)).goroutines[id].phase.Exited? {
      ExitedForGood(Next(s, GoStep(id)), later, id);
    }
  }

  lemma {:induction false} ExitedForGood(s: State, run: seq<Action>, id: nat)
    requires id < |s.goroutines| && s.goroutines[id].phase.Exited?
    ensures id < |Run(s, run).goroutines| && Run(s, run).goroutines[id] == s.goroutines[id]
  {
    if run != [] {
      ExitedForGood(s, run[..|run| - 1], id);
      OnlyOwnSteps(Run(s, run[..|run| - 1]), run[|run| - 1], id);
    }
  }

  // ---------- Termination of a poll goroutine ----------

  // Steps a goroutine can still take once its key is gone.
  ghost function Rank(p: Phase): nat {
    match p
    case Starting => 4
    case Polling => 3
    case Checking => 2
    case Listing => 1
    case Exited => 0
  }

  ghost predicate Adds(a: Action, k: Key) {
    a.TableCommand? && a.command.AddQueues? && k in a.command.specs
  }

  // No command of the run adds a queue under k.
  ghost predicate NeverAdded(run: seq<Action>, k: Key) {
    forall a | a in run :: !Adds(a, k)
  }

  lemma OnlyAddBringsBack(s: State, a: Action, k: Key)
    requires k !in s.table && !Adds(a, k)
    ensures k !in Next(s, a).table
  {
  }

  lemma {:induction false} GoneStaysGone(s: State, run: seq<Action>, k: Key)
    requires k !in s.table && NeverAdded(run, k)
    ensures k !in Run(s, run).table
  {
    if run != [] {
      var before := run[..|run| - 1];
      GoneStaysGone(s, before, k);
      OnlyAddBringsBack(Run(s, before), run[|run| - 1], k);
    }
  }

  // Goroutine h is g after the given number of own steps without its key.
  ghost predicate CountedDown(g: Goroutine, h: Goroutine, steps: nat) {
    && h.key == g.key
    && (h.phase.Exited? || Rank(h.phase) + steps <= Rank(g.phase))
    && (h.phase.Starting? ==> g.phase.Starting?)
    && h.polls == g.polls + if g.phase.Starting? && !h.phase.Starting? then 1 else 0
  }

  lemma CountDownStep(s: State, a: Action, id: nat, g: Goroutine, steps: nat)
    requires id < |s.goroutines| && g.key !in s.table
    requires CountedDown(g, s.goroutines[id], steps)
    ensures id < |Next(s, a).goroutines|
    ensures CountedDown(g, Next(s, a).goroutines[id], steps + if a == GoStep(id) then 1 else 0)
  {
  }

  // From the moment its key is gone for good, a goroutine counts down with each
  // of its own steps, and starts at most the one poll whose queue listing came
  // before.
  lemma {:induction false} CountsDown(s: State, run: seq<Action>, id: nat)
    requires id < |s.goroutines|
    requires s.goroutines[id].key !in s.table && NeverAdded(run, s.goroutines[id].key)
    ensures id < |Run(s, run).goroutines|
    ensures CountedDown(s.goroutines[id], Run(s, run).goroutines[id], Own(run, id))
  {
    if run != [] {
      var before := run[..|run| - 1];
      CountsDown(s, before, id);
      GoneStaysGone(s, before, s.goroutines[id].key);
      CountDownStep(Run(s, before), run[|run| - 1], id, s.goroutines[id], Own(before, id));
    }
  }

  // After four steps of its own it has exited, having started one more poll
  // at most.
  lemma PollThreadTerminates(s: State, run: seq<Action>, id: nat)
    requires id < |s.goroutines|
    requires s.goroutines[id].key !in s.table && NeverAdded(run, s.goroutines[id].key)
    requires Own(run, id) >= 4
    ensures id < |Run(s, run).goroutines|
    ensures Run(s, run).goroutines[id].phase.Exited?
    ensures Run(s, run).goroutines[id].polls
         == s.goroutines[id].polls + if s.goroutines[id].phase.Starting? then 1 else 0
  {
    CountsDown(s, run, id);
  }
}
