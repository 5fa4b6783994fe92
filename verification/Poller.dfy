/**
 pkg/queue/poller.go as code: the actor that owns the thread map, and one tick
 of the manager loop that decides which poll goroutines to start and stop.
 */
module Pollers {
  import opened QueueTable

  type Threads = map<Key, bool>

  // The thread map after one update message: false deletes, true stores.
  function ApplyStatus(threads: Threads, status: map<Key, bool>): Threads {
    (threads - set k | k in status && !status[k]) + map k | k in status && status[k] :: true
  }

  ghost predicate AllTrue(threads: Threads) {
    forall k | k in threads :: threads[k]
  }

  class Poller {
    var threads: Threads

    constructor ()
      ensures threads == map[]
    {
      threads := map[];
    }

    // The update arm of Sync.
    method ServeUpdate(status: map<Key, bool>)
      modifies this
      ensures threads == ApplyStatus(old(threads), status)
    {
      var rest := status.Keys;
      while rest != {}
        invariant rest <= status.Keys
        invariant forall k :: k in threads <==> if k in status && k !in rest then status[k] else k in old(threads)
        invariant forall k | k in threads :: threads[k] == if k in status && k !in rest then true else old(threads)[k]
        decreases rest
      {
        var key :| key in rest;
        if status[key] == false {
          threads := map k | k in threads && k != key :: threads[k];
        } else {
          threads := threads[key := status[key]];
        }
        rest := rest - {key};
      }
    }

    method UpdateThreads(key: Key, status: bool)
      modifies this
      ensures threads == if status then old(threads)[key := true] else old(threads) - {key}
    {
      ServeUpdate(map[key := status]);
    }

    // The list arm of Sync: DeepCopyThread.
    method ListThreads() returns (copy: Threads)
      ensures copy == threads
    {
      copy := map[];
      var rest := threads.Keys;
      while rest != {}
        invariant rest <= threads.Keys
        invariant copy == map k | k in threads && k !in rest :: threads[k]
        decreases rest
      {
        var key :| key in rest;
        copy := copy[key := threads[key]];
        rest := rest - {key};
      }
    }

    method IsThreadRequired(key: Key) returns (required: bool)
      ensures required <==> key in threads && threads[key]
    {
      var all := ListThreads();
      if key !in all {
        return false;
      }
      return all[key];
    }

    // One tick of Run on the snapshot it listed. Returns the keys it started a
    // goroutine for, in order.
    method Tick(queues: Table) returns (started: seq<Key>)
      requires AllTrue(threads)
      modifies this
      ensures threads == map k | k in queues :: true
      ensures forall k :: k in started <==> k in queues && k !in old(threads)
      ensures forall i, j | 0 <= i < j < |started| :: started[i] != started[j]
    {
      started := [];
      // Give every listed queue a thread.
      var rest := queues.Keys;
      while rest != {}
        invariant rest <= queues.Keys
        invariant AllTrue(threads) && threads.Keys == old(threads).Keys + (queues.Keys - rest)
        invariant forall k :: k in started <==> k in queues.Keys - rest - old(threads).Keys
        invariant forall i, j | 0 <= i < j < |started| :: started[i] != started[j]
        decreases rest
      {
        var key :| key in rest;
        var seen := ListThreads();
        if key !in seen {
          UpdateThreads(key, true);
          assert key !in started;
          started := started + [key];
        }
        rest := rest - {key};
      }
      // Take back the threads of queues that are gone.
      ReapThreads(queues);
    }

    // The second loop of the tick.
    method ReapThreads(queues: Table)
      requires AllTrue(threads) && queues.Keys <= threads.Keys
      modifies this
      ensures threads == map k | k in queues :: true
    {
      var listed := ListThreads();
      var rest := listed.Keys;
      while rest != {}
        invariant rest <= listed.Keys
        invariant AllTrue(threads) && threads.Keys == rest + queues.Keys
        decreases rest
      {
        var key :| key in rest;
        if key !in queues {
          UpdateThreads(key, false);
        }
        rest := rest - {key};
      }
    }
  }
}
