/**
 The one-minute cache in front of CloudWatch (pkg/queue/sqs.go): one map of
 values, one map of times, per metric. The sent and the received metric use the
 same code on different maps. Times are nanoseconds.
 */
module MetricCaches {
  import opened Wrappers

  const VALIDITY := 60_000_000_000
  const MISSING_AGE := 70_000_000_000

  // The two maps of one metric.
  datatype Cache = Cache(values: map<string, real>, stamps: map<string, int>)

  // The outside of one call: the two clock readings, and what the service
  // answers if it is asked.
  datatype Call = Call(uri: string, firstNow: int, now: int, answer: Result<real>)

  // Is the cached value used?
  predicate Hit(c: Cache, q: Call) {
    var last := if q.uri in c.stamps then c.stamps[q.uri] else q.firstNow - MISSING_AGE;
    last + VALIDITY > q.now && q.uri in c.values
  }

  function Returned(c: Cache, q: Call): Result<real> {
    if Hit(c, q) then Ok(c.values[q.uri]) else q.answer
  }

  // The call asked the service and got a value.
  predicate Fetches(c: Cache, q: Call) {
    !Hit(c, q) && q.answer.Ok?
  }

  function AfterCall(c: Cache, q: Call): Cache {
    if Fetches(c, q) then Cache(c.values[q.uri := q.answer.value], c.stamps[q.uri := q.now]) else c
  }

  class MetricCache {
    var values: map<string, real>
    var stamps: map<string, int>

    constructor ()
      ensures Contents() == Cache(map[], map[])
    {
      values, stamps := map[], map[];
    }

    function Contents(): Cache
      reads this
    {
      Cache(values, stamps)
    }

    method Get(uri: string) returns (value: real, hit: bool)
      ensures hit <==> uri in values
      ensures value == if uri in values then values[uri] else 0.0
    {
      if uri in values {
        return values[uri], true;
      }
      return 0.0, false;
    }

    // cachedNumberOfSentMessages and cachedNumberOfReceiveMessages.
    method CachedNumber(q: Call) returns (r: Result<real>)
      modifies this
      ensures r == Returned(old(Contents()), q)
      ensures Contents() == AfterCall(old(Contents()), q)
    {
      var lastTimestamp := q.firstNow - MISSING_AGE;
      if q.uri in stamps {
        lastTimestamp := stamps[q.uri];
      }
      if lastTimestamp + VALIDITY > q.now {
        var value, hit := Get(q.uri);
        if hit {
          return Ok(value);
        }
      }
      if q.answer.Error? {
        return Error;
      }
      values := values[q.uri := q.answer.value];
      stamps := stamps[q.uri := q.now];
      return q.answer;
    }
  }

  // ---------- Runs of calls ----------

  // A fetch that succeeded: for which queue, when, with which value.
  datatype Fetch = Fetch(uri: string, at: int, value: real)

  ghost function Logged(c: Cache, log: seq<Fetch>, q: Call): seq<Fetch> {
    if Fetches(c, q) then log + [Fetch(q.uri, q.now, q.answer.value)] else log
  }

  // The cache holds, for every queue, its latest fetch, and fetches for one
  // queue are at least the validity apart. No fetch is later than the clock.
  ghost predicate Faithful(c: Cache, log: seq<Fetch>, clock: int) {
    && c.values.Keys == c.stamps.Keys
    && (forall u | u in c.values :: Fetch(u, c.stamps[u], c.values[u]) in log)
    && (forall f | f in log :: f.uri in c.stamps && f.at <= c.stamps[f.uri] <= clock)
    && (forall i, j | 0 <= i < j < |log| && log[i].uri == log[j].uri :: log[i].at + VALIDITY <= log[j].at)
  }

  ghost predicate Timely(q: Call, clock: int) {
    clock <= q.firstNow <= q.now
  }

  // A fetch is at least the validity after every logged one for its queue.
  lemma FetchesKeepApart(c: Cache, log: seq<Fetch>, clock: int, q: Call)
    requires Faithful(c, log, clock) && Fetches(c, q)
    ensures forall f | f in log && f.uri == q.uri :: f.at + VALIDITY <= q.now
  {
  }

  lemma CallKeepsFaith(c: Cache, log: seq<Fetch>, clock: int, q: Call)
    requires Faithful(c, log, clock) && Timely(q, clock)
    ensures Faithful(AfterCall(c, q), Logged(c, log, q), q.now)
  {
    if Fetches(c, q) {
      var fetch := Fetch(q.uri, q.now, q.answer.value);
      var log' := log + [fetch];
      FetchesKeepApart(c, log, clock, q);
      assert fetch == log'[|log|];
      assert forall f :: f in log' <==> f in log || f == fetch;
      forall i, j | 0 <= i < j < |log'| && log'[i].uri == log'[j].uri
        ensures log'[i].at + VALIDITY <= log'[j].at
      {
        if j == |log| {
          assert log'[i] in log;
        }
      }
    }
  }

  // A value that comes back was fetched for the same queue, in this call or
  // less than the validity before it, and nothing newer was fetched since.
  lemma ReturnedIsFresh(c: Cache, log: seq<Fetch>, clock: int, q: Call)
    requires Faithful(c, log, clock) && Timely(q, clock) && Returned(c, q).Ok?
    ensures exists f | f in Logged(c, log, q) ::
              && f.uri == q.uri && f.value == Returned(c, q).value
              && q.now < f.at + VALIDITY
              && (forall g | g in Logged(c, log, q) && g.uri == q.uri :: g.at <= f.at)
  {
    if Hit(c, q) {
      assert Fetch(q.uri, c.stamps[q.uri], c.values[q.uri]) in log;
    } else {
      var f := Fetch(q.uri, q.now, q.answer.value);
      var log' := Logged(c, log, q);
      assert log'[|log|] == f;
      assert forall g | g in log' :: g in log || g == f;
    }
  }

  ghost function CacheAfter(calls: seq<Call>): Cache {
    if calls == [] then Cache(map[], map[])
    else AfterCall(CacheAfter(calls[..|calls| - 1]), calls[|calls| - 1])
  }

  ghost function LogAfter(calls: seq<Call>): seq<Fetch> {
    if calls == [] then []
    else
      var before := calls[..|calls| - 1];
      Logged(CacheAfter(before), LogAfter(before), calls[|calls| - 1])
  }

  // Calls one after the other, on a clock that never goes back.
  ghost predicate InOrder(calls: seq<Call>) {
    && (forall i | 0 <= i < |calls| :: calls[i].firstNow <= calls[i].now)
    && (forall i | 0 < i < |calls| :: calls[i - 1].now <= calls[i].firstNow)
  }

  lemma {:induction false} CallsKeepFaith(calls: seq<Call>, clock: int)
    requires InOrder(calls)
    requires calls != [] ==> clock == calls[|calls| - 1].now
    ensures Faithful(CacheAfter(calls), LogAfter(calls), clock)
  {
    if calls != [] {
      var n := |calls| - 1;
      var before, q := calls[..n], calls[n];
      var earlier := if n == 0 then q.firstNow else before[n - 1].now;
      CallsKeepFaith(before, earlier);
      CallKeepsFaith(CacheAfter(before), LogAfter(before), earlier, q);
    }
  }

  lemma InOrderPrefix(calls: seq<Call>, q: Call) returns (clock: int)
    requires InOrder(calls + [q])
    ensures InOrder(calls) && Timely(q, clock)
    ensures calls != [] ==> clock == calls[|calls| - 1].now
  {
    var n, all := |calls|, calls + [q];
    assert all[n] == q;
    assert forall i | 0 <= i < n :: calls[i] == all[i];
    clock := q.firstNow;
    if n > 0 {
      clock := calls[n - 1].now;
      assert all[n - 1].now <= all[n].firstNow;
    }
  }

  lemma Unroll(calls: seq<Call>, q: Call)
    ensures CacheAfter(calls + [q]) == AfterCall(CacheAfter(calls), q)
    ensures LogAfter(calls + [q]) == Logged(CacheAfter(calls), LogAfter(calls), q)
  {
    assert (calls + [q])[..|calls|] == calls;
  }

  // The cache refines asking the service each time, up to a minute's delay:
  // over any sequence of calls, on any number of queues, the value of the last
  // call is the latest one fetched for its queue and less than a minute old.
  lemma CacheIsFresh(calls: seq<Call>, q: Call)
    requires InOrder(calls + [q]) && Returned(CacheAfter(calls), q).Ok?
    ensures exists f | f in LogAfter(calls + [q]) ::
              && f.uri == q.uri && f.value == Returned(CacheAfter(calls), q).value
              && q.now < f.at + 60_000_000_000
              && (forall g | g in LogAfter(calls + [q]) && g.uri == q.uri :: g.at <= f.at)
  {
    var clock := InOrderPrefix(calls, q);
    CallsKeepFaith(calls, clock);
    ReturnedIsFresh(CacheAfter(calls), LogAfter(calls), clock, q);
    Unroll(calls, q);
  }

  // What a call returns, from the history alone: the value of a fetch for its
  // queue less than a minute ago, if there is one, and else what the service
  // answers. So it fails only if the service was asked and failed.
  lemma CacheAnswers(calls: seq<Call>, q: Call)
    requires InOrder(calls + [q])
    ensures forall f | f in LogAfter(calls) && f.uri == q.uri && q.now < f.at + 60_000_000_000 ::
              Returned(CacheAfter(calls), q) == Ok(f.value)
    ensures (forall f | f in LogAfter(calls) && f.uri == q.uri :: f.at + 60_000_000_000 <= q.now) ==>
              Returned(CacheAfter(calls), q) == q.answer
    ensures Returned(CacheAfter(calls), q).Error?
       <==> && q.answer.Error?
            && forall f | f in LogAfter(calls) && f.uri == q.uri :: f.at + 60_000_000_000 <= q.now
  {
    var c, log := CacheAfter(calls), LogAfter(calls);
    var clock := InOrderPrefix(calls, q);
    CallsKeepFaith(calls, clock);
    forall f | f in log && f.uri == q.uri && q.now < f.at + VALIDITY
      ensures Hit(c, q) && c.values[q.uri] == f.value
    {
      OnlyOneIsFresh(c, log, clock, f, q.now);
    }
    if Hit(c, q) {
      assert Fetch(q.uri, c.stamps[q.uri], c.values[q.uri]) in log;
    }
  }

  // A logged fetch that is still valid is the one the cache holds.
  lemma OnlyOneIsFresh(c: Cache, log: seq<Fetch>, clock: int, f: Fetch, now: int)
    requires Faithful(c, log, clock) && f in log && clock <= now < f.at + VALIDITY
    ensures f.uri in c.values && f == Fetch(f.uri, c.stamps[f.uri], c.values[f.uri])
  {
    var held := Fetch(f.uri, c.stamps[f.uri], c.values[f.uri]);
    var i :| 0 <= i < |log| && log[i] == f;
    assert held in log;
    var j :| 0 <= j < |log| && log[j] == held;
  }

  // Successful fetches for one queue are at least a minute apart.
  lemma FetchesAreSpaced(calls: seq<Call>, i: nat, j: nat)
    requires InOrder(calls) && i < j < |LogAfter(calls)|
    requires LogAfter(calls)[i].uri == LogAfter(calls)[j].uri
    ensures LogAfter(calls)[i].at + 60_000_000_000 <= LogAfter(calls)[j].at
  {
    CallsKeepFaith(calls, if calls == [] then 0 else calls[|calls| - 1].now);
  }

  // An error leaves the cache and the fetch history as they were.
  lemma ErrorsChangeNothing(calls: seq<Call>, q: Call)
    requires Returned(CacheAfter(calls), q).Error?
    ensures CacheAfter(calls + [q]) == CacheAfter(calls)
    ensures LogAfter(calls + [q]) == LogAfter(calls)
  {
    Unroll(calls, q);
  }
}
