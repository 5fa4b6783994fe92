/**
 Counting scale downs, and the pods they remove, in a window of time. A log
 holds what each event of a run did; nothing here knows how it was computed.
 */
module ScaleLogs {
  import opened Orbits
  import opened ScaleOperations

  // One event: its operation, when it was decided, the counts around it.
  datatype Entry = Entry(op: ScaleOperation, decidedAt: int, before: int, after: int)

  ghost predicate DownIn(e: Entry, from: int, to: int) {
    e.op == ScaleDown && from <= e.decidedAt <= to
  }

  // Any two scale downs are more than the delay apart.
  ghost predicate CooledOff(log: seq<Entry>, delay: int) {
    forall i, j | 0 <= i < j < |log| && log[i].op == ScaleDown && log[j].op == ScaleDown ::
      log[i].decidedAt + delay < log[j].decidedAt
  }

  // Every scale down removes at most the limit.
  ghost predicate WithinLimit(log: seq<Entry>, limit: int) {
    forall i | 0 <= i < |log| && log[i].op == ScaleDown :: log[i].before - log[i].after <= limit
  }

  // How many scale downs were decided in [from, to].
  ghost function Downs(log: seq<Entry>, from: int, to: int): nat {
    if log == [] then 0
    else
      var n := |log| - 1;
      Downs(log[..n], from, to) + (if DownIn(log[n], from, to) then 1 else 0)
  }

  // The pods they removed.
  ghost function Removed(log: seq<Entry>, from: int, to: int): int {
    if log == [] then 0
    else
      var n := |log| - 1;
      Removed(log[..n], from, to) + (if DownIn(log[n], from, to) then log[n].before - log[n].after else 0)
  }

  lemma {:induction false} DownsAreSpread(log: seq<Entry>, delay: nat, from: int, to: int) returns (last: nat)
    requires CooledOff(log, delay) && Downs(log, from, to) > 0
    ensures last < |log| && DownIn(log[last], from, to)
    ensures (Downs(log, from, to) - 1) * delay <= log[last].decidedAt - from
  {
    var n := |log| - 1;
    var earlier := log[..n];
    if !DownIn(log[n], from, to) {
      last := DownsAreSpread(earlier, delay, from, to);
    } else {
      last := n;
      if Downs(earlier, from, to) > 0 {
        var previous := DownsAreSpread(earlier, delay, from, to);
        assert log[previous].decidedAt + delay < log[n].decidedAt;
        assert Downs(earlier, from, to) * delay == (Downs(earlier, from, to) - 1) * delay + delay;
      }
    }
  }

  // n scale downs in a window need (n - 1) delays of time.
  lemma WindowHoldsFewDowns(log: seq<Entry>, delay: nat, from: int, to: int)
    requires CooledOff(log, delay) && from <= to
    ensures (Downs(log, from, to) - 1) * delay <= to - from
  {
    if Downs(log, from, to) > 0 {
      var last := DownsAreSpread(log, delay, from, to);
    }
  }

  lemma {:induction false} RemovedPerDown(log: seq<Entry>, limit: int, from: int, to: int)
    requires WithinLimit(log, limit)
    ensures Removed(log, from, to) <= limit * Downs(log, from, to)
  {
    if log != [] {
      var n := |log| - 1;
      RemovedPerDown(log[..n], limit, from, to);
      assert limit * (Downs(log[..n], from, to) + 1) == limit * Downs(log[..n], from, to) + limit;
    }
  }

  // One limit, plus one more for each whole delay that fits into the window.
  lemma WindowBudget(log: seq<Entry>, limit: nat, delay: nat, from: int, to: int)
    requires CooledOff(log, delay) && WithinLimit(log, limit) && delay > 0 && from <= to
    ensures Removed(log, from, to) <= limit * (1 + (to - from) / delay)
  {
    var n := Downs(log, from, to);
    RemovedPerDown(log, limit, from, to);
    WindowHoldsFewDowns(log, delay, from, to);
    Quotient(n, delay, to - from);
    MulMonotone(limit, n, 1 + (to - from) / delay);
  }

  lemma Quotient(n: nat, d: nat, window: nat)
    requires d > 0 && (n - 1) * d <= window
    ensures n <= 1 + window / d
  {
    if n > 1 + window / d {
      MulMonotone(d, window / d + 1, n - 1);
    }
  }

  // ---------- Logs that follow an orbit ----------

  // How many events scaled.
  ghost function Actions(log: seq<Entry>): nat {
    if log == [] then 0
    else
      var n := |log| - 1;
      Actions(log[..n]) + (if log[n].op == ScaleNoop then 0 else 1)
  }

  // Each event starts from the count the previous one left, and either leaves
  // it or applies the step to it.
  ghost predicate Steps(log: seq<Entry>, step: int -> int, start: int) {
    && (log != [] ==> log[0].before == start)
    && (forall i | 0 < i < |log| :: log[i].before == log[i - 1].after)
    && (forall i | 0 <= i < |log| ::
          log[i].after == if log[i].op == ScaleNoop then log[i].before else step(log[i].before))
  }

  lemma {:induction false} StepsFollowOrbit(log: seq<Entry>, step: int -> int, start: int)
    requires Steps(log, step, start)
    ensures log != [] ==> log[|log| - 1].after == Orbit(step, start, Actions(log))
  {
    if log != [] {
      var n := |log| - 1;
      StepsFollowOrbit(log[..n], step, start);
      assert log[n].before == Orbit(step, start, Actions(log[..n]));
    }
  }

  lemma {:induction false} ActionsGrow(log: seq<Entry>, i: nat)
    requires i <= |log|
    ensures Actions(log[..i]) <= Actions(log)
  {
    if i < |log| {
      var n := |log| - 1;
      ActionsGrow(log[..n], i);
      assert log[..n][..i] == log[..i];
    } else {
      assert log[..i] == log;
    }
  }
}
