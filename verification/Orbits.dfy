/**
 Iterating a step on counts. Nothing here knows the replica calculator; the
 lemmas say what follows, over a whole orbit, from a property of single steps.
 */
module Orbits {

  ghost function Orbit(step: int -> int, start: int, n: nat): int {
    if n == 0 then start else step(Orbit(step, start, n - 1))
  }

  ghost predicate Settled(step: int -> int, c: int) {
    step(c) == c
  }

  // At c the step stays among the naturals, settles when it goes up, and is
  // not followed by an upward step when it does not.
  ghost predicate SettlesAt(step: int -> int, c: int) {
    && step(c) >= 0
    && (step(c) > c ==> Settled(step, step(c)))
    && (step(c) <= c ==> step(step(c)) <= step(c))
  }

  ghost predicate SettlesEverywhere(step: int -> int) {
    forall c | c >= 0 :: SettlesAt(step, c)
  }

  lemma {:induction false} OrbitIsNatural(step: int -> int, start: int, n: nat)
    requires SettlesEverywhere(step) && start >= 0
    ensures Orbit(step, start, n) >= 0
  {
    if n > 0 {
      OrbitIsNatural(step, start, n - 1);
      assert SettlesAt(step, Orbit(step, start, n - 1));
    }
  }

  // From the first step on, no orbit state is followed by a larger one.
  lemma OrbitDescends(step: int -> int, start: int, n: nat)
    requires SettlesEverywhere(step) && start >= 0
    requires n >= 1 || step(start) <= start
    ensures Orbit(step, start, n + 1) <= Orbit(step, start, n)
  {
    if n > 0 {
      OrbitIsNatural(step, start, n - 1);
      assert SettlesAt(step, Orbit(step, start, n - 1));
    }
  }

  lemma {:induction false} SettledForGood(step: int -> int, start: int, m: nat, n: nat)
    requires m <= n && Settled(step, Orbit(step, start, m))
    ensures Orbit(step, start, n) == Orbit(step, start, m)
  {
    if m < n {
      SettledForGood(step, start, m, n - 1);
    }
  }

  // An orbit never reverses. Either it jumps up once and stays there ...
  lemma JumpsOnce(step: int -> int, start: int, n: nat)
    requires SettlesEverywhere(step) && start >= 0 && n >= 1
    requires step(start) > start
    ensures Orbit(step, start, n) == step(start)
  {
    assert SettlesAt(step, start);
    assert Orbit(step, start, 1) == step(Orbit(step, start, 0));
    SettledForGood(step, start, 1, n);
  }

  // ... or it never goes up.
  lemma {:induction false} NeverRises(step: int -> int, start: int, m: nat, n: nat)
    requires SettlesEverywhere(step) && start >= 0 && m <= n
    requires step(start) <= start
    ensures Orbit(step, start, n) <= Orbit(step, start, m)
  {
    if m < n {
      NeverRises(step, start, m, n - 1);
      OrbitDescends(step, start, n - 1);
    }
  }

  // A state that has not settled has lost at least one worker per step.
  lemma {:induction false} UnsettledLosesWorkers(step: int -> int, start: int, n: nat)
    requires SettlesEverywhere(step) && start >= 0 && n >= 1
    requires !Settled(step, Orbit(step, start, n))
    ensures Orbit(step, start, n) <= start - n
  {
    var before := Orbit(step, start, n - 1);
    OrbitIsNatural(step, start, n - 1);
    assert SettlesAt(step, before);
    if n >= 2 {
      UnsettledLosesWorkers(step, start, n - 1);
    }
  }

  lemma SettlesInTime(step: int -> int, start: int, n: nat)
    requires SettlesEverywhere(step) && start >= 0
    requires n >= 1 && n >= start
    ensures Settled(step, Orbit(step, start, n))
  {
    if !Settled(step, Orbit(step, start, n)) {
      UnsettledLosesWorkers(step, start, n);
      OrbitIsNatural(step, start, n);
      OrbitIsNatural(step, start, n + 1);
      OrbitDescends(step, start, n);
    }
  }

  // ---------- Descent by a fixed amount ----------

  // At c the step either reaches a fixed point or removes at least d.
  ghost predicate DropsAt(step: int -> int, d: nat, c: int) {
    Settled(step, step(c)) || step(c) <= c - d
  }

  ghost predicate DropsEverywhere(step: int -> int, d: nat) {
    forall c | c >= 0 :: DropsAt(step, d, c)
  }

  lemma {:induction false} LinearDescent(step: int -> int, d: nat, start: int, n: nat)
    requires SettlesEverywhere(step) && DropsEverywhere(step, d) && start >= 0
    requires !Settled(step, Orbit(step, start, n))
    ensures Orbit(step, start, n) <= start - n * d
  {
    if n > 0 {
      LinearDescent(step, d, start, n - 1);
      OrbitIsNatural(step, start, n - 1);
      assert DropsAt(step, d, Orbit(step, start, n - 1));
      assert n * d == (n - 1) * d + d;
    }
  }

  lemma SettlesInLinearTime(step: int -> int, d: nat, start: int, n: nat)
    requires SettlesEverywhere(step) && DropsEverywhere(step, d) && start >= 0
    requires n >= 1 && n * d >= start
    ensures Settled(step, Orbit(step, start, n))
  {
    if !Settled(step, Orbit(step, start, n)) {
      LinearDescent(step, d, start, n);
      OrbitIsNatural(step, start, n);
      OrbitIsNatural(step, start, n + 1);
      OrbitDescends(step, start, n);
    }
  }

  // ---------- Geometric descent ----------

  function Pow(b: nat, n: nat): nat {
    if n == 0 then 1 else b * Pow(b, n - 1)
  }

  // At c the step either reaches a fixed point or leaves at most r percent.
  ghost predicate ShrinksAt(step: int -> int, r: nat, c: int) {
    Settled(step, step(c)) || 100 * step(c) <= r * c
  }

  ghost predicate ShrinksEverywhere(step: int -> int, r: nat) {
    forall c | c >= 0 :: ShrinksAt(step, r, c)
  }

  lemma MulMonotone(k: nat, a: int, b: int)
    requires a <= b
    ensures k * a <= k * b
  {
  }

  lemma GeometricStep(P: nat, Q: nat, r: nat, before: int, after: int, start: int)
    requires P * before <= Q * start && 100 * after <= r * before
    ensures (100 * P) * after <= (r * Q) * start
  {
    MulMonotone(P, 100 * after, r * before);
    MulMonotone(r, P * before, Q * start);
    assert (100 * P) * after == P * (100 * after);
    assert P * (r * before) == r * (P * before);
    assert (r * Q) * start == r * (Q * start);
  }

  lemma {:induction false} GeometricDescent(step: int -> int, r: nat, start: int, n: nat)
    requires SettlesEverywhere(step) && ShrinksEverywhere(step, r) && start >= 0
    requires !Settled(step, Orbit(step, start, n))
    ensures Pow(100, n) * Orbit(step, start, n) <= Pow(r, n) * start
  {
    if n > 0 {
      var before, after := Orbit(step, start, n - 1), Orbit(step, start, n);
      GeometricDescent(step, r, start, n - 1);
      OrbitIsNatural(step, start, n - 1);
      assert ShrinksAt(step, r, before);
      GeometricStep(Pow(100, n - 1), Pow(r, n - 1), r, before, after, start);
    }
  }

  lemma SettlesInLogarithmicTime(step: int -> int, r: nat, start: int, n: nat)
    requires SettlesEverywhere(step) && ShrinksEverywhere(step, r) && start >= 0
    requires n >= 1 && Pow(100, n) > Pow(r, n) * start
    ensures Settled(step, Orbit(step, start, n))
  {
    var c := Orbit(step, start, n);
    if !Settled(step, c) {
      GeometricDescent(step, r, start, n);
      OrbitDescends(step, start, n);
      OrbitIsNatural(step, start, n + 1);
      assert c >= 1;
      MulMonotone(Pow(100, n), 1, c);
      assert false;
    }
  }
}
