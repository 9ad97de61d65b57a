/** Every counted loop of the kernels tests its bound at the bottom, so it runs at least once. */
module Loops {

  /** How often a loop runs whose counter starts at 0, grows by `step` in the body, and repeats while
      it is below `limit`. */
  function Trips(limit: int, step: nat): (n: nat)
    requires step > 0
    ensures n >= 1
  {
    if limit <= step then 1 else (limit + step - 1) / step
  }

  lemma Scale(k: nat, a: int, b: int)
    ensures a <= b ==> k * a <= k * b
  {
  }

  /** `Trips` is the least positive number of steps that reaches the limit. */
  lemma TripsBounds(limit: int, step: nat)
    requires step > 0
    ensures step * Trips(limit, step) >= limit
    ensures Trips(limit, step) == 1 || step * (Trips(limit, step) - 1) < limit
  {
    if limit > step {
      var q, r := (limit + step - 1) / step, (limit + step - 1) % step;
      assert limit + step - 1 == step * q + r;
      assert step * (q - 1) == step * q - step;
    }
  }

  /** While the test succeeds after `n` rounds, at least one more round is due. */
  lemma TripsAgain(limit: int, step: nat, n: nat)
    requires step > 0 && step * n < limit
    ensures n < Trips(limit, step)
  {
    TripsBounds(limit, step);
    Scale(step, Trips(limit, step), n);
  }

  /** When the test first fails after `n` rounds, `n` is the trip count. */
  lemma TripsExit(limit: int, step: nat, n: nat)
    requires step > 0 && 1 <= n <= Trips(limit, step)
    requires step * n >= limit
    ensures n == Trips(limit, step)
  {
    TripsBounds(limit, step);
    Scale(step, n, Trips(limit, step) - 1);
  }

  /** `Trips` is the only such number. */
  lemma LeastTrips(limit: int, step: nat, n: nat)
    requires step > 0 && n >= 1
    requires step * n >= limit && (n == 1 || step * (n - 1) < limit)
    ensures n == Trips(limit, step)
  {
    TripsBounds(limit, step);
    var k := Trips(limit, step);
    Scale(step, n, k - 1);
    Scale(step, k, n - 1);
  }

  /** The bottom test after `n` rounds, one of the due ones: it succeeds exactly when more are due. */
  lemma LoopTest(limit: int, step: nat, n: nat)
    requires step > 0 && 1 <= n <= Trips(limit, step)
    ensures if step * n < limit then n < Trips(limit, step) else n == Trips(limit, step)
  {
    if step * n < limit {
      TripsAgain(limit, step, n);
    } else {
      TripsExit(limit, step, n);
    }
  }

  lemma MultipleMod(k: nat, n: nat)
    requires n > 0
    ensures (k * n) % n == 0
  {
    var q, r := k * n / n, k * n % n;
    assert k * n == n * q + r;
    assert r == n * (k - q);
    Scale(n, 1, k - q);
    Scale(n, k - q, -1);
  }

  // ----- Loops whose step is itself the size of an inner loop -----

  /** The product `k * n`, by repeated addition. */
  function Times(k: nat, n: nat): nat {
    if k == 0 then 0 else Times(k - 1, n) + n
  }

  lemma TimesNext(k: nat, n: nat)
    ensures Times(0, n) == 0 && Times(k + 1, n) == Times(k, n) + n
  {
  }

  lemma {:induction false} TimesIsProduct(k: nat, n: nat)
    ensures Times(k, n) == k * n
  {
    if k > 0 {
      TimesIsProduct(k - 1, n);
      assert k * n == (k - 1) * n + n;
    }
  }

  /** `k` rounds of `n` lines, in bytes. */
  lemma RoundBytes(k: nat, n: nat)
    ensures (64 * n) * k == 64 * Times(k, n)
  {
    TimesIsProduct(k, n);
    assert (64 * n) * k == 64 * (k * n);
  }

  lemma {:induction false} TimesGrows(j: nat, k: nat, n: nat)
    requires j <= k
    ensures Times(j, n) <= Times(k, n)
  {
    if j < k {
      TimesGrows(j, k - 1, n);
    }
  }

  ghost predicate Multiple(x: nat, n: nat) {
    exists k: nat :: x == Times(k, n)
  }

  lemma NextMultipleIsFar(x: nat, y: nat, n: nat)
    requires Multiple(x, n) && Multiple(y, n) && x < y
    ensures x + n <= y
  {
    var j: nat, k: nat :| x == Times(j, n) && y == Times(k, n);
    if k <= j {
      TimesGrows(k, j, n);
    } else {
      TimesGrows(j + 1, k, n);
    }
  }

  lemma {:induction false} TimesAdds(j: nat, k: nat, n: nat)
    ensures Times(j + k, n) == Times(j, n) + Times(k, n)
  {
    if k > 0 {
      TimesAdds(j, k - 1, n);
    }
  }

  lemma {:induction false} TimesOfMultiple(j: nat, x: nat, n: nat)
    requires Multiple(x, n)
    ensures Multiple(Times(j, x), n)
  {
    if j == 0 {
      assert 0 == Times(0, n);
    } else {
      TimesOfMultiple(j - 1, x, n);
      var p: nat, q: nat :| Times(j - 1, x) == Times(p, n) && x == Times(q, n);
      TimesAdds(p, q, n);
    }
  }

  lemma MultipleThrough(x: nat, y: nat, n: nat)
    requires Multiple(x, y) && Multiple(y, n)
    ensures Multiple(x, n)
  {
    var j: nat :| x == Times(j, y);
    TimesOfMultiple(j, y, n);
  }

  lemma NextMultiple(x: nat, n: nat)
    requires Multiple(x, n)
    ensures Multiple(x + n, n)
  {
    var k: nat :| x == Times(k, n);
    assert x + n == Times(k + 1, n);
  }

  /** The bottom test of a loop that writes `n` lines of 64 bytes a round. */
  lemma RoundDone(limit: int, n: nat, k: nat)
    requires n > 0 && 1 <= k <= Trips(limit, 64 * n)
    ensures if 64 * Times(k, n) < limit then k < Trips(limit, 64 * n) else k == Trips(limit, 64 * n)
  {
    hide Trips, Times;
    RoundBytes(k, n);
    LoopTest(limit, 64 * n, k);
  }

  // ----- Blocks at a fixed stride -----

  /** Address of block `k`. */
  function Base(start: int, skip: int, k: nat): int {
    if k == 0 then start else Base(start, skip, k - 1) + skip
  }

  lemma {:induction false} BaseIs(start: int, skip: int, k: nat)
    ensures Base(start, skip, k) == start + k * skip
  {
    if k > 0 {
      BaseIs(start, skip, k - 1);
      assert k * skip == (k - 1) * skip + skip;
    }
  }

  lemma BaseApart(start: int, skip: int, i: nat, k: nat)
    requires i != k
    ensures Base(start, skip, i) - Base(start, skip, k) >= skip || Base(start, skip, i) - Base(start, skip, k) <= -skip
    ensures Base(start, skip, i) - Base(start, skip, k) >= -skip || Base(start, skip, i) - Base(start, skip, k) <= skip
  {
    BaseIs(start, skip, i);
    BaseIs(start, skip, k);
    assert i * skip - k * skip == (i - k) * skip;
    if i > k {
      assert (i - k) * skip == (i - k - 1) * skip + skip;
    } else {
      assert (k - i) * skip == (k - i - 1) * skip + skip;
    }
  }
}
