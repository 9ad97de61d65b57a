/** `RandLFSR64` (OptaneStudy/src/memaccess.c): the 64-bit shift register that addresses the random
    kernels. */
module Lfsr {
  import opened Finite
  import opened Words

  /** rcx */
  const TAPS: bv64 := 0xd800000000000000

  /** shr; and $1; neg; and rcx; xor. */
  function Step(x: bv64): bv64 {
    (x >> 1) ^ ((-(x & 1)) & TAPS)
  }

  /** The top tap records the bit that was shifted out. */
  function Back(y: bv64): bv64 {
    if y >> 63 == 1 then ((y ^ TAPS) << 1) | 1 else y << 1
  }

  lemma BackStep(x: bv64)
    ensures Back(Step(x)) == x
  {
  }

  lemma StepOdd(z: bv64)
    requires z & 1 == 1
    ensures Step(z) == (z >> 1) ^ TAPS
  {
  }

  lemma StepEven(z: bv64)
    requires z & 1 == 0
    ensures Step(z) == z >> 1
  {
  }

  lemma ShiftBack(z: bv64)
    requires z >> 63 == 0
    ensures ((z << 1) | 1) & 1 == 1 && ((z << 1) | 1) >> 1 == z
    ensures (z << 1) & 1 == 0 && (z << 1) >> 1 == z
  {
  }

  lemma TopBit(y: bv64)
    ensures y >> 63 == 0 || y >> 63 == 1
    ensures y >> 63 == 1 ==> (y ^ TAPS) >> 63 == 0
    ensures (y ^ TAPS) ^ TAPS == y
  {
  }

  /** The step is a bijection of the 64-bit words: `Back` undoes it on either side. */
  lemma StepBack(y: bv64)
    ensures Step(Back(y)) == y
  {
    TopBit(y);
    if y >> 63 == 1 {
      ShiftBack(y ^ TAPS);
      StepOdd(((y ^ TAPS) << 1) | 1);
    } else {
      ShiftBack(y);
      StepEven(y << 1);
    }
  }

  /** It is linear over exclusive or. */
  lemma StepLinear(x: bv64, y: bv64)
    ensures Step(x ^ y) == Step(x) ^ Step(y)
  {
  }

  /** It fixes zero only, and only zero steps to zero. */
  lemma StepFixes(x: bv64)
    ensures Step(x) == x <==> x == 0
    ensures Step(x) == 0 <==> x == 0
  {
  }

  // ----- Orbits -----

  function State(seed: bv64, n: nat): bv64 {
    if n == 0 then seed else Step(State(seed, n - 1))
  }

  lemma {:induction false} StateAdds(seed: bv64, m: nat, n: nat)
    ensures State(State(seed, m), n) == State(seed, m + n)
  {
    hide Step;
    if n > 0 {
      StateAdds(seed, m, n - 1);
    }
  }

  lemma {:induction false} NeverZero(seed: bv64, n: nat)
    requires seed != 0
    ensures State(seed, n) != 0
  {
    hide Step;
    if n > 0 {
      NeverZero(seed, n - 1);
      StepFixes(State(seed, n - 1));
    }
  }

  lemma StepInjective(x: bv64, y: bv64)
    requires Step(x) == Step(y)
    ensures x == y
  {
    hide Step;
    BackStep(x);
    BackStep(y);
  }

  lemma {:induction false} Unwind(seed: bv64, i: nat, j: nat)
    requires i <= j && State(seed, i) == State(seed, j)
    ensures State(seed, j - i) == seed
  {
    hide Step;
    if i > 0 {
      StepInjective(State(seed, i - 1), State(seed, j - 1));
      Unwind(seed, i - 1, j - 1);
    }
  }

  const PERIOD_BOUND: nat := 0xffff_ffff_ffff_ffff

  /** The words from 1 up, numbered from 0 up. */
  function Number(x: bv64): (n: nat) {
    if Value(x) == 0 then 0 else Value(x) - 1
  }

  lemma NumberRange(x: bv64)
    ensures Number(x) < PERIOD_BOUND
  {
    ValueRange(x);
  }

  lemma NumberInjective(x: bv64, y: bv64)
    requires x != 0 && y != 0 && Number(x) == Number(y)
    ensures x == y
  {
    hide Value;
    ValuePositive(x);
    ValuePositive(y);
    ValueInjective(x, y);
  }

  lemma Repeating(seed: bv64, p: nat, n: nat)
    requires State(seed, p) == seed
    ensures State(seed, p + n) == State(seed, n)
  {
    StateAdds(seed, p, n);
  }

  /** From every non-zero seed the sequence of states is purely periodic: within 2^64 - 1 steps it is
      back at the seed, and from then on repeats. */
  lemma Periodic(seed: bv64) returns (p: nat)
    requires seed != 0
    ensures 1 <= p <= PERIOD_BOUND && State(seed, p) == seed
    ensures forall n: nat :: State(seed, p + n) == State(seed, n)
  {
    hide Step, State, Number;
    var numbers := seq(PERIOD_BOUND + 1, (n: nat) => Number(State(seed, n)));
    forall n | 0 <= n < |numbers|
      ensures numbers[n] < PERIOD_BOUND
    {
      NumberRange(State(seed, n));
    }
    var i, j := Repeats(numbers, PERIOD_BOUND);
    NeverZero(seed, i);
    NeverZero(seed, j);
    NumberInjective(State(seed, i), State(seed, j));
    Unwind(seed, i, j);
    p := j - i;
    forall n: nat
      ensures State(seed, p + n) == State(seed, n)
    {
      Repeating(seed, p, n);
    }
  }

  // ----- The recurrence -----

  /** The bit that step `n` shifts out. */
  function Out(seed: bv64, n: nat): bv64 {
    State(seed, n) & 1
  }

  lemma FirstStates(x: bv64)
    ensures State(x, 1) == Step(x) && State(x, 2) == Step(Step(x)) && State(x, 3) == Step(Step(Step(x)))
    ensures State(x, 4) == Step(Step(Step(Step(x)))) && State(x, 5) == Step(Step(Step(Step(Step(x)))))
  {
    hide Step;
    assert State(x, 0) == x;
    assert State(x, 1) == Step(x);
    assert State(x, 2) == Step(Step(x));
    assert State(x, 3) == Step(Step(Step(x)));
  }

  /** Below the taps the bits only move down. */
  lemma FallsOne(x: bv64)
    ensures (Step(x) ^ (x >> 1)) & 0x7ff_ffff_ffff_ffff == 0
  {
  }

  lemma FallsFour(x: bv64)
    ensures (State(x, 4) ^ (x >> 4)) & 0xff_ffff_ffff_ffff == 0
    ensures (State(x, 3) & 1) == (x >> 3) & 1
  {
    FirstStates(x);
    FourDown(x, Step(x), Step(Step(x)), Step(Step(Step(x))), Step(Step(Step(Step(x)))));
  }

  lemma FourDown(x: bv64, a: bv64, b: bv64, c: bv64, d: bv64)
    requires a == Step(x) && b == Step(a) && c == Step(b) && d == Step(c)
    ensures (d ^ (x >> 4)) & 0xff_ffff_ffff_ffff == 0
    ensures c & 1 == (x >> 3) & 1
  {
  }

  lemma FallsEight(x: bv64)
    ensures (State(x, 8) ^ (x >> 8)) & 0xf_ffff_ffff_ffff == 0
  {
    hide Step, State;
    FallsFour(x);
    FallsFour(State(x, 4));
    StateAdds(x, 4, 4);
  }

  lemma FallsBy16(x: bv64)
    ensures (State(x, 16) ^ (x >> 16)) & 0xfff_ffff_ffff == 0
  {
    hide Step, State;
    FallsEight(x);
    FallsEight(State(x, 8));
    StateAdds(x, 8, 8);
  }

  /** The lowest tap reaches the bottom after 59 steps. */
  lemma FallsFar(x: bv64)
    ensures Out(x, 59) == (x >> 59) & 1
  {
    hide Step, State;
    var a, b, c := State(x, 16), State(x, 32), State(x, 48);
    var d := State(x, 56);
    FallsBy16(x);
    FallsBy16(a);
    FallsBy16(b);
    FallsEight(c);
    FallsFour(d);
    StateAdds(x, 16, 16);
    StateAdds(x, 32, 16);
    StateAdds(x, 48, 8);
    StateAdds(x, 56, 3);
  }

  lemma FiveSteps(x: bv64, a: bv64, b: bv64, c: bv64, d: bv64, e: bv64)
    requires a == Step(x) && b == Step(a) && c == Step(b) && d == Step(c) && e == Step(d)
    ensures (e >> 59) & 1 == (x & 1) ^ (a & 1) ^ (c & 1) ^ (d & 1)
  {
  }

  /** The bits shifted out obey the recurrence of x^64 + x^4 + x^3 + x + 1, the taps 0xd800000000000000
      read from below. */
  lemma Recurrence(seed: bv64, n: nat)
    ensures Out(seed, n + 64) == Out(seed, n) ^ Out(seed, n + 1) ^ Out(seed, n + 3) ^ Out(seed, n + 4)
  {
    hide Step, State;
    var x := State(seed, n);
    FirstStates(x);
    FiveSteps(x, State(x, 1), State(x, 2), State(x, 3), State(x, 4), State(x, 5));
    FallsFar(State(x, 5));
    StateAdds(x, 5, 59);
    StateAdds(seed, n, 1);
    StateAdds(seed, n, 3);
    StateAdds(seed, n, 4);
    StateAdds(seed, n, 64);
  }
}
