/** The threads of pm_study/microbenchmark/lat.cpp: `run` cuts the working set into one slice per
    thread, and the workers build and chase their rings in the one memory at the same time. */
module LatThreads {
  import opened PtrRing
  import opened Words

  // ----- The slices -----

  /** Units in the slice of each thread. */
  function UnitsEach(wss: nat, threads: nat): nat
    requires threads > 0
  {
    wss / threads / 256
  }

  /** ROUND_DOWN by a power of two clears the low bits; on 256 that is rounding to whole units. */
  lemma RoundDownBits(x: bv64)
    ensures x & !(256 - 1) == x / 256 * 256
    ensures (x & !(256 - 1)) >> 8 == x >> 8 && (x & !(256 - 1)) & 255 == 0
  {
  }

  /** First word of a slice. */
  function SliceBase(addr: nat, wss: nat, threads: nat, tid: nat): nat
    requires threads > 0
  {
    addr + tid * (UnitsEach(wss, threads) * UNIT)
  }

  lemma MulGrows(a: nat, b: nat, k: nat)
    ensures a <= b ==> a * k <= b * k
    ensures (a + 1) * k == a * k + k
  {
  }

  /** The slice of a thread is ROUND_DOWN(wss / threads, 256) bytes. */
  lemma SliceBytes(wss: nat, threads: nat, quotient: bv64)
    requires threads > 0 && Value(quotient) == wss / threads
    ensures Value(quotient & !(256 - 1)) == 256 * UnitsEach(wss, threads)
  {
    hide Value;
    RoundDownBits(quotient);
    LowByte(quotient);
    LowByte(quotient & !(256 - 1));
  }

  /** The slices use up the working set: a unit more for every thread would not fit. */
  lemma SlicesFill(wss: nat, threads: nat)
    requires threads > 0
    ensures 256 * UnitsEach(wss, threads) <= wss / threads < 256 * (UnitsEach(wss, threads) + 1)
    ensures 256 * threads * UnitsEach(wss, threads) <= wss < 256 * threads * (UnitsEach(wss, threads) + 1)
  {
    var u, q := UnitsEach(wss, threads), wss / threads;
    Quotient(wss, threads);
    MulGrows(256 * u, q, threads);
    MulGrows(q + 1, 256 * (u + 1), threads);
    assert 256 * u * threads == 256 * threads * u;
    assert 256 * (u + 1) * threads == 256 * threads * (u + 1);
  }

  /** The slices lie one after the other inside the working set, and each holds a unit exactly when the
      working set has one for every thread. */
  lemma SlicesFit(addr: nat, wss: nat, threads: nat, tid: nat)
    requires tid < threads
    ensures SliceBase(addr, wss, threads, tid + 1) ==
            SliceBase(addr, wss, threads, tid) + UNIT * UnitsEach(wss, threads)
    ensures SliceBase(addr, wss, threads, 0) == addr
    ensures 8 * (SliceBase(addr, wss, threads, tid + 1) - addr) <= wss
    ensures UnitsEach(wss, threads) >= 1 <==> wss >= 256 * threads
  {
    var q, k := wss / threads, UnitsEach(wss, threads) * UNIT;
    Quotient(wss, threads);
    MulGrows(tid, tid, k);
    MulGrows(tid + 1, threads, k);
    MulGrows(8 * k, q, threads);
    Eightfold(threads, k);
    MulGrows(q + 1, 256, threads);
    MulGrows(256, q, threads);
  }

  lemma Quotient(x: nat, n: nat)
    requires n > 0
    ensures x / n * n <= x < (x / n + 1) * n
  {
  }

  lemma Eightfold(n: nat, k: nat)
    ensures 8 * (n * k) == (8 * k) * n
  {
  }

  // ----- One step of one worker is local to its slice -----

  ghost predicate SameSlice(w: Work, m: seq<nat>, m': seq<nat>) {
    |m| == |m'| && forall a :: w.base <= a < w.End() ==> Get(m, a) == Get(m', a)
  }

  lemma InvLocal(w: Work, th: Thread, mem: seq<nat>)
    requires w.Valid() && Inv(w, th) && SameSlice(w, th.mem, mem)
    ensures Inv(w, th.(mem := mem))
  {
    forall i | 0 <= i < |w.order|
      ensures Linked(w, th.mem, i) <==> Linked(w, mem, i)
    {
      UnitsApart(w, i, i);
    }
  }

  lemma TouchLocal(w: Work, m: seq<nat>, m': seq<nat>, k: nat)
    requires w.Valid() && k < |w.order| && SameSlice(w, m, m')
    ensures SameSlice(w, Touch(m, w.At(k) + PAD15, w.wr), Touch(m', w.At(k) + PAD15, w.wr))
  {
    UnitsApart(w, k, k);
    var t, t' := Touch(m, w.At(k) + PAD15, w.wr), Touch(m', w.At(k) + PAD15, w.wr);
    forall x | w.base <= x < w.End()
      ensures Get(t, x) == Get(t', x)
    {
      assert Get(m, x) == Get(m', x);
    }
  }

  lemma SetLocal(w: Work, m: seq<nat>, m': seq<nat>, a: nat, v: nat)
    requires SameSlice(w, m, m')
    ensures SameSlice(w, Set(m, a, v), Set(m', a, v))
  {
    forall x | w.base <= x < w.End()
      ensures Get(Set(m, a, v), x) == Get(Set(m', a, v), x)
    {
      assert Get(m, x) == Get(m', x);
    }
  }

  /** The step depends on nothing outside the slice. */
  lemma StepLocal(w: Work, th: Thread, mem: seq<nat>)
    requires w.Valid() && Inv(w, th) && SameSlice(w, th.mem, mem)
    ensures Step(w, th.(mem := mem)) == Step(w, th).(mem := Step(w, th.(mem := mem)).mem)
    ensures SameSlice(w, Step(w, th).mem, Step(w, th.(mem := mem)).mem)
  {
    hide Touch, Set, Get;
    var n := |w.order|;
    match th.pc
    case Build(i) =>
      SetLocal(w, th.mem, mem, w.At(i - 1), w.At(w.Next(i - 1)));
    case Lap(t) =>
      if t < |w.draws| {
        assert w.base <= w.Unit(w.Start(t)) < w.End();
      }
    case Chase(_, start, p) =>
      var k :| 0 <= k < n && p == w.At(k);
      TouchLocal(w, th.mem, mem, k);
    case Hop(_, start, p) =>
      var k :| 0 <= k < n && p == w.At(k);
      UnitsApart(w, k, k);
    case Done =>
  }

  /** And it changes nothing outside the slice. */
  lemma StepFrame(w: Work, th: Thread, a: nat)
    requires w.Valid() && Inv(w, th) && (a < w.base || w.End() <= a)
    ensures Get(Step(w, th).mem, a) == Get(th.mem, a)
  {
    var n := |w.order|;
    match th.pc
    case Build(i) =>
      UnitsApart(w, i - 1, i - 1);
    case Chase(_, start, p) =>
      var k :| 0 <= k < n && p == w.At(k);
      UnitsApart(w, k, k);
      TouchWithin(th.mem, p + PAD15, w.wr);
    case _ =>
  }

  // ----- All the workers -----

  /** The workers' own states, and the memory they share. */
  datatype Crew = Crew(pcs: seq<Pc>, logs: seq<seq<nat>>, mem: seq<nat>)

  function View(g: Crew, tid: nat): Thread
    requires tid < |g.pcs| == |g.logs|
  {
    Thread(g.pcs[tid], g.logs[tid], g.mem)
  }

  /** Run the steps that the schedule dictates, thread by thread. */
  function RunCrew(works: seq<Work>, mem: seq<nat>, sched: seq<nat>): (g: Crew)
    requires forall i :: 0 <= i < |works| ==> works[i].order != []
    requires forall i :: 0 <= i < |sched| ==> sched[i] < |works|
    ensures |g.pcs| == |g.logs| == |works| && |g.mem| == |mem|
  {
    if sched == [] then Crew(seq(|works|, _ => Build(1)), seq(|works|, _ => []), mem)
    else
      var g, tid := RunCrew(works, mem, sched[..|sched| - 1]), sched[|sched| - 1];
      var th := Step(works[tid], View(g, tid));
      Crew(g.pcs[tid := th.pc], g.logs[tid := th.log], th.mem)
  }

  /** How often the schedule picks a thread. */
  function Turns(sched: seq<nat>, tid: nat): nat {
    if sched == [] then 0 else Turns(sched[..|sched| - 1], tid) + if sched[|sched| - 1] == tid then 1 else 0
  }

  lemma {:induction false} TurnsCount(sched: seq<nat>, tid: nat)
    ensures Turns(sched, tid) == multiset(sched)[tid]
  {
    if sched != [] {
      TurnsCount(sched[..|sched| - 1], tid);
      assert sched == sched[..|sched| - 1] + [sched[|sched| - 1]];
    }
  }

  ghost predicate Sliced(works: seq<Work>, mem: seq<nat>) {
    && (forall i :: 0 <= i < |works| ==> works[i].Valid() && works[i].End() <= |mem|)
    && (forall i, j :: 0 <= i < j < |works| ==> works[i].End() <= works[j].base || works[j].End() <= works[i].base)
  }

  /** The thread is where it would be on its own after as many steps, and so is its slice. */
  ghost predicate AsAlone(works: seq<Work>, mem: seq<nat>, sched: seq<nat>, tid: nat)
    requires Sliced(works, mem) && tid < |works|
    requires forall i :: 0 <= i < |sched| ==> sched[i] < |works|
  {
    var g, th := RunCrew(works, mem, sched), Solo(works[tid], mem, Turns(sched, tid));
    View(g, tid) == th.(mem := g.mem) && SameSlice(works[tid], th.mem, g.mem)
  }

  /** One more step, by thread `s`, leaves every thread as it would be alone. */
  lemma OneMoreStep(works: seq<Work>, mem: seq<nat>, sched: seq<nat>, s: nat, tid: nat)
    requires Sliced(works, mem) && tid < |works| && s < |works|
    requires forall i :: 0 <= i < |sched| ==> sched[i] < |works|
    requires AsAlone(works, mem, sched, tid) && AsAlone(works, mem, sched, s)
    ensures AsAlone(works, mem, sched + [s], tid)
  {
    hide Step, Inv, SameSlice;
    var g := RunCrew(works, mem, sched);
    assert (sched + [s])[..|sched|] == sched;
    var k := Turns(sched, s);
    SoloInv(works[s], mem, k);
    if s == tid {
      StepLocal(works[s], Solo(works[s], mem, k), g.mem);
    } else {
      InvLocal(works[s], Solo(works[s], mem, k), g.mem);
      OthersSlice(works[s], View(g, s), works[tid], Solo(works[tid], mem, Turns(sched, tid)).mem);
    }
  }

  lemma OthersSlice(w: Work, th: Thread, other: Work, mem: seq<nat>)
    requires w.Valid() && Inv(w, th) && SameSlice(other, mem, th.mem)
    requires w.End() <= other.base || other.End() <= w.base
    ensures SameSlice(other, mem, Step(w, th).mem)
  {
    forall a | other.base <= a < other.End()
      ensures Get(mem, a) == Get(Step(w, th).mem, a)
    {
      StepFrame(w, th, a);
    }
  }

  /** Non-interference: under every schedule, each worker passes the same units in the same order and
      leaves its slice as it would alone with the same shuffle and draws. */
  lemma {:induction false} NonInterference(works: seq<Work>, mem: seq<nat>, sched: seq<nat>, tid: nat)
    requires Sliced(works, mem) && tid < |works|
    requires forall i :: 0 <= i < |sched| ==> sched[i] < |works|
    ensures AsAlone(works, mem, sched, tid)
    decreases |sched|
  {
    if sched != [] {
      var rest, s := sched[..|sched| - 1], sched[|sched| - 1];
      NonInterference(works, mem, rest, tid);
      NonInterference(works, mem, rest, s);
      OneMoreStep(works, mem, rest, s, tid);
      assert rest + [s] == sched;
    }
  }

  /** Nothing outside the slices changes. */
  lemma {:induction false} CrewFrame(works: seq<Work>, mem: seq<nat>, sched: seq<nat>, a: nat)
    requires Sliced(works, mem)
    requires forall i :: 0 <= i < |sched| ==> sched[i] < |works|
    requires forall i :: 0 <= i < |works| ==> a < works[i].base || works[i].End() <= a
    ensures Get(RunCrew(works, mem, sched).mem, a) == Get(mem, a)
  {
    hide Step, Inv, SameSlice;
    if sched != [] {
      var rest, s := sched[..|sched| - 1], sched[|sched| - 1];
      CrewFrame(works, mem, rest, a);
      NonInterference(works, mem, rest, s);
      var th := Solo(works[s], mem, Turns(rest, s));
      SoloInv(works[s], mem, Turns(rest, s));
      InvLocal(works[s], th, RunCrew(works, mem, rest).mem);
      StepFrame(works[s], View(RunCrew(works, mem, rest), s), a);
    }
  }

  lemma {:induction false} DoneStays(w: Work, mem: seq<nat>, k: nat, m: nat)
    requires w.order != [] && Solo(w, mem, k).pc.Done? && k <= m
    ensures Solo(w, mem, m) == Solo(w, mem, k)
  {
    if k < m {
      DoneStays(w, mem, k, m - 1);
    }
  }

  /** So a worker that finishes alone after `k` steps has, in every schedule that gives it as many turns,
      finished with the same visits and the same slice. */
  lemma FinishesTheSame(works: seq<Work>, mem: seq<nat>, sched: seq<nat>, tid: nat, k: nat)
    requires Sliced(works, mem) && tid < |works|
    requires forall i :: 0 <= i < |sched| ==> sched[i] < |works|
    requires Solo(works[tid], mem, k).pc.Done? && Turns(sched, tid) >= k
    ensures var g, th := RunCrew(works, mem, sched), Solo(works[tid], mem, k);
            g.pcs[tid].Done? && g.logs[tid] == th.log && SameSlice(works[tid], th.mem, g.mem)
  {
    hide RunCrew, Solo, SameSlice;
    NonInterference(works, mem, sched, tid);
    DoneStays(works[tid], mem, k, Turns(sched, tid));
  }

  /** The slices that `run` hands out satisfy all this, as soon as there is a unit for every thread. */
  lemma RunSlices(works: seq<Work>, mem: seq<nat>, addr: nat, wss: nat)
    requires works != [] && wss >= 256 * |works| && 8 * addr + wss <= 8 * |mem|
    requires forall tid :: 0 <= tid < |works| ==>
               && works[tid].base == SliceBase(addr, wss, |works|, tid)
               && |works[tid].order| == UnitsEach(wss, |works|)
               && (works[tid].order != [] ==> works[tid].Valid())
    ensures Sliced(works, mem)
  {
    var n, k := |works|, UnitsEach(wss, |works|) * UNIT;
    forall tid | 0 <= tid < n
      ensures works[tid].Valid() && works[tid].End() <= |mem|
      ensures works[tid].End() == SliceBase(addr, wss, n, tid + 1)
    {
      SlicesFit(addr, wss, n, tid);
    }
    forall i, j | 0 <= i < j < n
      ensures works[i].End() <= works[j].base
    {
      MulGrows(i + 1, j, k);
    }
  }
}
