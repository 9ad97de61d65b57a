/** The `worker` of pm_study/microbenchmark/lat.cpp, run by one thread: link the units, then chase the
    ring once per iteration. */
module LatWorker {
  import opened PtrRing

  /** A write method, at word `p`. */
  method WriteAt(mem: array<nat>, p: nat, wr: Wr)
    requires p + 8 <= mem.Length
    modifies mem
    ensures mem[..] == Touch(old(mem[..]), p, wr)
  {
    match wr {
      case Rd =>
      case Clwb => mem[p] := AddTen(mem[p]);
      case Nt =>
        for i := 0 to 8
          invariant forall a :: 0 <= a < mem.Length ==> mem[a] == if p <= a < p + i then 0 else old(mem[a])
        {
          mem[p + i] := 0;
        }
    }
  }

  /** Linking: the steps of the machine up to the first lap. */
  method BuildRing(mem: array<nat>, w: Work) returns (ghost k: nat)
    requires w.Valid() && w.End() <= mem.Length
    modifies mem
    ensures Solo(w, old(mem[..]), k) == Thread(Lap(0), [], mem[..])
  {
    var n := |w.order|;
    k := 0;
    for i := 1 to n
      invariant Solo(w, old(mem[..]), k) == Thread(Build(i), [], mem[..])
    {
      UnitsApart(w, i - 1, i - 1);
      mem[w.At(i - 1)] := w.At(i);
      k := k + 1;
    }
    UnitsApart(w, n - 1, n - 1);
    mem[w.At(n - 1)] := w.At(0);
    k := k + 1;
  }

  lemma NextHop(w: Work, mem: seq<nat>, i: nat, j: nat)
    requires w.Valid() && Ring(w, mem) && i < |w.order| && j < |w.order|
    ensures w.At(Beyond(w, i, j)) == w.At(i) <==> j == |w.order| - 1
    ensures j < |w.order| - 1 ==> Get(mem, w.At(Beyond(w, i, j))) == w.At(Beyond(w, i, j + 1))
    ensures Get(mem, w.At(i)) == w.At(Beyond(w, i, 0))
  {
    SameUnit(w, i, Beyond(w, i, j));
    assert Linked(w, mem, Beyond(w, i, j)) && Linked(w, mem, i);
  }

  /** The state of a lap that has passed `j` units after position `i`. */
  ghost predicate Chasing(w: Work, mem0: seq<nat>, k: nat, t: nat, i: nat, j: nat, p: nat, log: seq<nat>, mem: seq<nat>)
    requires w.Valid() && w.End() <= |mem0| && t < |w.draws| && i < |w.order|
  {
    && j < |w.order| && w.At(i) == w.Unit(w.Start(t))
    && p == w.At(Beyond(w, i, j)) && |mem| == |mem0| && p + UNIT <= |mem|
    && Solo(w, mem0, k) == Thread(Chase(t, w.At(i), p), log, mem)
    && (p == w.At(i) <==> j == |w.order| - 1)
  }

  lemma StartLap(w: Work, mem0: seq<nat>, k: nat, t: nat, log: seq<nat>, mem: seq<nat>)
    requires w.Valid() && w.End() <= |mem0| && t < |w.draws|
    requires Solo(w, mem0, k) == Thread(Lap(t), log, mem)
    ensures var i := Position(w, w.Start(t));
            Chasing(w, mem0, k + 1, t, i, 0, Get(mem, w.At(i)), log, mem) && w.At(i) < |mem|
  {
    var i := Position(w, w.Start(t));
    SoloInv(w, mem0, k);
    NextHop(w, mem, i, 0);
    UnitsApart(w, i, i);
    UnitsApart(w, Beyond(w, i, 0), i);
  }

  lemma ChaseStep(w: Work, mem0: seq<nat>, k: nat, t: nat, i: nat, j: nat, p: nat, log: seq<nat>, mem: seq<nat>)
    requires w.Valid() && w.End() <= |mem0| && t < |w.draws| && i < |w.order|
    requires Chasing(w, mem0, k, t, i, j, p, log, mem) && p != w.At(i)
    ensures var m := Touch(mem, p + PAD15, w.wr);
            Chasing(w, mem0, k + 2, t, i, j + 1, Get(m, p), log + [p], m)
  {
    hide Touch;
    var m := Touch(mem, p + PAD15, w.wr);
    assert Solo(w, mem0, k + 1) == Thread(Hop(t, w.At(i), p), log + [p], m);
    SoloInv(w, mem0, k + 1);
    NextHop(w, m, i, j);
    NextHop(w, m, i, j + 1);
    UnitsApart(w, Beyond(w, i, j + 1), i);
  }

  /** One lap: it ends, after passing all the other units in ring order. */
  method ChaseLap(mem: array<nat>, w: Work, t: nat, log: seq<nat>, ghost mem0: seq<nat>, ghost k: nat)
    returns (log': seq<nat>, ghost k': nat)
    requires w.Valid() && w.End() <= mem.Length == |mem0| && t < |w.draws|
    requires Solo(w, mem0, k) == Thread(Lap(t), log, mem[..])
    modifies mem
    ensures Solo(w, mem0, k') == Thread(Lap(t + 1), log', mem[..])
    ensures log' == log + Segment(w, Position(w, w.Start(t)), |w.order| - 1)
  {
    hide Touch, Solo;
    ghost var i: nat, j: nat := Position(w, w.Start(t)), 0;
    StartLap(w, mem0, k, t, log, mem[..]);
    var start := w.Unit(w.Start(t));
    var p: nat := mem[start];
    k', log' := k + 1, log;
    while p != start
      invariant Chasing(w, mem0, k', t, i, j, p, log', mem[..])
      invariant log' == log + Segment(w, i, j)
      decreases |w.order| - j
    {
      ChaseStep(w, mem0, k', t, i, j, p, log', mem[..]);
      WriteAt(mem, p + PAD15, w.wr);
      log', k' := log' + [p], k' + 2;
      p := mem[p];
      j := j + 1;
    }
    EndLap(w, mem0, k', t, p, log', mem[..]);
    k' := k' + 1;
  }

  lemma EndLap(w: Work, mem0: seq<nat>, k: nat, t: nat, p: nat, log: seq<nat>, mem: seq<nat>)
    requires w.order != [] && Solo(w, mem0, k) == Thread(Chase(t, p, p), log, mem)
    ensures Solo(w, mem0, k + 1) == Thread(Lap(t + 1), log, mem)
  {
  }

  lemma NoMoreLaps(w: Work, mem0: seq<nat>, k: nat, log: seq<nat>, mem: seq<nat>)
    requires w.order != [] && Solo(w, mem0, k) == Thread(Lap(|w.draws|), log, mem)
    ensures Solo(w, mem0, k + 1) == Thread(Done, log, mem)
  {
  }

  /** The worker, for any shuffle of its units and any draws: it terminates, as the machine does. */
  method Worker(mem: array<nat>, w: Work) returns (log: seq<nat>, ghost k: nat)
    requires w.Valid() && w.End() <= mem.Length
    modifies mem
    ensures Solo(w, old(mem[..]), k) == Thread(Done, log, mem[..])
    ensures log == Laps(w, |w.draws|)
  {
    hide Segment, Solo;
    k := BuildRing(mem, w);
    log := [];
    for t := 0 to |w.draws|
      invariant Solo(w, old(mem[..]), k) == Thread(Lap(t), log, mem[..]) && log == Laps(w, t)
    {
      log, k := ChaseLap(mem, w, t, log, old(mem[..]), k);
    }
    NoMoreLaps(w, old(mem[..]), k, log, mem[..]);
    k := k + 1;
  }

  lemma AroundRing(w: Work, v: nat)
    requires w.Valid() && v < |w.order|
    ensures w.At(w.Next(v)) == w.base + UNIT * w.order[(v + 1) % |w.order|]
  {
    assert v + 1 < |w.order| ==> (v + 1) % |w.order| == v + 1;
  }

  /** What the worker leaves: each unit points to the next one of the shuffled order, the last to the
      first, and pad[15] of each was written once for every lap that started elsewhere. */
  lemma WorkerMemory(w: Work, mem: seq<nat>, k: nat, log: seq<nat>, after: seq<nat>, v: nat)
    requires w.Valid() && w.End() <= |mem| && v < |w.order|
    requires Solo(w, mem, k) == Thread(Done, log, after) && log == Laps(w, |w.draws|)
    ensures Get(after, w.base + UNIT * w.order[v]) == w.base + UNIT * w.order[(v + 1) % |w.order|]
    ensures Get(after, w.At(v) + PAD15) ==
            Rewritten(Get(mem, w.At(v) + PAD15), w.wr, LapsElsewhere(w, w.order[v], |w.draws|))
  {
    hide Solo, Rewritten, LapsElsewhere, Laps;
    SoloInv(w, mem, k);
    assert Linked(w, after, v);
    PadHistory(w, mem, k);
    LapsCount(w, v, |w.draws|);
    AroundRing(w, v);
  }
}
