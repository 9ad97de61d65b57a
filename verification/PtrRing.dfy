/** The linked working set of pm_study/microbenchmark/lat.cpp: units of 256 bytes are linked into a ring
    in a shuffled order, and the ring is then chased while a field of every unit passed is overwritten.
    Memory is an array of 64-bit words, and pointers are word addresses. */
module PtrRing {
  import opened Finite
  import opened Loops
  import opened Words

  /** sizeof(access_unit_t) in words; `next` is word 0 and `pad[15]` is word 16, that is, byte 128. */
  const UNIT: nat := 32
  const PAD15: nat := 16

  /** rd; wr_clwb and wr_clwb_sfence; wr_nt and wr_nt_sfence. */
  datatype Wr = Rd | Clwb | Nt

  /** One worker: its slice, the shuffled order of its units, the draws that choose where each lap
      starts, and its write method. */
  datatype Work = Work(base: nat, order: seq<nat>, draws: seq<nat>, wr: Wr) {

    ghost predicate Valid() {
      order != [] && Permutation(order, |order|)
    }

    function Unit(u: nat): nat {
      base + UNIT * u
    }

    /** The first word after the slice. */
    function End(): nat {
      Unit(|order|)
    }

    /** Position `i` of the ring. */
    function At(i: nat): nat
      requires i < |order|
    {
      Unit(order[i])
    }

    function Next(i: nat): nat
      requires i < |order|
    {
      if i + 1 == |order| then 0 else i + 1
    }

    function Start(t: nat): nat
      requires t < |draws| && order != []
    {
      draws[t] % |order|
    }
  }

  /** A lap can start at every unit, and where depends on the draw modulo their number only. */
  lemma EveryStart(w: Work, t: nat, u: nat)
    requires t < |w.draws| && u < |w.order|
    ensures w.Start(t) < |w.order| && (w.draws[t] - w.Start(t)) % |w.order| == 0
    ensures w.(draws := w.draws[t := u]).Start(t) == u
  {
    var n, d := |w.order|, w.draws[t];
    assert d == n * (d / n) + d % n;
    MultipleMod(d / n, n);
    assert d / n * n == n * (d / n);
  }

  // ----- Memory -----

  function Get(mem: seq<nat>, a: nat): nat {
    if a < |mem| then mem[a] else 0
  }

  function Set(mem: seq<nat>, a: nat, v: nat): (m: seq<nat>)
    ensures |m| == |mem|
  {
    if a < |mem| then mem[a := v] else mem
  }

  /** `*((int *)addr) += 10` on the word it lies in. */
  function AddTen(w: nat): nat {
    w / 0x1_0000_0000 * 0x1_0000_0000 + (w + 10) % 0x1_0000_0000
  }

  /** What a write method does to its first word. */
  function Written(w: nat, wr: Wr): nat {
    match wr
    case Rd => w
    case Clwb => AddTen(w)
    case Nt => 0
  }

  /** What it does to the memory: a streaming store clears a whole line. */
  function Touch(mem: seq<nat>, p: nat, wr: Wr): (m: seq<nat>)
    ensures |m| == |mem|
  {
    match wr
    case Rd => mem
    case Clwb => Set(mem, p, AddTen(Get(mem, p)))
    case Nt => seq(|mem|, i requires 0 <= i < |mem| => if p <= i < p + 8 then 0 else mem[i])
  }

  /** Every write method stays within eight words. */
  lemma TouchWithin(mem: seq<nat>, p: nat, wr: Wr)
    ensures forall a: nat :: a < p || p + 8 <= a ==> Get(Touch(mem, p, wr), a) == Get(mem, a)
    ensures p < |mem| ==> Get(Touch(mem, p, wr), p) == Written(Get(mem, p), wr)
  {
  }

  /** A streaming store clears exactly its eight words; the others change one word, or none. */
  lemma TouchExactly(mem: seq<nat>, p: nat, wr: Wr, a: nat)
    requires p + 8 <= |mem|
    ensures Get(Touch(mem, p, wr), a) == match wr
                                         case Rd => Get(mem, a)
                                         case Clwb => if a == p then AddTen(Get(mem, a)) else Get(mem, a)
                                         case Nt => if p <= a < p + 8 then 0 else Get(mem, a)
  {
  }

  // ----- One worker, step by step -----

  /** Linking the unit at position i - 1; about to start lap t; in lap t, at a unit not yet tested, or at
      one just written; finished.  A step accesses memory at most once. */
  datatype Pc = Build(i: nat) | Lap(t: nat) | Chase(t: nat, start: nat, p: nat) | Hop(t: nat, start: nat, p: nat) | Done

  /** Where the worker is, the units it has passed in its laps, and the memory. */
  datatype Thread = Thread(pc: Pc, log: seq<nat>, mem: seq<nat>)

  function Step(w: Work, th: Thread): (th': Thread)
    requires w.order != []
    ensures |th'.mem| == |th.mem|
  {
    var n := |w.order|;
    match th.pc
    case Build(i) =>
      if 1 <= i < n then th.(pc := Build(i + 1), mem := Set(th.mem, w.At(i - 1), w.At(i)))
      else th.(pc := Lap(0), mem := Set(th.mem, w.At(n - 1), w.At(0)))
    case Lap(t) =>
      if t < |w.draws| then th.(pc := Chase(t, w.Unit(w.Start(t)), Get(th.mem, w.Unit(w.Start(t)))))
      else th.(pc := Done)
    case Chase(t, start, p) =>
      if p == start then th.(pc := Lap(t + 1))
      else Thread(Hop(t, start, p), th.log + [p], Touch(th.mem, p + PAD15, w.wr))
    case Hop(t, start, p) => th.(pc := Chase(t, start, Get(th.mem, p)))
    case Done => th
  }

  /** `k` steps of a worker on its own. */
  function Solo(w: Work, mem: seq<nat>, k: nat): (th: Thread)
    requires w.order != []
    ensures |th.mem| == |mem|
  {
    if k == 0 then Thread(Build(1), [], mem) else Step(w, Solo(w, mem, k - 1))
  }

  /** The unit at position `i` points to the next one. */
  ghost predicate Linked(w: Work, mem: seq<nat>, i: nat)
    requires w.order != []
  {
    i < |w.order| ==> Get(mem, w.At(i)) == w.At(w.Next(i))
  }

  ghost predicate Ring(w: Work, mem: seq<nat>)
    requires w.order != []
  {
    forall i :: 0 <= i < |w.order| ==> Linked(w, mem, i)
  }

  ghost predicate IsUnit(w: Work, p: nat) {
    exists i :: 0 <= i < |w.order| && p == w.At(i)
  }

  ghost predicate Inv(w: Work, th: Thread)
    requires w.Valid()
  {
    && w.End() <= |th.mem|
    && match th.pc
       case Build(i) => 1 <= i <= |w.order| && forall j :: 0 <= j < i - 1 ==> Linked(w, th.mem, j)
       case Chase(_, _, p) => Ring(w, th.mem) && IsUnit(w, p)
       case Hop(_, _, p) => Ring(w, th.mem) && IsUnit(w, p)
       case _ => Ring(w, th.mem)
  }

  lemma UnitsApart(w: Work, i: nat, j: nat)
    requires w.Valid() && i < |w.order| && j < |w.order|
    ensures w.base <= w.At(i) && w.At(i) + UNIT <= w.End()
    ensures i != j ==> w.At(i) + UNIT <= w.At(j) || w.At(j) + UNIT <= w.At(i)
  {
  }

  /** Overwriting pad[15] of a unit leaves every link of the ring alone. */
  lemma TouchKeepsRing(w: Work, mem: seq<nat>, k: nat)
    requires w.Valid() && k < |w.order| && Ring(w, mem)
    ensures Ring(w, Touch(mem, w.At(k) + PAD15, w.wr))
  {
    var m := Touch(mem, w.At(k) + PAD15, w.wr);
    TouchWithin(mem, w.At(k) + PAD15, w.wr);
    forall i | 0 <= i < |w.order|
      ensures Linked(w, m, i)
    {
      UnitsApart(w, i, k);
      assert Linked(w, mem, i);
    }
  }

  /** In bytes: of the 256 bytes of a unit, overwriting pad[15] changes bytes 128 to 191 at most, and
      nothing outside the unit. */
  lemma TouchBytes(w: Work, mem: seq<nat>, k: nat, a: nat)
    requires w.Valid() && k < |w.order|
    requires 8 * a < 8 * w.At(k) + 128 || 8 * w.At(k) + 192 <= 8 * a
    ensures Get(Touch(mem, w.At(k) + PAD15, w.wr), a) == Get(mem, a)
    ensures 8 * w.Unit(k + 1) == 8 * w.Unit(k) + 256
  {
    TouchWithin(mem, w.At(k) + PAD15, w.wr);
  }

  /** The place of the write matters: `calc_lat` writes at the start of a unit, and every method but `rd`
      destroys the link there. */
  lemma StartOfUnitExactly(w: Work, mem: seq<nat>, k: nat)
    requires w.Valid() && w.base > 0 && k < |w.order| && Ring(w, mem) && w.End() <= |mem|
    ensures Ring(w, Touch(mem, w.At(k), w.wr)) <==> w.wr == Rd
  {
    var m := Touch(mem, w.At(k), w.wr);
    UnitsApart(w, k, k);
    UnitsApart(w, w.Next(k), k);
    TouchWithin(mem, w.At(k), w.wr);
    assert Linked(w, mem, k);
    if Ring(w, m) {
      assert Linked(w, m, k);
    }
  }

  lemma LinkUnit(w: Work, mem: seq<nat>, k: nat, v: nat)
    requires w.Valid() && k < |w.order| && w.End() <= |mem|
    ensures Get(Set(mem, w.At(k), v), w.At(k)) == v
    ensures forall i :: 0 <= i < |w.order| && i != k ==> Get(Set(mem, w.At(k), v), w.At(i)) == Get(mem, w.At(i))
  {
    UnitsApart(w, k, k);
    forall i | 0 <= i < |w.order| && i != k
      ensures Get(Set(mem, w.At(k), v), w.At(i)) == Get(mem, w.At(i))
    {
      UnitsApart(w, i, k);
    }
  }

  lemma StepKeeps(w: Work, th: Thread)
    requires w.Valid() && Inv(w, th)
    ensures Inv(w, Step(w, th))
  {
    hide Touch, Set;
    var n := |w.order|;
    match th.pc
    case Build(i) =>
      var m := Step(w, th).mem;
      LinkUnit(w, th.mem, i - 1, w.At(w.Next(i - 1)));
      forall j | 0 <= j < i
        ensures Linked(w, m, j)
      {
        assert j < i - 1 ==> Linked(w, th.mem, j);
      }
    case Lap(t) =>
      if t < |w.draws| {
        PermutationOnto(w.order, n, w.Start(t));
        var i :| 0 <= i < n && w.order[i] == w.Start(t);
        assert Linked(w, th.mem, i);
        assert IsUnit(w, w.At(w.Next(i)));
      }
    case Chase(t, start, p) =>
      if p != start {
        var k :| 0 <= k < n && p == w.At(k);
        TouchKeepsRing(w, th.mem, k);
      }
    case Hop(t, start, p) =>
      var k :| 0 <= k < n && p == w.At(k);
      assert Linked(w, th.mem, k);
      assert IsUnit(w, w.At(w.Next(k)));
    case Done =>
  }

  lemma {:induction false} SoloInv(w: Work, mem: seq<nat>, k: nat)
    requires w.Valid() && w.End() <= |mem|
    ensures Inv(w, Solo(w, mem, k))
  {
    hide Step;
    if k > 0 {
      SoloInv(w, mem, k - 1);
      StepKeeps(w, Solo(w, mem, k - 1));
    }
  }

  // ----- Laps -----

  /** The position of a unit in the ring. */
  ghost function Position(w: Work, u: nat): (i: nat)
    requires w.Valid() && u < |w.order|
    ensures i < |w.order| && w.order[i] == u
  {
    PermutationOnto(w.order, |w.order|, u);
    var i :| 0 <= i < |w.order| && w.order[i] == u;
    i
  }

  /** The position `j` + 1 places after position `i`. */
  ghost function Beyond(w: Work, i: nat, j: nat): (k: nat)
    requires w.Valid() && i < |w.order| && j < |w.order|
    ensures k < |w.order|
  {
    if i + 1 + j < |w.order| then i + 1 + j else i + 1 + j - |w.order|
  }

  /** The first `j` units after position `i`, in ring order. */
  ghost function Segment(w: Work, i: nat, j: nat): seq<nat>
    requires w.Valid() && i < |w.order| && j < |w.order|
  {
    seq(j, m requires 0 <= m < j => w.At(Beyond(w, i, m)))
  }

  /** The units passed in the first `t` laps: in each, all the others, in ring order from the start. */
  ghost function Laps(w: Work, t: nat): seq<nat>
    requires w.Valid() && t <= |w.draws|
  {
    if t == 0 then []
    else Laps(w, t - 1) + Segment(w, Position(w, w.Start(t - 1)), |w.order| - 1)
  }

  lemma {:induction false} SegmentOnce(w: Work, i: nat, j: nat, v: nat)
    requires w.Valid() && i < |w.order| && j < |w.order| && v < |w.order|
    ensures multiset(Segment(w, i, j))[w.At(v)] ==
            if exists m: nat :: m < j && v == Beyond(w, i, m) then 1 else 0
  {
    if j > 0 {
      SegmentOnce(w, i, j - 1, v);
      var s := Segment(w, i, j - 1);
      assert Segment(w, i, j) == s + [w.At(Beyond(w, i, j - 1))];
      assert w.order[v] == w.order[Beyond(w, i, j - 1)] <==> v == Beyond(w, i, j - 1);
    }
  }

  /** A lap passes every other unit exactly once, and not the one it started at. */
  lemma LapPassesOthers(w: Work, i: nat, v: nat)
    requires w.Valid() && i < |w.order| && v < |w.order|
    ensures multiset(Segment(w, i, |w.order| - 1))[w.At(v)] == if v == i then 0 else 1
  {
    SegmentOnce(w, i, |w.order| - 1, v);
    var m := if v > i then v - i - 1 else |w.order| - i - 1 + v;
    assert v != i ==> v == Beyond(w, i, m);
  }

  /** How many of the first `t` laps start at some other unit. */
  ghost function LapsElsewhere(w: Work, u: nat, t: nat): nat
    requires w.Valid() && t <= |w.draws|
  {
    if t == 0 then 0 else LapsElsewhere(w, u, t - 1) + if w.Start(t - 1) == u then 0 else 1
  }

  lemma SameUnit(w: Work, i: nat, v: nat)
    requires w.Valid() && i < |w.order| && v < |w.order|
    ensures w.order[v] == w.order[i] <==> v == i
  {
  }

  lemma {:induction false} LapsCount(w: Work, v: nat, t: nat)
    requires w.Valid() && v < |w.order| && t <= |w.draws|
    ensures multiset(Laps(w, t))[w.At(v)] == LapsElsewhere(w, w.order[v], t)
  {
    hide Segment;
    if t > 0 {
      var i := Position(w, w.Start(t - 1));
      LapsCount(w, v, t - 1);
      LapPassesOthers(w, i, v);
      SameUnit(w, i, v);
    }
  }

  // ----- What the writes add up to -----

  function Rewritten(word: nat, wr: Wr, k: nat): nat {
    if k == 0 then word else Written(Rewritten(word, wr, k - 1), wr)
  }

  lemma AddTenIs(w: nat)
    ensures High(AddTen(w)) == High(w) && Low(AddTen(w)) == Low(w + 10)
  {
  }

  /** After `k` passages: `rd` leaves the word; a streaming store clears it; the others have added 10 to
      its low half each time, modulo 2^32, and keep the high half. */
  lemma {:induction false} RewrittenIs(word: nat, wr: Wr, k: nat)
    ensures match wr
            case Rd => Rewritten(word, wr, k) == word
            case Clwb => High(Rewritten(word, wr, k)) == High(word) && Low(Rewritten(word, wr, k)) == Low(word + 10 * k)
            case Nt => Rewritten(word, wr, k) == if k == 0 then word else 0
  {
    hide Low, High, AddTen;
    if k > 0 {
      RewrittenIs(word, wr, k - 1);
      var v := Rewritten(word, wr, k - 1);
      if wr == Clwb {
        AddTenIs(v);
        LowAdds(v, word + 10 * (k - 1), 10);
        assert word + 10 * (k - 1) + 10 == word + 10 * k;
      }
    }
  }

  ghost predicate PadsCount(w: Work, mem: seq<nat>, th: Thread)
    requires w.order != []
  {
    forall i :: 0 <= i < |w.order| ==>
      Get(th.mem, w.At(i) + PAD15) == Rewritten(Get(mem, w.At(i) + PAD15), w.wr, multiset(th.log)[w.At(i)])
  }

  /** At every step of a lone worker, pad[15] of each unit has been written once per passage. */
  lemma {:induction false} PadHistory(w: Work, mem: seq<nat>, k: nat)
    requires w.Valid() && w.End() <= |mem|
    ensures PadsCount(w, mem, Solo(w, mem, k))
  {
    hide Step, Inv;
    if k > 0 {
      var th := Solo(w, mem, k - 1);
      PadHistory(w, mem, k - 1);
      SoloInv(w, mem, k - 1);
      PadStep(w, mem, th);
    }
  }

  lemma PadUntouched(w: Work, mem: seq<nat>, i: nat, j: nat, v: nat)
    requires w.Valid() && i < |w.order| && j < |w.order|
    ensures Get(Set(mem, w.At(j), v), w.At(i) + PAD15) == Get(mem, w.At(i) + PAD15)
  {
    UnitsApart(w, i, j);
  }

  lemma PadTouched(w: Work, mem: seq<nat>, i: nat, j: nat)
    requires w.Valid() && i < |w.order| && j < |w.order| && w.End() <= |mem|
    ensures Get(Touch(mem, w.At(j) + PAD15, w.wr), w.At(i) + PAD15) ==
            if i == j then Written(Get(mem, w.At(i) + PAD15), w.wr) else Get(mem, w.At(i) + PAD15)
    ensures i != j ==> w.At(i) != w.At(j)
  {
    UnitsApart(w, i, j);
    TouchWithin(mem, w.At(j) + PAD15, w.wr);
  }

  lemma PadStep(w: Work, mem: seq<nat>, th: Thread)
    requires w.Valid() && Inv(w, th) && PadsCount(w, mem, th)
    ensures PadsCount(w, mem, Step(w, th))
  {
    hide Set, Touch, Get, Written;
    var th' := Step(w, th);
    forall i | 0 <= i < |w.order|
      ensures Get(th'.mem, w.At(i) + PAD15) ==
              Rewritten(Get(mem, w.At(i) + PAD15), w.wr, multiset(th'.log)[w.At(i)])
    {
      match th.pc
      case Build(b) =>
        PadUntouched(w, th.mem, i, b - 1, w.At(w.Next(b - 1)));
      case Chase(_, start, p) =>
        if p != start {
          var j :| 0 <= j < |w.order| && p == w.At(j);
          PadTouched(w, th.mem, i, j);
        }
      case _ =>
    }
  }
}
