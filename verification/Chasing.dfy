/** `chasing_storeclwb` and `chasing_loadnt` (OptaneStudy/src/memaccess.c): the index is written into
    memory as links, block after block, and the links are then followed back. */
module Chasing {
  import opened ChasingIndex
  import opened Loops
  import opened Memory

  /** Indices that a shift by 6 keeps inside 64 bits. */
  const MAX_INDEX := 0x400_0000_0000_0000

  /** `shl $6` on a 64-bit register. */
  function Shl6(r: int): int {
    (r * 64) % 0x1_0000_0000_0000_0000
  }

  // ----- Traces -----

  lemma AddressesOfHop(t: seq<Event>, a: int, w: int)
    ensures Addresses(t + [Store(a, w), Clwb(a)]) == Addresses(t) + [a] == Addresses(t + [Load(a)])
  {
    assert (t + [Store(a, w), Clwb(a)])[..|t| + 1] == t + [Store(a, w)];
    assert (t + [Store(a, w)])[..|t|] == t == (t + [Load(a)])[..|t|];
  }

  /** One pass over a block: `n` hops along the index, each leaving a link to the next. */
  ghost function StorePass(c: seq<nat>, base: int, n: nat): seq<Event>
    requires Closed(c)
  {
    if n == 0 then []
    else
      var a := base + 64 * Orbit(c, n - 1);
      StorePass(c, base, n - 1) + [Store(a, Orbit(c, n)), Clwb(a)]
  }

  ghost function StoreTrace(c: seq<nat>, start: int, n: nat, skip: int, k: nat): seq<Event>
    requires Closed(c)
  {
    if k == 0 then []
    else StoreTrace(c, start, n, skip, k - 1) + StorePass(c, Base(start, skip, k - 1), n) + [MFence]
  }

  /** The link register after `j` loads from the block at `base`. */
  ghost function Link(mem: Lines, base: int, j: nat): int {
    if j == 0 then 0 else Read(mem, base + Shl6(Link(mem, base, j - 1)))
  }

  ghost function LoadPass(mem: Lines, base: int, n: nat): seq<Event> {
    if n == 0 then [] else LoadPass(mem, base, n - 1) + [Load(base + Shl6(Link(mem, base, n - 1)))]
  }

  ghost function LoadTrace(mem: Lines, start: int, n: nat, skip: int, k: nat): seq<Event> {
    if k == 0 then []
    else LoadTrace(mem, start, n, skip, k - 1) + LoadPass(mem, Base(start, skip, k - 1), n) + [MFence]
  }

  // ----- The kernels -----

  method StoreBlock(m: Machine, r9: int, size: int, cindex: array<nat>)
    requires m.Valid() && Closed(cindex[..]) && cindex.Length <= MAX_INDEX
    modifies m
    ensures m.Valid() && m.boot == old(m.boot)
    ensures m.trace == old(m.trace) + StorePass(cindex[..], r9, Trips(size, 64))
  {
    hide ApplyAll;
    ghost var c := cindex[..];
    ghost var j: nat := 0;
    var r10, r12 := 0, 0;
    var again := true;
    while again
      invariant cindex[..] == c && m.Valid() && m.boot == old(m.boot)
      invariant r10 == 64 * j && r12 == Orbit(c, j)
      invariant if again then j < Trips(size, 64) else j == Trips(size, 64)
      invariant m.trace == old(m.trace) + StorePass(c, r9, j)
      decreases Trips(size, 64) - j, again
    {
      var xmm0 := cindex[r12];
      m.Issue(Store(r9 + Shl6(r12), xmm0));
      m.Issue(Clwb(r9 + Shl6(r12)));
      r10, r12 := r10 + 0x40, xmm0;
      j := j + 1;
      again := r10 < size;
      LoopTest(size, 64, j);
    }
  }

  method ChasingStoreClwb(m: Machine, start: int, size: int, skip: int, count: int, cindex: array<nat>)
    requires m.Valid() && Closed(cindex[..]) && cindex.Length <= MAX_INDEX
    modifies m
    ensures m.Valid() && m.boot == old(m.boot)
    ensures m.trace == old(m.trace) + StoreTrace(cindex[..], start, Trips(size, 64), skip, Trips(count, 1))
  {
    hide ApplyAll, StorePass, Orbit, Trips;
    ghost var c, n, t := cindex[..], Trips(size, 64), [];
    var r8, r11 := 0, 0;
    var again := true;
    while again
      invariant cindex[..] == c && m.Valid() && m.boot == old(m.boot)
      invariant 0 <= r11 && start + r8 == Base(start, skip, r11)
      invariant if again then r11 < Trips(count, 1) else r11 == Trips(count, 1)
      invariant m.trace == old(m.trace) + t && t == StoreTrace(c, start, n, skip, r11)
      decreases Trips(count, 1) - r11, again
    {
      StoreBlock(m, start + r8, size, cindex);
      m.Issue(MFence);
      Regroup(old(m.trace), t, StorePass(c, start + r8, n), MFence);
      t := t + StorePass(c, start + r8, n) + [MFence];
      r8, r11 := r8 + skip, r11 + 1;
      again := r11 < count;
      LoopTest(count, 1, r11);
    }
  }

  method LoadBlock(m: Machine, r9: int, size: int)
    requires m.Valid()
    modifies m
    ensures m.Valid() && m.boot == old(m.boot) && m.mem == old(m.mem)
    ensures m.trace == old(m.trace) + LoadPass(m.mem, r9, Trips(size, 64))
  {
    hide ApplyAll;
    ghost var j: nat := 0;
    var r10, r12 := 0, 0;
    var again := true;
    while again
      invariant m.Valid() && m.boot == old(m.boot) && m.mem == old(m.mem)
      invariant r10 == 64 * j && r12 == Link(m.mem, r9, j)
      invariant if again then j < Trips(size, 64) else j == Trips(size, 64)
      invariant m.trace == old(m.trace) + LoadPass(m.mem, r9, j)
      decreases Trips(size, 64) - j, again
    {
      m.Issue(Load(r9 + Shl6(r12)));
      r10, r12 := r10 + 0x40, Read(m.mem, r9 + Shl6(r12));
      j := j + 1;
      again := r10 < size;
      LoopTest(size, 64, j);
    }
  }

  method ChasingLoadNt(m: Machine, start: int, size: int, skip: int, count: int)
    requires m.Valid()
    modifies m
    ensures m.Valid() && m.boot == old(m.boot) && m.mem == old(m.mem)
    ensures m.trace == old(m.trace) + LoadTrace(m.mem, start, Trips(size, 64), skip, Trips(count, 1))
  {
    hide ApplyAll, LoadPass, Trips;
    ghost var n, t := Trips(size, 64), [];
    var r8, r11 := 0, 0;
    var again := true;
    while again
      invariant m.Valid() && m.boot == old(m.boot) && m.mem == old(m.mem)
      invariant 0 <= r11 && start + r8 == Base(start, skip, r11)
      invariant if again then r11 < Trips(count, 1) else r11 == Trips(count, 1)
      invariant m.trace == old(m.trace) + t && t == LoadTrace(m.mem, start, n, skip, r11)
      decreases Trips(count, 1) - r11, again
    {
      LoadBlock(m, start + r8, size);
      m.Issue(MFence);
      Regroup(old(m.trace), t, LoadPass(m.mem, start + r8, n), MFence);
      t := t + LoadPass(m.mem, start + r8, n) + [MFence];
      r8, r11 := r8 + skip, r11 + 1;
      again := r11 < count;
      LoopTest(count, 1, r11);
    }
  }

  // ----- The blocks do not disturb each other -----

  /** Blocks that are the same block, or that lie at least a whole index apart. */
  predicate Spaced(size: nat, skip: int, blocks: nat) {
    blocks <= 1 || skip == 0 || skip >= 64 * size || skip <= -64 * size
  }

  /** Every link of the index in every block, as a store. */
  ghost predicate LinkStore(c: seq<nat>, start: int, skip: int, blocks: nat, e: Event, k: nat, x: nat) {
    k < blocks && x < |c| && e == Store(Base(start, skip, k) + 64 * x, c[x])
  }

  lemma {:induction false} PassStores(c: seq<nat>, start: int, skip: int, blocks: nat, k: nat, n: nat, e: Event)
    requires Closed(c) && k < blocks && e.Writes() && e in StorePass(c, Base(start, skip, k), n)
    ensures exists x :: LinkStore(c, start, skip, blocks, e, k, x)
  {
    if e in StorePass(c, Base(start, skip, k), n - 1) {
      PassStores(c, start, skip, blocks, k, n - 1, e);
    } else {
      assert LinkStore(c, start, skip, blocks, e, k, Orbit(c, n - 1));
    }
  }

  lemma {:induction false} TraceStores(c: seq<nat>, start: int, n: nat, skip: int, blocks: nat, k: nat, e: Event)
    requires Closed(c) && k <= blocks && e.Writes() && e in StoreTrace(c, start, n, skip, k)
    ensures exists i, x :: LinkStore(c, start, skip, blocks, e, i, x)
  {
    hide Orbit, StorePass;
    if e in StoreTrace(c, start, n, skip, k - 1) {
      TraceStores(c, start, n, skip, blocks, k - 1, e);
    } else {
      PassStores(c, start, skip, blocks, k - 1, n, e);
    }
  }

  lemma SpacedStoresAgree(c: seq<nat>, start: int, n: nat, skip: int, blocks: nat)
    requires Closed(c) && Spaced(|c|, skip, blocks)
    ensures Agree(StoreTrace(c, start, n, skip, blocks))
  {
    var t := StoreTrace(c, start, n, skip, blocks);
    forall e, f | e in t && f in t && e.Writes() && f.Writes() && e.addr == f.addr
      ensures e.word == f.word
    {
      TraceStores(c, start, n, skip, blocks, blocks, e);
      TraceStores(c, start, n, skip, blocks, blocks, f);
      var i, x :| LinkStore(c, start, skip, blocks, e, i, x);
      var k, y :| LinkStore(c, start, skip, blocks, f, k, y);
      if i != k {
        BaseApart(start, skip, i, k);
      }
    }
  }

  lemma {:induction false} StoreInPass(c: seq<nat>, base: int, n: nat, j: nat)
    requires Closed(c) && j < n
    ensures Store(base + 64 * Orbit(c, j), Orbit(c, j + 1)) in StorePass(c, base, n)
  {
    if j < n - 1 {
      StoreInPass(c, base, n - 1, j);
    }
  }

  lemma {:induction false} PassInTrace(c: seq<nat>, start: int, n: nat, skip: int, blocks: nat, k: nat, e: Event)
    requires Closed(c) && k < blocks && e in StorePass(c, Base(start, skip, k), n)
    ensures e in StoreTrace(c, start, n, skip, blocks)
  {
    if k < blocks - 1 {
      PassInTrace(c, start, n, skip, blocks - 1, k, e);
    }
  }

  /** What memory holds after stores that agree: in every block, each visited node's link. */
  lemma LinksStored(mem: Lines, c: seq<nat>, start: int, n: nat, skip: int, blocks: nat, k: nat, j: nat)
    requires Closed(c) && Agree(StoreTrace(c, start, n, skip, blocks)) && k < blocks && j < n
    ensures Read(ApplyAll(mem, StoreTrace(c, start, n, skip, blocks)), Base(start, skip, k) + 64 * Orbit(c, j))
            == Orbit(c, j + 1)
  {
    hide ApplyAll, StoreTrace, StorePass, Base;
    AgreeingTrace(mem, StoreTrace(c, start, n, skip, blocks));
    StoreInPass(c, Base(start, skip, k), n, j);
    PassInTrace(c, start, n, skip, blocks, k, Store(Base(start, skip, k) + 64 * Orbit(c, j), Orbit(c, j + 1)));
  }

  lemma LinksSurvive(mem: Lines, c: seq<nat>, start: int, n: nat, skip: int, blocks: nat, k: nat, j: nat)
    requires Closed(c) && Spaced(|c|, skip, blocks) && k < blocks && j < n
    ensures Read(ApplyAll(mem, StoreTrace(c, start, n, skip, blocks)), Base(start, skip, k) + 64 * Orbit(c, j))
            == Orbit(c, j + 1)
  {
    hide ApplyAll, StoreTrace, Base;
    SpacedStoresAgree(c, start, n, skip, blocks);
    LinksStored(mem, c, start, n, skip, blocks, k, j);
  }

  // ----- Reading the links back -----

  lemma {:induction false} LinksFollow(mem: Lines, c: seq<nat>, base: int, n: nat)
    requires Closed(c) && |c| <= MAX_INDEX
    requires forall j :: 0 <= j < n ==> Read(mem, base + 64 * Orbit(c, j)) == Orbit(c, j + 1)
    ensures Link(mem, base, n) == Orbit(c, n)
  {
    if n > 0 {
      LinksFollow(mem, c, base, n - 1);
    }
  }

  /** The link read by the last hop is not followed, so it need not be in memory. */
  lemma {:induction false} PassReadBack(mem: Lines, c: seq<nat>, base: int, n: nat)
    requires Closed(c) && |c| <= MAX_INDEX
    requires forall j :: 0 <= j < n - 1 ==> Read(mem, base + 64 * Orbit(c, j)) == Orbit(c, j + 1)
    ensures Addresses(LoadPass(mem, base, n)) == Addresses(StorePass(c, base, n))
  {
    hide Addresses;
    if n > 0 {
      PassReadBack(mem, c, base, n - 1);
      LinksFollow(mem, c, base, n - 1);
      var a := base + 64 * Orbit(c, n - 1);
      AddressesOfHop(StorePass(c, base, n - 1), a, Orbit(c, n));
      AddressesOfHop(LoadPass(mem, base, n - 1), a, Orbit(c, n));
    }
  }

  lemma {:induction false} TraceReadBack(mem: Lines, c: seq<nat>, start: int, n: nat, skip: int, k: nat)
    requires Closed(c) && |c| <= MAX_INDEX
    requires forall i, j :: 0 <= i < k && 0 <= j < n - 1 ==>
               Read(mem, Base(start, skip, i) + 64 * Orbit(c, j)) == Orbit(c, j + 1)
    ensures Addresses(LoadTrace(mem, start, n, skip, k)) == Addresses(StoreTrace(c, start, n, skip, k))
  {
    hide Addresses, Orbit;
    if k > 0 {
      var base := Base(start, skip, k - 1);
      TraceReadBack(mem, c, start, n, skip, k - 1);
      PassReadBack(mem, c, base, n);
      AddressesOfPass(StoreTrace(c, start, n, skip, k - 1), StorePass(c, base, n));
      AddressesOfPass(LoadTrace(mem, start, n, skip, k - 1), LoadPass(mem, base, n));
    }
  }

  /** Round trip: the loads retrace the stores line by line, for every index array and every number of
      hops and blocks, when the blocks are spaced. */
  lemma RoundTrip(mem: Lines, c: seq<nat>, start: int, n: nat, skip: int, blocks: nat)
    requires Closed(c) && |c| <= MAX_INDEX && Spaced(|c|, skip, blocks)
    ensures var t := StoreTrace(c, start, n, skip, blocks);
            Addresses(LoadTrace(ApplyAll(mem, t), start, n, skip, blocks)) == Addresses(t)
  {
    forall i, j | 0 <= i < blocks && 0 <= j < n - 1
      ensures Read(ApplyAll(mem, StoreTrace(c, start, n, skip, blocks)), Base(start, skip, i) + 64 * Orbit(c, j))
              == Orbit(c, j + 1)
    {
      LinksSurvive(mem, c, start, n, skip, blocks, i, j);
    }
    TraceReadBack(ApplyAll(mem, StoreTrace(c, start, n, skip, blocks)), c, start, n, skip, blocks);
  }

  // ----- Full laps -----

  lemma {:induction false} PassAddresses(c: seq<nat>, base: int, n: nat)
    requires Closed(c)
    ensures Addresses(StorePass(c, base, n)) == seq(n, (j: nat) => base + 64 * Orbit(c, j))
  {
    hide Addresses;
    if n == 0 {
      NoAddresses();
    } else {
      PassAddresses(c, base, n - 1);
      var a := base + 64 * Orbit(c, n - 1);
      AddressesOfHop(StorePass(c, base, n - 1), a, Orbit(c, n));
    }
  }

  /** A pass of one lap over a ring touches each line of its block exactly once and comes back to
      index 0. */
  lemma LapTouchesAll(c: seq<nat>, base: int, x: nat) returns (j: nat)
    requires Cycle(c) && x < |c|
    ensures var p := Addresses(StorePass(c, base, |c|));
            |p| == |c| && j < |c| && p[j] == base + 64 * x &&
            (forall i :: 0 <= i < |c| && p[i] == base + 64 * x ==> i == j)
    ensures Orbit(c, |c|) == 0
  {
    PassAddresses(c, base, |c|);
    j := CycleVisitsAll(c, x);
  }

  lemma {:induction false} LoadAddresses(mem: Lines, base: int, n: nat)
    ensures Addresses(LoadPass(mem, base, n)) == seq(n, (j: nat) => base + Shl6(Link(mem, base, j)))
  {
    hide Addresses, Shl6;
    if n == 0 {
      NoAddresses();
    } else {
      LoadAddresses(mem, base, n - 1);
      var a := base + Shl6(Link(mem, base, n - 1));
      AddressesOfHop(LoadPass(mem, base, n - 1), a, 0);
    }
  }

  /** Equal traces have equal passes. */
  lemma {:induction false} EqualPasses(mem: Lines, c: seq<nat>, start: int, n: nat, skip: int, k: nat, i: nat)
    requires Closed(c) && i < k
    requires Addresses(LoadTrace(mem, start, n, skip, k)) == Addresses(StoreTrace(c, start, n, skip, k))
    ensures Addresses(LoadPass(mem, Base(start, skip, i), n)) == Addresses(StorePass(c, Base(start, skip, i), n))
  {
    hide Addresses, Orbit, Link;
    var base := Base(start, skip, k - 1);
    var s, l := StoreTrace(c, start, n, skip, k - 1), LoadTrace(mem, start, n, skip, k - 1);
    AddressesOfPass(s, StorePass(c, base, n));
    AddressesOfPass(l, LoadPass(mem, base, n));
    PassAddresses(c, base, n);
    LoadAddresses(mem, base, n);
    SameSplit(Addresses(l), Addresses(LoadPass(mem, base, n)), Addresses(s), Addresses(StorePass(c, base, n)));
    if i < k - 1 {
      EqualPasses(mem, c, start, n, skip, k - 1, i);
    }
  }

  lemma SameSplit(a: seq<int>, b: seq<int>, x: seq<int>, y: seq<int>)
    requires a + b == x + y && |b| == |y|
    ensures a == x && b == y
  {
    assert a == (a + b)[..|a|] && x == (x + y)[..|x|];
    assert b == (a + b)[|a|..] && y == (x + y)[|x|..];
  }

  lemma RetracedHop(mem: Lines, c: seq<nat>, base: int, n: nat, j: nat)
    requires Closed(c) && j < n
    requires Addresses(LoadPass(mem, base, n)) == Addresses(StorePass(c, base, n))
    ensures Shl6(Link(mem, base, j)) == 64 * Orbit(c, j)
  {
    hide Addresses, Shl6, Link, Orbit;
    LoadAddresses(mem, base, n);
    PassAddresses(c, base, n);
    assert Addresses(LoadPass(mem, base, n))[j] == Addresses(StorePass(c, base, n))[j];
  }

  /** If the loads retrace more than a lap of stores in block `i`, that block holds every link. */
  lemma RetracedBlock(mem: Lines, c: seq<nat>, base: int, n: nat, x: nat)
    requires Cycle(c) && n > |c| && x < |c|
    requires Addresses(LoadPass(mem, base, n)) == Addresses(StorePass(c, base, n))
    ensures Shl6(Read(mem, base + 64 * x)) == 64 * c[x]
  {
    hide Addresses, Shl6, LoadPass, StorePass;
    var j := CycleVisitsAll(c, x);
    RetracedHop(mem, c, base, n, j);
    RetracedHop(mem, c, base, n, j + 1);
  }

  /** For one given ring of at least two nodes, and more than one lap a block: the loads retrace the
      stores if and only if the blocks are spaced. */
  lemma RoundTripExactly(mem: Lines, c: seq<nat>, start: int, n: nat, skip: int, blocks: nat)
    requires Cycle(c) && 2 <= |c| <= MAX_INDEX && n > |c| && skip % 64 == 0
    ensures var t := StoreTrace(c, start, n, skip, blocks);
            Addresses(LoadTrace(ApplyAll(mem, t), start, n, skip, blocks)) == Addresses(t)
            <==> Spaced(|c|, skip, blocks)
  {
    hide Addresses, Shl6, StoreTrace, LoadTrace, LoadPass, StorePass, Orbit, ApplyAll;
    var t := StoreTrace(c, start, n, skip, blocks);
    var m := ApplyAll(mem, t);
    if Spaced(|c|, skip, blocks) {
      RoundTrip(mem, c, start, n, skip, blocks);
    } else if Addresses(LoadTrace(m, start, n, skip, blocks)) == Addresses(t) {
      EqualPasses(m, c, start, n, skip, blocks, 0);
      EqualPasses(m, c, start, n, skip, blocks, 1);
      assert Base(start, skip, 1) == start + skip && Base(start, skip, 0) == start;
      var x, y := if skip > 0 then skip / 64 else 0, if skip > 0 then 0 else -(skip / 64);
      assert start + 64 * x == start + skip + 64 * y;
      RetracedBlock(m, c, start, n, x);
      RetracedBlock(m, c, start + skip, n, y);
      CycleInjective(c, x, y);
    }
  }

  // ----- The whole chain -----

  /** Build the index, write it into memory, and follow it: if the index is built and the blocks are
      spaced, the loads visit the lines of the stores, in order. */
  method Chase(m: Machine, start: int, size: int, skip: int, count: int, cindex: array<nat>, draws: seq<Draw>)
    returns (ret: Outcome, ghost stores: seq<Event>, ghost loads: seq<Event>)
    requires m.Valid() && 1 <= cindex.Length <= MAX_INDEX
    modifies m, cindex
    ensures m.Valid() && m.boot == old(m.boot) && m.trace == old(m.trace) + stores + loads
    ensures ret.Built? ==>
              Cycle(cindex[..]) &&
              stores == StoreTrace(cindex[..], start, Trips(size, 64), skip, Trips(count, 1))
    ensures ret.Built? && Spaced(cindex.Length, skip, Trips(count, 1)) ==> Addresses(loads) == Addresses(stores)
    ensures !ret.Built? ==> stores == loads == []
  {
    hide ApplyAll, StoreTrace, LoadTrace, Trips, Orbit, Addresses;
    ret := InitChasingIndex(cindex, draws);
    stores, loads := [], [];
    SingleCycle(cindex[..], draws);
    if ret.Built? {
      ghost var c, n, k := cindex[..], Trips(size, 64), Trips(count, 1);
      ghost var mem := m.mem;
      stores := StoreTrace(c, start, n, skip, k);
      ApplyConcat(m.boot, m.trace, stores);
      ChasingStoreClwb(m, start, size, skip, count, cindex);
      loads := LoadTrace(m.mem, start, n, skip, k);
      ChasingLoadNt(m, start, size, skip, count);
      if Spaced(|c|, skip, k) {
        RoundTrip(mem, c, start, n, skip, k);
      }
    }
  }
}
