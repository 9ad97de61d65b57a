/** `sizebw_load`, `sizebw_nt`, `sizebw_store` and `sizebw_storeclwb` (OptaneStudy/src/memaccess.c):
    blocks at pseudo-random offsets, four to a round, with the inner body unrolled over 512 bytes.  The
    four differ in the access macro only. */
module SizeBw {
  import opened Lfsr
  import opened Loops
  import opened Memory
  import opened Stride
  import opened Words

  const UNROLL := 8

  /** r8: the state, masked. */
  function Offset(state: bv64, mask: bv64): int {
    Value(state & mask)
  }

  /** `n` blocks of `lines` lines at the offsets of the states after the seed. */
  function RandomTrace(kind: Kind, start: int, lines: nat, seed: bv64, mask: bv64, n: nat): seq<Event> {
    if n == 0 then []
    else RandomTrace(kind, start, lines, seed, mask, n - 1) +
         Block(kind, start + Offset(State(seed, n), mask), lines, start) + [MFence]
  }

  /** Random accesses made for a requested `count`. */
  function Accesses(count: int): nat {
    4 * Trips(count, 4)
  }

  /** RandLFSR64 and one block; `n` accesses have been made before. */
  method RandomAccess(m: Machine, kind: Kind, start: int, size: int, seed: array<bv64>, mask: bv64,
                      ghost seed0: bv64, ghost n: nat, ghost before: seq<Event>)
    requires m.Valid() && seed.Length == 1 && seed[0] == State(seed0, n)
    requires m.trace == before + RandomTrace(kind, start, LinesPerBlock(size, UNROLL), seed0, mask, n)
    modifies m, seed
    ensures m.Valid() && m.boot == old(m.boot) && seed[0] == State(seed0, n + 1)
    ensures m.trace == before + RandomTrace(kind, start, LinesPerBlock(size, UNROLL), seed0, mask, n + 1)
  {
    hide ApplyAll, Block, Step, Offset;
    var r12 := Step(seed[0]);
    seed[0] := r12;
    var r9 := start + Offset(r12, mask);
    Inner(m, kind, r9, size, UNROLL, start);
    m.Issue(MFence);
    ghost var lines := LinesPerBlock(size, UNROLL);
    Regroup(before, RandomTrace(kind, start, lines, seed0, mask, n), Block(kind, r9, lines, start), MFence);
  }

  method SizeBandwidth(m: Machine, kind: Kind, start: int, size: int, count: int, seed: array<bv64>, mask: bv64)
    requires m.Valid() && seed.Length == 1
    modifies m, seed
    ensures m.Valid() && m.boot == old(m.boot)
    ensures seed[0] == State(old(seed[0]), Accesses(count))
    ensures m.trace == old(m.trace) +
                       RandomTrace(kind, start, LinesPerBlock(size, UNROLL), old(seed[0]), mask, Accesses(count))
    ensures kind == LD ==> m.mem == old(m.mem)
  {
    hide ApplyAll, Block, Step, Offset, RandomTrace, State;
    ghost var s, before, n: nat := seed[0], m.trace, 0;
    NothingYet(kind, start, LinesPerBlock(size, UNROLL), s, mask);
    var r11 := 0;
    var again := true;
    while again
      invariant m.Valid() && m.boot == old(m.boot) && r11 == 4 * n
      invariant if again then n < Trips(count, 4) else n == Trips(count, 4)
      invariant seed[0] == State(s, 4 * n)
      invariant m.trace == before + RandomTrace(kind, start, LinesPerBlock(size, UNROLL), s, mask, 4 * n)
      decreases Trips(count, 4) - n, again
    {
      RandomAccess(m, kind, start, size, seed, mask, s, 4 * n, before);
      RandomAccess(m, kind, start, size, seed, mask, s, 4 * n + 1, before);
      RandomAccess(m, kind, start, size, seed, mask, s, 4 * n + 2, before);
      RandomAccess(m, kind, start, size, seed, mask, s, 4 * n + 3, before);
      r11 := r11 + 4;
      n := n + 1;
      again := r11 < count;
      LoopTest(count, 4, n);
    }
    ghost var lines := LinesPerBlock(size, UNROLL);
    ApplyConcat(m.boot, before, RandomTrace(kind, start, lines, s, mask, 4 * n));
    RandomLoadsOnly(old(m.mem), start, lines, s, mask, 4 * n);
  }

  lemma NothingYet(kind: Kind, start: int, lines: nat, seed: bv64, mask: bv64)
    ensures RandomTrace(kind, start, lines, seed, mask, 0) == [] && State(seed, 0) == seed
  {
  }

  // ----- Where the accesses go, and what they leave -----

  /** Bodies are unrolled over 512 bytes, and one is executed at least. */
  lemma BodyLines(size: int)
    ensures LinesPerBlock(size, UNROLL) == if size > 0 then (size + 511) / 512 * 8 else 8
  {
    TimesIsProduct(Trips(size, 512), 8);
  }

  /** The offset is a state as far as the mask lets it through: equal masked bits give equal offsets and
      no others do, all of them give the mask, none gives 0, and the mask is never exceeded. */
  lemma OffsetExactly(s: bv64, t: bv64, mask: bv64)
    ensures Offset(s, mask) == Offset(t, mask) <==> s & mask == t & mask
    ensures Offset(mask, mask) == Value(mask) && Offset(0, mask) == 0
    ensures 0 <= Offset(s, mask) <= Value(mask)
  {
    if Offset(s, mask) == Offset(t, mask) {
      ValueInjective(s & mask, t & mask);
    }
    assert mask & mask == mask && 0 & mask == 0;
    MaskedBelow(s, mask);
  }

  /** All accesses stay within the masked range: its size is the mask and one block. */
  lemma {:induction false} RandomWithin(kind: Kind, start: int, lines: nat, seed: bv64, mask: bv64, n: nat, a: int)
    requires a in Addresses(RandomTrace(kind, start, lines, seed, mask, n))
    ensures start <= a < start + Value(mask) + 64 * lines
  {
    hide Addresses, Block, Step, Offset, State, Value;
    NoAddresses();
    if n > 0 {
      var t, base := RandomTrace(kind, start, lines, seed, mask, n - 1), start + Offset(State(seed, n), mask);
      AddressesOfPass(t, Block(kind, base, lines, start));
      BlockAddresses(kind, base, lines, start);
      OffsetExactly(State(seed, n), 0, mask);
      if a in Addresses(t) {
        RandomWithin(kind, start, lines, seed, mask, n - 1, a);
      }
    }
  }

  /** Line `j` of the block that the `i`-th access visits. */
  ghost predicate RandomLine(start: int, lines: nat, seed: bv64, mask: bv64, n: nat, a: int, i: nat, j: nat) {
    1 <= i <= n && j < lines && a == start + Offset(State(seed, i), mask) + 64 * j
  }

  lemma {:induction false} RandomStamps(kind: Kind, start: int, lines: nat, seed: bv64, mask: bv64, n: nat)
    ensures Stamps(RandomTrace(kind, start, lines, seed, mask, n), start)
  {
    hide Block, Offset, State;
    if n > 0 {
      RandomStamps(kind, start, lines, seed, mask, n - 1);
      BlockStamps(kind, start + Offset(State(seed, n), mask), lines, start);
    }
  }

  lemma {:induction false} RandomWrites(kind: Kind, start: int, lines: nat, seed: bv64, mask: bv64, n: nat,
                                        a: int, i: nat, j: nat)
    requires kind != LD && RandomLine(start, lines, seed, mask, n, a, i, j)
    ensures Written(RandomTrace(kind, start, lines, seed, mask, n), a)
  {
    hide Block, Offset, State;
    var t := RandomTrace(kind, start, lines, seed, mask, n);
    if i < n {
      RandomWrites(kind, start, lines, seed, mask, n - 1, a, i, j);
      var e: Event :| e in RandomTrace(kind, start, lines, seed, mask, n - 1) && e.Writes() && e.addr == a;
      assert e in t;
    } else {
      var base := start + Offset(State(seed, n), mask);
      BlockWrites(kind, base, lines, start, j);
      var e: Event :| e in Block(kind, base, lines, start) && e.Writes() && e.addr == base + 64 * j;
      assert e in t;
    }
  }

  lemma {:induction false} RandomLines(kind: Kind, start: int, lines: nat, seed: bv64, mask: bv64, n: nat, k: nat,
                                       e: Event)
    requires e in RandomTrace(kind, start, lines, seed, mask, k) && e.Writes() && k <= n
    ensures exists i, j :: RandomLine(start, lines, seed, mask, n, e.addr, i, j)
  {
    hide Block, Offset, State;
    if e in RandomTrace(kind, start, lines, seed, mask, k - 1) {
      RandomLines(kind, start, lines, seed, mask, n, k - 1, e);
    } else {
      var base := start + Offset(State(seed, k), mask);
      BlockLines(kind, base, lines, start, e);
      var j: nat :| j < lines && e.addr == base + 64 * j;
      assert RandomLine(start, lines, seed, mask, n, e.addr, k, j);
    }
  }

  /** A storing variant leaves its start address in every line it visits, also where blocks overlap, and
      changes no other line. */
  lemma RandomMemory(mem: Lines, kind: Kind, start: int, lines: nat, seed: bv64, mask: bv64, n: nat, a: int)
    requires kind != LD
    ensures Read(ApplyAll(mem, RandomTrace(kind, start, lines, seed, mask, n)), a) ==
            if exists i, j :: RandomLine(start, lines, seed, mask, n, a, i, j) then start else Read(mem, a)
  {
    hide RandomTrace, ApplyAll, RandomLine;
    var t := RandomTrace(kind, start, lines, seed, mask, n);
    RandomStamps(kind, start, lines, seed, mask, n);
    StampsAgree(t, start);
    AgreeingTrace(mem, t);
    if i: nat, j: nat :| RandomLine(start, lines, seed, mask, n, a, i, j) {
      RandomWrites(kind, start, lines, seed, mask, n, a, i, j);
    } else {
      forall e | e in t && e.Writes()
        ensures e.addr != a
      {
        RandomLines(kind, start, lines, seed, mask, n, n, e);
      }
    }
  }

  lemma {:induction false} RandomLoads(start: int, lines: nat, seed: bv64, mask: bv64, n: nat, e: Event)
    requires e in RandomTrace(LD, start, lines, seed, mask, n)
    ensures !e.Writes()
  {
    hide Block, Offset, State;
    if e in RandomTrace(LD, start, lines, seed, mask, n - 1) {
      RandomLoads(start, lines, seed, mask, n - 1, e);
    } else if e in Block(LD, start + Offset(State(seed, n), mask), lines, start) {
      BlockLoads(start + Offset(State(seed, n), mask), lines, start, e);
    }
  }

  /** The loading variant changes nothing. */
  lemma RandomLoadsOnly(mem: Lines, start: int, lines: nat, seed: bv64, mask: bv64, n: nat)
    ensures ApplyAll(mem, RandomTrace(LD, start, lines, seed, mask, n)) == mem
  {
    hide RandomTrace, ApplyAll;
    var t := RandomTrace(LD, start, lines, seed, mask, n);
    forall e | e in t
      ensures !e.Writes()
    {
      RandomLoads(start, lines, seed, mask, n, e);
    }
    ReadOnly(mem, t);
  }

  // ----- What the variants share -----

  /** All four variants visit the same lines in the same order. */
  lemma {:induction false} SameLines(p: Kind, q: Kind, start: int, lines: nat, seed: bv64, mask: bv64, n: nat)
    ensures Addresses(RandomTrace(p, start, lines, seed, mask, n)) ==
            Addresses(RandomTrace(q, start, lines, seed, mask, n))
  {
    hide Addresses, Block, Step, Offset;
    if n > 0 {
      SameLines(p, q, start, lines, seed, mask, n - 1);
      var base := start + Offset(State(seed, n), mask);
      BlockAddresses(p, base, lines, start);
      BlockAddresses(q, base, lines, start);
      AddressesOfPass(RandomTrace(p, start, lines, seed, mask, n - 1), Block(p, base, lines, start));
      AddressesOfPass(RandomTrace(q, start, lines, seed, mask, n - 1), Block(q, base, lines, start));
    }
  }

  // ----- Splitting a call in two -----

  lemma RandomNext(kind: Kind, start: int, lines: nat, seed: bv64, mask: bv64, n: nat)
    ensures RandomTrace(kind, start, lines, seed, mask, n + 1) ==
            RandomTrace(kind, start, lines, seed, mask, n) +
            Block(kind, start + Offset(State(seed, n + 1), mask), lines, start) + [MFence]
  {
    hide Block, Step, Offset, State;
  }

  lemma {:induction false} RandomConcat(kind: Kind, start: int, lines: nat, seed: bv64, mask: bv64, a: nat, b: nat)
    ensures RandomTrace(kind, start, lines, seed, mask, a) +
            RandomTrace(kind, start, lines, State(seed, a), mask, b) ==
            RandomTrace(kind, start, lines, seed, mask, a + b)
  {
    hide Block, Offset, RandomTrace, State;
    var t := RandomTrace(kind, start, lines, seed, mask, a);
    NothingYet(kind, start, lines, State(seed, a), mask);
    if b > 0 {
      RandomConcat(kind, start, lines, seed, mask, a, b - 1);
      RandomNext(kind, start, lines, State(seed, a), mask, b - 1);
      RandomNext(kind, start, lines, seed, mask, a + b - 1);
      StateAdds(seed, a, b);
      Regroup(t, RandomTrace(kind, start, lines, State(seed, a), mask, b - 1),
              Block(kind, start + Offset(State(seed, a + b), mask), lines, start), MFence);
    }
  }

  lemma {:induction false} RandomLonger(kind: Kind, start: int, lines: nat, seed: bv64, mask: bv64, a: nat, b: nat)
    requires a < b
    ensures |RandomTrace(kind, start, lines, seed, mask, a)| < |RandomTrace(kind, start, lines, seed, mask, b)|
  {
    hide Block, Step, Offset;
    if a < b - 1 {
      RandomLonger(kind, start, lines, seed, mask, a, b - 1);
    }
  }

  /** Both calls have something to do, and rounding them to rounds of four loses nothing. */
  predicate WholeSplit(a: int, b: int) {
    a >= 1 && b >= 1 && (a % 4 == 0 || b % 4 == 0 || a % 4 + b % 4 > 4)
  }

  lemma RoundsAdd(a: int, b: int)
    ensures Accesses(a) + Accesses(b) >= Accesses(a + b)
    ensures Accesses(a) + Accesses(b) == Accesses(a + b) <==> WholeSplit(a, b)
  {
    hide Accesses;
    RoundsOf(a);
    RoundsOf(b);
    RoundsOf(a + b);
    if a >= 1 && b >= 1 {
      RoundsSum(a / 4, a % 4, b / 4, b % 4);
    }
  }

  function RoundsFor(q: nat, r: nat): nat {
    if r == 0 then q else q + 1
  }

  /** Counts split into whole rounds and a rest. */
  lemma RoundsSum(q: nat, r: nat, p: nat, s: nat)
    requires r < 4 && s < 4
    ensures (4 * q + r + 3) / 4 == RoundsFor(q, r) && (4 * p + s + 3) / 4 == RoundsFor(p, s)
    ensures (4 * q + r + 4 * p + s + 3) / 4 == if r + s > 4 then q + p + 2 else RoundsFor(q + p, r + s)
  {
  }

  lemma RoundsOf(a: int)
    ensures Accesses(a) == if a >= 1 then (a + 3) / 4 * 4 else 4
  {
  }

  /** Two calls in a row do the same accesses, and leave the same seed, as one call with the sum of their
      counts, exactly when the rounding to whole rounds of four does not lose one. */
  lemma SplitExactly(kind: Kind, start: int, lines: nat, seed: bv64, mask: bv64, a: int, b: int)
    ensures var t := RandomTrace(kind, start, lines, seed, mask, Accesses(a)) +
                     RandomTrace(kind, start, lines, State(seed, Accesses(a)), mask, Accesses(b));
            t == RandomTrace(kind, start, lines, seed, mask, Accesses(a + b))
            <==> WholeSplit(a, b)
    ensures WholeSplit(a, b) ==>
              State(State(seed, Accesses(a)), Accesses(b)) == State(seed, Accesses(a + b))
  {
    hide RandomTrace, State, Accesses, WholeSplit;
    RoundsAdd(a, b);
    RandomConcat(kind, start, lines, seed, mask, Accesses(a), Accesses(b));
    StateAdds(seed, Accesses(a), Accesses(b));
    if Accesses(a) + Accesses(b) != Accesses(a + b) {
      RandomLonger(kind, start, lines, seed, mask, Accesses(a + b), Accesses(a) + Accesses(b));
    }
  }
}
