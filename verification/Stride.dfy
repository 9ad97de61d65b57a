/** The strided and sequential kernels of OptaneStudy/src/memaccess.c: `stride_load`, `stride_nt`,
    `stride_store`, `stride_storeclwb` (of which `clwb_nt_mixed` is a copy), `stride_read_after_write`
    and `seq_*`.  They differ in the access macro only, which is a parameter here. */
module Stride {
  import opened Loops
  import opened Memory

  /** The access macros SIZEBTLD, SIZEBTNT, SIZEBTST and SIZEBTSTFLUSH. */
  datatype Kind = LD | NT | ST | STFLUSH

  function Access(kind: Kind, a: int, word: int): seq<Event> {
    match kind
    case LD => [Load(a)]
    case NT => [NtStore(a, word)]
    case ST => [Store(a, word)]
    case STFLUSH => [Store(a, word), Clwb(a)]
  }

  /** Accesses to `n` consecutive lines. */
  function Block(kind: Kind, base: int, n: nat, word: int): seq<Event> {
    if n == 0 then [] else Block(kind, base, n - 1, word) + Access(kind, base + 64 * (n - 1), word)
  }

  /** `k` blocks of `n` lines, each followed by a fence. */
  function StrideTrace(kind: Kind, start: int, n: nat, skip: int, k: nat): seq<Event> {
    if k == 0 then []
    else StrideTrace(kind, start, n, skip, k - 1) + Block(kind, Base(start, skip, k - 1), n, start) + [MFence]
  }

  /** The combined kernel: each block is stored and written back, then stored around the cache. */
  function RawTrace(start: int, n: nat, skip: int, k: nat): seq<Event> {
    if k == 0 then []
    else
      var b := Base(start, skip, k - 1);
      RawTrace(start, n, skip, k - 1) +
      (Block(STFLUSH, b, n, start) + [MFence] + Block(NT, b, n, start) + [MFence])
  }

  // ----- Loading changes nothing -----

  lemma {:induction false} BlockLoads(base: int, n: nat, word: int, e: Event)
    requires e in Block(LD, base, n, word)
    ensures !e.Writes()
  {
    if e in Block(LD, base, n - 1, word) {
      BlockLoads(base, n - 1, word, e);
    }
  }

  lemma {:induction false} StrideLoads(start: int, n: nat, skip: int, k: nat, e: Event)
    requires e in StrideTrace(LD, start, n, skip, k)
    ensures !e.Writes()
  {
    hide Block;
    if e in StrideTrace(LD, start, n, skip, k - 1) {
      StrideLoads(start, n, skip, k - 1, e);
    } else if e in Block(LD, Base(start, skip, k - 1), n, start) {
      BlockLoads(Base(start, skip, k - 1), n, start, e);
    }
  }

  /** The load kernel leaves every memory as it is. */
  lemma StrideLoadsOnly(mem: Lines, start: int, n: nat, skip: int, k: nat)
    ensures ApplyAll(mem, StrideTrace(LD, start, n, skip, k)) == mem
  {
    hide StrideTrace, ApplyAll;
    var t := StrideTrace(LD, start, n, skip, k);
    forall e | e in t
      ensures !e.Writes()
    {
      StrideLoads(start, n, skip, k, e);
    }
    ReadOnly(mem, t);
  }

  // ----- The kernels -----

  /** One access macro, unrolled over `lines` lines, after `n` lines of the block. */
  method Unrolled(m: Machine, kind: Kind, r9: int, r10: int, lines: nat, word: int,
                  ghost n: nat, ghost before: seq<Event>)
    returns (r10': int)
    requires m.Valid() && r10 == 64 * n && m.trace == before + Block(kind, r9, n, word)
    modifies m
    ensures m.Valid() && m.boot == old(m.boot) && r10' == 64 * (n + lines)
    ensures m.trace == before + Block(kind, r9, n + lines, word)
  {
    hide ApplyAll;
    for i := 0 to lines
      invariant m.Valid() && m.boot == old(m.boot)
      invariant m.trace == before + Block(kind, r9, n + i, word)
    {
      var a := r9 + r10 + 0x40 * i;
      match kind {
        case LD => m.Issue(Load(a));
        case NT => m.Issue(NtStore(a, word));
        case ST => m.Issue(Store(a, word));
        case STFLUSH => m.Issue(Store(a, word)); m.Issue(Clwb(a));
      }
    }
    r10' := r10 + 0x40 * lines;
  }

  /** The inner loop: `lines` lines a round until `size` bytes are accessed. */
  method Inner(m: Machine, kind: Kind, r9: int, size: int, lines: nat, word: int)
    requires m.Valid() && lines > 0
    modifies m
    ensures m.Valid() && m.boot == old(m.boot)
    ensures m.trace == old(m.trace) + Block(kind, r9, LinesPerBlock(size, lines), word)
  {
    hide ApplyAll;
    var r10 := 0;
    ghost var k: nat := 0;
    var again := true;
    while again
      invariant m.Valid() && m.boot == old(m.boot) && r10 == 64 * Times(k, lines)
      invariant if again then k < Trips(size, 64 * lines) else k == Trips(size, 64 * lines)
      invariant m.trace == old(m.trace) + Block(kind, r9, Times(k, lines), word)
      decreases Trips(size, 64 * lines) - k, again
    {
      r10 := Unrolled(m, kind, r9, r10, lines, word, Times(k, lines), old(m.trace));
      k := k + 1;
      again := r10 < size;
      RoundDone(size, lines, k);
    }
  }

  /** Lines the inner loop accesses when its body is unrolled over `lines` lines. */
  function LinesPerBlock(size: int, lines: nat): (n: nat)
    requires lines > 0
  {
    Times(Trips(size, 64 * lines), lines)
  }

  /** LOOP_*_DELAY: touches nothing. */
  method Delay(delay: int) {
    var r10 := 1;
    while r10 < delay {
      r10 := r10 + 1;
    }
  }

  /** `stride_load`, `stride_nt`, `stride_store` and `stride_storeclwb`. */
  method StrideKernel(m: Machine, kind: Kind, start: int, size: int, skip: int, delay: int, count: int)
    requires m.Valid()
    modifies m
    ensures m.Valid() && m.boot == old(m.boot)
    ensures m.trace == old(m.trace) + StrideTrace(kind, start, LinesPerBlock(size, 1), skip, Trips(count, 1))
    ensures kind == LD ==> m.mem == old(m.mem)
  {
    hide ApplyAll, Block;
    ghost var n, t := LinesPerBlock(size, 1), [];
    var r8, r11 := 0, 0;
    var again := true;
    while again
      invariant m.Valid() && m.boot == old(m.boot)
      invariant 0 <= r11 && start + r8 == Base(start, skip, r11)
      invariant if again then r11 < Trips(count, 1) else r11 == Trips(count, 1)
      invariant m.trace == old(m.trace) + t && t == StrideTrace(kind, start, n, skip, r11)
      decreases Trips(count, 1) - r11, again
    {
      Inner(m, kind, start + r8, size, 1, start);
      m.Issue(MFence);
      Regroup(old(m.trace), t, Block(kind, start + r8, n, start), MFence);
      t := t + Block(kind, start + r8, n, start) + [MFence];
      Delay(delay);
      r8, r11 := r8 + skip, r11 + 1;
      again := r11 < count;
      LoopTest(count, 1, r11);
    }
    ApplyConcat(m.boot, old(m.trace), t);
    StrideLoadsOnly(old(m.mem), start, n, skip, r11);
  }

  lemma RegroupPair(t: seq<Event>, u: seq<Event>, f: seq<Event>, g: seq<Event>, e: Event)
    ensures t + u + f + [e] + g + [e] == t + (u + (f + [e] + g + [e]))
  {
  }

  /** `stride_read_after_write`: both inner loops store; the second bypasses the cache. */
  method StrideReadAfterWrite(m: Machine, start: int, size: int, skip: int, delay: int, count: int)
    requires m.Valid()
    modifies m
    ensures m.Valid() && m.boot == old(m.boot)
    ensures m.trace == old(m.trace) + RawTrace(start, LinesPerBlock(size, 1), skip, Trips(count, 1))
  {
    hide ApplyAll, Block;
    ghost var n, t := LinesPerBlock(size, 1), [];
    var r8, r11 := 0, 0;
    var again := true;
    while again
      invariant m.Valid() && m.boot == old(m.boot)
      invariant 0 <= r11 && start + r8 == Base(start, skip, r11)
      invariant if again then r11 < Trips(count, 1) else r11 == Trips(count, 1)
      invariant m.trace == old(m.trace) + t && t == RawTrace(start, n, skip, r11)
      decreases Trips(count, 1) - r11, again
    {
      ghost var f, g := Block(STFLUSH, start + r8, n, start), Block(NT, start + r8, n, start);
      Inner(m, STFLUSH, start + r8, size, 1, start);
      m.Issue(MFence);
      Inner(m, NT, start + r8, size, 1, start);
      m.Issue(MFence);
      RegroupPair(old(m.trace), t, f, g, MFence);
      t := t + (f + [MFence] + g + [MFence]);
      Delay(delay);
      r8, r11 := r8 + skip, r11 + 1;
      again := r11 < count;
      LoopTest(count, 1, r11);
    }
  }

  // ----- What the traces are -----

  lemma {:induction false} BlockConcat(kind: Kind, base: int, n: nat, k: nat, word: int)
    ensures Block(kind, base, n, word) + Block(kind, base + 64 * n, k, word) == Block(kind, base, n + k, word)
  {
    if k > 0 {
      BlockConcat(kind, base, n, k - 1, word);
      assert base + 64 * n + 64 * (k - 1) == base + 64 * (n + k - 1);
    }
  }

  /** The lines from `base` on, in ascending order. */
  function Ascending(base: int, n: nat): seq<int> {
    seq(n, (j: nat) => base + 64 * j)
  }

  lemma {:induction false} BlockAddresses(kind: Kind, base: int, n: nat, word: int)
    ensures Addresses(Block(kind, base, n, word)) == Ascending(base, n)
  {
    hide Addresses;
    if n == 0 {
      NoAddresses();
    } else {
      BlockAddresses(kind, base, n - 1, word);
      AddressesOfAccess(Block(kind, base, n - 1, word), kind, base + 64 * (n - 1), word);
    }
  }

  lemma AddressesOfAccess(t: seq<Event>, kind: Kind, a: int, word: int)
    ensures Addresses(t + Access(kind, a, word)) == Addresses(t) + [a]
  {
    var u := t + Access(kind, a, word);
    assert u[..|t|] == t;
    if kind == STFLUSH {
      assert u[..|t| + 1] == t + [Store(a, word)];
      assert (t + [Store(a, word)])[..|t|] == t;
    }
  }

  /** Every store puts the same word. */
  ghost predicate Stamps(t: seq<Event>, word: int) {
    forall e :: e in t && e.Writes() ==> e.word == word
  }

  lemma StampsAgree(t: seq<Event>, word: int)
    requires Stamps(t, word)
    ensures Agree(t)
  {
  }

  lemma {:induction false} BlockStamps(kind: Kind, base: int, n: nat, word: int)
    ensures Stamps(Block(kind, base, n, word), word)
  {
    if n > 0 {
      BlockStamps(kind, base, n - 1, word);
    }
  }

  lemma {:induction false} StrideStamps(kind: Kind, start: int, n: nat, skip: int, k: nat)
    ensures Stamps(StrideTrace(kind, start, n, skip, k), start)
  {
    hide Block;
    if k > 0 {
      StrideStamps(kind, start, n, skip, k - 1);
      BlockStamps(kind, Base(start, skip, k - 1), n, start);
    }
  }

  lemma {:induction false} BlockWithin(kind: Kind, base: int, n: nat, word: int, e: Event)
    requires e in Block(kind, base, n, word) && e.Writes()
    ensures base <= e.addr < base + 64 * n
  {
    if e in Block(kind, base, n - 1, word) {
      BlockWithin(kind, base, n - 1, word, e);
    }
  }

  lemma {:induction false} StrideWithin(kind: Kind, start: int, n: nat, skip: nat, k: nat, e: Event)
    requires 64 * n <= skip && e in StrideTrace(kind, start, n, skip, k) && e.Writes()
    ensures start <= e.addr < Base(start, skip, k)
  {
    hide Block;
    BaseIs(start, skip, k - 1);
    Scale(skip, 0, k - 1);
    if e in StrideTrace(kind, start, n, skip, k - 1) {
      StrideWithin(kind, start, n, skip, k - 1, e);
    } else {
      BlockWithin(kind, Base(start, skip, k - 1), n, start, e);
    }
  }

  lemma {:induction false} BlockWrites(kind: Kind, base: int, n: nat, word: int, j: nat)
    requires j < n && kind != LD
    ensures exists e :: e in Block(kind, base, n, word) && e.Writes() && e.addr == base + 64 * j
  {
    if j < n - 1 {
      BlockWrites(kind, base, n - 1, word, j);
    } else {
      var a := Access(kind, base + 64 * j, word);
      assert a[0] in Block(kind, base, n, word);
    }
  }

  lemma {:induction false} StrideWrites(kind: Kind, start: int, n: nat, skip: int, count: nat, k: nat, j: nat)
    requires k < count && j < n && kind != LD
    ensures exists e :: e in StrideTrace(kind, start, n, skip, count) && e.Writes() &&
                        e.addr == Base(start, skip, k) + 64 * j
  {
    hide Block;
    if k < count - 1 {
      StrideWrites(kind, start, n, skip, count - 1, k, j);
    } else {
      BlockWrites(kind, Base(start, skip, k), n, start, j);
    }
  }

  lemma {:induction false} BlockLines(kind: Kind, base: int, n: nat, word: int, e: Event)
    requires e in Block(kind, base, n, word) && e.Writes()
    ensures exists j: nat :: j < n && e.addr == base + 64 * j
  {
    if e in Block(kind, base, n - 1, word) {
      BlockLines(kind, base, n - 1, word, e);
    } else {
      assert e.addr == base + 64 * (n - 1);
    }
  }

  // ----- What a strided kernel leaves -----

  ghost predicate LineAt(start: int, n: nat, skip: int, count: nat, a: int, k: nat, j: nat) {
    k < count && j < n && a == Base(start, skip, k) + 64 * j
  }

  lemma {:induction false} StrideLines(kind: Kind, start: int, n: nat, skip: int, count: nat, k: nat, e: Event)
    requires e in StrideTrace(kind, start, n, skip, k) && e.Writes() && k <= count
    ensures exists i, j :: LineAt(start, n, skip, count, e.addr, i, j)
  {
    hide Block;
    if e in StrideTrace(kind, start, n, skip, k - 1) {
      StrideLines(kind, start, n, skip, count, k - 1, e);
    } else {
      BlockLines(kind, Base(start, skip, k - 1), n, start, e);
      var j: nat :| j < n && e.addr == Base(start, skip, k - 1) + 64 * j;
      assert LineAt(start, n, skip, count, e.addr, k - 1, j);
    }
  }

  /** A storing kernel puts its start address into every line of every block, overlapping or not, and
      changes no other line. */
  lemma StrideMemory(mem: Lines, kind: Kind, start: int, n: nat, skip: int, count: nat, a: int)
    requires kind != LD
    ensures Read(ApplyAll(mem, StrideTrace(kind, start, n, skip, count)), a) ==
            if exists k, j :: LineAt(start, n, skip, count, a, k, j) then start else Read(mem, a)
  {
    hide StrideTrace, ApplyAll;
    var t := StrideTrace(kind, start, n, skip, count);
    StrideStamps(kind, start, n, skip, count);
    StampsAgree(t, start);
    AgreeingTrace(mem, t);
    if k, j :| LineAt(start, n, skip, count, a, k, j) {
      StrideWrites(kind, start, n, skip, count, k, j);
    } else {
      forall e | e in t && e.Writes()
        ensures e.addr != a
      {
        StrideLines(kind, start, n, skip, count, count, e);
      }
    }
  }

  // ----- Loop fusion -----

  lemma Shuffle(r: seq<Event>, s: seq<Event>, f: seq<Event>, l: seq<Event>, g: seq<Event>, e: Event)
    requires multiset(r) == multiset(s + l)
    ensures multiset(r + (f + [e] + g + [e])) == multiset((s + f + [e]) + (l + g + [e]))
  {
  }

  /** The combined kernel issues exactly the events of the two separate kernels, for every block size,
      stride (overlapping or not) and count. */
  lemma {:induction false} FusionEvents(start: int, n: nat, skip: int, k: nat)
    ensures multiset(RawTrace(start, n, skip, k)) ==
            multiset(StrideTrace(STFLUSH, start, n, skip, k) + StrideTrace(NT, start, n, skip, k))
  {
    hide Block, Base;
    if k > 0 {
      FusionEvents(start, n, skip, k - 1);
      var f, g := Block(STFLUSH, Base(start, skip, k - 1), n, start), Block(NT, Base(start, skip, k - 1), n, start);
      var s, l := StrideTrace(STFLUSH, start, n, skip, k - 1), StrideTrace(NT, start, n, skip, k - 1);
      Shuffle(RawTrace(start, n, skip, k - 1), s, f, l, g, MFence);
    }
  }

  /** raw-separate and raw-combined leave the same memory. */
  lemma FusionMemory(mem: Lines, start: int, n: nat, skip: int, k: nat)
    ensures ApplyAll(mem, RawTrace(start, n, skip, k) + [MFence]) ==
            ApplyAll(mem, StrideTrace(STFLUSH, start, n, skip, k) + [MFence]
                          + StrideTrace(NT, start, n, skip, k) + [MFence])
  {
    hide RawTrace, StrideTrace, ApplyAll;
    var r := RawTrace(start, n, skip, k);
    var s, l := StrideTrace(STFLUSH, start, n, skip, k), StrideTrace(NT, start, n, skip, k);
    FusionEvents(start, n, skip, k);
    StrideStamps(STFLUSH, start, n, skip, k);
    StrideStamps(NT, start, n, skip, k);
    var t, u := r + [MFence], s + [MFence] + l + [MFence];
    forall e
      ensures e in t <==> e in u
    {
      assert e in r <==> e in multiset(r);
      assert e in s + l <==> e in multiset(s + l);
    }
    StampsAgree(t, start);
    SameEventsSameMemory(mem, t, u);
  }

  // ----- Unrolling -----

  /** An inner loop unrolled over two lines or more accesses the lines of the plain one exactly when the
      number of lines asked for is a positive multiple of the lines in its body. */
  lemma UnrollExact(kind: Kind, base: int, size: int, lines: nat, word: int)
    requires lines >= 2
    ensures Addresses(Block(kind, base, LinesPerBlock(size, lines), word)) ==
            Addresses(Block(kind, base, LinesPerBlock(size, 1), word))
            <==> size > 0 && (size + 63) / 64 % lines == 0
  {
    hide LinesPerBlock, Block, Addresses;
    var n, k := LinesPerBlock(size, lines), LinesPerBlock(size, 1);
    BlockAddresses(kind, base, n, word);
    BlockAddresses(kind, base, k, word);
    assert |Ascending(base, n)| == n && |Ascending(base, k)| == k;
    LinesUnrolled(size, lines);
  }

  lemma LinesUnrolled(size: int, lines: nat)
    requires lines >= 2
    ensures LinesPerBlock(size, lines) == LinesPerBlock(size, 1) <==> size > 0 && (size + 63) / 64 % lines == 0
  {
    PlainLines(size);
    if size <= 0 {
      assert Times(0, lines) == 0;
      assert Trips(size, 64 * lines) == 1 && Times(1, lines) == lines;
    } else {
      PartialLine(size, lines);
      WholeBlocks((size + 63) / 64, lines);
    }
  }

  lemma PlainLines(size: int)
    ensures LinesPerBlock(size, 1) == if size > 0 then (size + 63) / 64 else 1
  {
    TimesIsProduct(Trips(size, 64), 1);
  }

  /** A last line asked for in part takes as many rounds as a whole one. */
  lemma PartialLine(size: int, lines: nat)
    requires size > 0 && lines > 0
    ensures Trips(size, 64 * lines) == Trips(64 * ((size + 63) / 64), 64 * lines)
  {
    hide Trips;
    var whole := 64 * ((size + 63) / 64);
    var k := Trips(whole, 64 * lines);
    TripsBounds(whole, 64 * lines);
    TripsBounds(size, 64 * lines);
    RoundBytes(k, lines);
    RoundBytes(k - 1, lines);
    LeastTrips(size, 64 * lines, k);
  }

  // ----- seq_* -----

  /** `k` blocks at a distance of `size`, without fences. */
  function SeqTrace(kind: Kind, start: int, size: int, n: nat, k: nat): seq<Event> {
    if k == 0 then []
    else SeqTrace(kind, start, size, n, k - 1) + Block(kind, Base(start, size, k - 1), n, start)
  }

  lemma {:induction false} SeqLoads(start: int, size: int, n: nat, k: nat, e: Event)
    requires e in SeqTrace(LD, start, size, n, k)
    ensures !e.Writes()
  {
    hide Block;
    if e in SeqTrace(LD, start, size, n, k - 1) {
      SeqLoads(start, size, n, k - 1, e);
    } else {
      BlockLoads(Base(start, size, k - 1), n, start, e);
    }
  }

  lemma SeqLoadsOnly(mem: Lines, start: int, size: int, n: nat, k: nat)
    ensures ApplyAll(mem, SeqTrace(LD, start, size, n, k)) == mem
  {
    hide SeqTrace, ApplyAll;
    var t := SeqTrace(LD, start, size, n, k);
    forall e | e in t
      ensures !e.Writes()
    {
      SeqLoads(start, size, n, k, e);
    }
    ReadOnly(mem, t);
  }

  /** Whether the outer loop ever reaches the end: a block size of 0 or less does not advance, which does
      no harm when the first block is the last. */
  predicate SeqEnds(start: int, end: int, size: int) {
    size > 0 || start + size >= end
  }

  /** Rounds of the outer loop, when it ends. */
  function SeqRounds(start: int, end: int, size: int): (k: nat)
    ensures k >= 1
  {
    if size > 0 then Trips(end - start, size) else 1
  }

  lemma SeqTest(start: int, end: int, size: int, k: nat)
    requires SeqEnds(start, end, size) && 1 <= k <= SeqRounds(start, end, size)
    ensures if Base(start, size, k) < end then k < SeqRounds(start, end, size) else k == SeqRounds(start, end, size)
  {
    BaseIs(start, size, k);
    if size > 0 {
      assert size * k == k * size;
      LoopTest(end - start, size, k);
    }
  }

  /** The outer loop ends, after some round, exactly under that condition. */
  lemma SeqEndsExactly(start: int, end: int, size: int)
    ensures (exists k: nat :: k >= 1 && Base(start, size, k) >= end) <==> SeqEnds(start, end, size)
  {
    if SeqEnds(start, end, size) {
      var k := SeqRounds(start, end, size);
      SeqTest(start, end, size, k);
      assert Base(start, size, k) >= end;
    } else {
      forall k: nat | k >= 1
        ensures Base(start, size, k) < end
      {
        BaseStays(start, size, k);
      }
    }
  }

  lemma {:induction false} BaseStays(start: int, size: int, k: nat)
    requires size <= 0 && k >= 1
    ensures Base(start, size, k) <= start + size
  {
    if k > 1 {
      BaseStays(start, size, k - 1);
    } else {
      assert Base(start, size, 0) == start;
    }
  }

  /** `seq_load`, `seq_store`, `seq_clwb` and `seq_nt`. */
  method SeqKernel(m: Machine, kind: Kind, start: int, end: int, size: int)
    requires m.Valid() && SeqEnds(start, end, size)
    modifies m
    ensures m.Valid() && m.boot == old(m.boot)
    ensures m.trace == old(m.trace) +
                       SeqTrace(kind, start, size, LinesPerBlock(size, 1), SeqRounds(start, end, size))
    ensures kind == LD ==> m.mem == old(m.mem)
  {
    hide ApplyAll, Block, SeqEnds, SeqRounds;
    ghost var n, k, t := LinesPerBlock(size, 1), 0, [];
    var r9 := start;
    var again := true;
    while again
      invariant m.Valid() && m.boot == old(m.boot)
      invariant 0 <= k && r9 == Base(start, size, k)
      invariant if again then k < SeqRounds(start, end, size) else k == SeqRounds(start, end, size)
      invariant m.trace == old(m.trace) + t && t == SeqTrace(kind, start, size, n, k)
      decreases SeqRounds(start, end, size) - k, again
    {
      Inner(m, kind, r9, size, 1, start);
      assert old(m.trace) + t + Block(kind, r9, n, start) == old(m.trace) + (t + Block(kind, r9, n, start));
      t := t + Block(kind, r9, n, start);
      r9, k := r9 + size, k + 1;
      again := r9 < end;
      SeqTest(start, end, size, k);
    }
    ApplyConcat(m.boot, old(m.trace), t);
    SeqLoadsOnly(old(m.mem), start, size, n, k);
  }

  lemma {:induction false} SeqIsBlock(kind: Kind, start: int, n: nat, k: nat)
    ensures SeqTrace(kind, start, 64 * n, n, k) == Block(kind, start, Times(k, n), start)
    ensures Base(start, 64 * n, k) == start + 64 * Times(k, n)
  {
    hide Block;
    if k == 0 {
      BlockConcat(kind, start, 0, 0, start);
      EmptyBlock(kind, start, start);
    } else {
      SeqIsBlock(kind, start, n, k - 1);
      BlockConcat(kind, start, Times(k - 1, n), n, start);
    }
  }

  lemma EmptyBlock(kind: Kind, base: int, word: int)
    ensures Block(kind, base, 0, word) == []
  {
  }

  /** A whole number of lines is covered by whole blocks exactly when the block size divides it. */
  lemma WholeBlocks(lines: nat, n: nat)
    requires n > 0 && lines > 0
    ensures Times(Trips(64 * lines, 64 * n), n) == lines <==> lines % n == 0
  {
    hide Trips, Times;
    var k := Trips(64 * lines, 64 * n);
    TripsBounds(64 * lines, 64 * n);
    RoundBytes(k, n);
    RoundBytes(k - 1, n);
    TimesIsProduct(k, n);
    if Times(k, n) == lines {
      MultipleMod(k, n);
    }
    if lines % n == 0 {
      TimesIsProduct(lines / n, n);
      ExactQuotient(lines, n);
      LeastCover(n, k, lines / n);
    }
  }

  lemma ExactQuotient(x: nat, n: nat)
    requires n > 0 && x % n == 0
    ensures x / n * n == x
  {
  }

  /** The first number of rounds that covers what `q` rounds cover exactly is `q`. */
  lemma LeastCover(n: nat, k: nat, q: nat)
    requires n > 0 && k >= 1
    requires Times(k, n) >= Times(q, n) && (k == 1 || Times(k - 1, n) < Times(q, n))
    ensures Times(k, n) == Times(q, n) || Times(q, n) == 0
  {
    if q >= k {
      TimesGrows(k, q, n);
    } else if q > 0 {
      TimesGrows(q, k - 1, n);
    }
  }

  /** `seq_*` touches every line of [start, end) once, in ascending order, and nothing else, exactly
      when its block size divides the length of the range. */
  lemma SeqCovers(kind: Kind, start: int, lines: nat, n: nat)
    requires n > 0 && lines > 0
    ensures var k := SeqRounds(start, start + 64 * lines, 64 * n);
            Addresses(SeqTrace(kind, start, 64 * n, LinesPerBlock(64 * n, 1), k)) == Ascending(start, lines)
            <==> lines % n == 0
  {
    hide Block, Addresses;
    var k := Trips(64 * lines, 64 * n);
    TimesIsProduct(Trips(64 * n, 64), 1);
    assert LinesPerBlock(64 * n, 1) == n;
    SeqIsBlock(kind, start, n, k);
    BlockAddresses(kind, start, Times(k, n), start);
    WholeBlocks(lines, n);
    assert |Ascending(start, Times(k, n))| == Times(k, n) && |Ascending(start, lines)| == lines;
  }
}
