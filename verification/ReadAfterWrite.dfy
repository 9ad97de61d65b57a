/** OptaneStudy/microbenchmark/read_after_write.cpp: storing one buffer and then the other in one go
    (Task1 and Task3), against alternating between them in chunks of `grn` lines (Task2 and Task4). */
module ReadAfterWrite {
  import opened Loops
  import opened Memory
  import opened Stride

  const ACCESS_SIZE := 64
  const STRIDE_SIZE := 64
  const DELAY := 200

  // ----- The tasks -----

  function WholeTrace(buf1: int, buf2: int, count: nat): seq<Event> {
    StrideTrace(STFLUSH, buf1, 1, STRIDE_SIZE, count) + StrideTrace(NT, buf2, 1, STRIDE_SIZE, count)
  }

  /** Chunk `i` of a buffer, in one stride. */
  function Chunk(kind: Kind, buf: int, grn: nat, i: nat): seq<Event> {
    StrideTrace(kind, Base(buf, 64 * grn, i), grn, 0, 1)
  }

  function ChunkTrace(buf1: int, buf2: int, grn: nat, chunks: nat): seq<Event> {
    if chunks == 0 then []
    else ChunkTrace(buf1, buf2, grn, chunks - 1) +
         (Chunk(STFLUSH, buf1, grn, chunks - 1) + Chunk(NT, buf2, grn, chunks - 1))
  }

  lemma GrainLines(grn: nat)
    requires grn >= 1
    ensures LinesPerBlock(64 * grn, 1) == grn && LinesPerBlock(64, 1) == 1 && Trips(1, 1) == 1
  {
    TimesIsProduct(Trips(64 * grn, 64), 1);
    TimesIsProduct(Trips(64, 64), 1);
  }

  method WholeTask(m: Machine, buf1: int, buf2: int, count: nat)
    requires m.Valid() && count >= 1
    modifies m
    ensures m.Valid() && m.boot == old(m.boot)
    ensures m.trace == old(m.trace) + WholeTrace(buf1, buf2, count) + [MFence]
  {
    hide ApplyAll, StrideTrace;
    GrainLines(1);
    StrideKernel(m, STFLUSH, buf1, ACCESS_SIZE, STRIDE_SIZE, DELAY, count);
    StrideKernel(m, NT, buf2, ACCESS_SIZE, STRIDE_SIZE, DELAY, count);
    m.Issue(MFence);
  }

  method ChunkTask(m: Machine, buf1: int, buf2: int, count: nat, grn: nat)
    requires m.Valid() && grn >= 1
    modifies m
    ensures m.Valid() && m.boot == old(m.boot)
    ensures m.trace == old(m.trace) + ChunkTrace(buf1, buf2, grn, count / grn) + [MFence]
  {
    hide ApplyAll, StrideTrace;
    GrainLines(grn);
    ghost var t := [];
    for i := 0 to count / grn
      invariant m.Valid() && m.boot == old(m.boot)
      invariant m.trace == old(m.trace) + t && t == ChunkTrace(buf1, buf2, grn, i)
    {
      BaseIs(buf1, 64 * grn, i);
      BaseIs(buf2, 64 * grn, i);
      assert i * grn * STRIDE_SIZE == i * (64 * grn);
      StrideKernel(m, STFLUSH, buf1 + i * grn * STRIDE_SIZE, grn * ACCESS_SIZE, 0, DELAY, 1);
      StrideKernel(m, NT, buf2 + i * grn * STRIDE_SIZE, grn * ACCESS_SIZE, 0, DELAY, 1);
      ghost var p, q := Chunk(STFLUSH, buf1, grn, i), Chunk(NT, buf2, grn, i);
      assert old(m.trace) + t + p + q == old(m.trace) + (t + (p + q));
      t := t + (p + q);
    }
    m.Issue(MFence);
  }

  /** The raw-separate job. */
  method RawSeparate(m: Machine, buf: int, count: nat)
    requires m.Valid() && count >= 1
    modifies m
    ensures m.Valid() && m.boot == old(m.boot)
    ensures m.trace == old(m.trace) + (StrideTrace(STFLUSH, buf, 1, STRIDE_SIZE, count) + [MFence]
                                       + StrideTrace(NT, buf, 1, STRIDE_SIZE, count) + [MFence])
  {
    hide ApplyAll, StrideTrace;
    GrainLines(1);
    StrideKernel(m, STFLUSH, buf, ACCESS_SIZE, STRIDE_SIZE, DELAY, count);
    m.Issue(MFence);
    StrideKernel(m, NT, buf, ACCESS_SIZE, STRIDE_SIZE, DELAY, count);
    m.Issue(MFence);
  }

  /** The raw-combined job. */
  method RawCombined(m: Machine, buf: int, count: nat)
    requires m.Valid() && count >= 1
    modifies m
    ensures m.Valid() && m.boot == old(m.boot)
    ensures m.trace == old(m.trace) + (RawTrace(buf, 1, STRIDE_SIZE, count) + [MFence])
  {
    hide ApplyAll, RawTrace;
    GrainLines(1);
    StrideReadAfterWrite(m, buf, ACCESS_SIZE, STRIDE_SIZE, DELAY, count);
    m.Issue(MFence);
  }

  // ----- The order of the lines -----

  /** The lines stored through the cache (`nt` false) or around it (`nt` true), in order. */
  function Stored(t: seq<Event>, nt: bool): seq<int> {
    if t == [] then []
    else
      var e := t[|t| - 1];
      Stored(t[..|t| - 1], nt) +
      if e.Store? && !nt then [e.addr] else if e.NtStore? && nt then [e.addr] else []
  }

  lemma {:induction false} StoredConcat(t: seq<Event>, u: seq<Event>, nt: bool)
    ensures Stored(t + u, nt) == Stored(t, nt) + Stored(u, nt)
  {
    if u == [] {
      assert t + u == t;
    } else {
      StoredConcat(t, u[..|u| - 1], nt);
      assert (t + u)[..|t + u| - 1] == t + u[..|u| - 1];
    }
  }

  lemma StoredOne(kind: Kind, a: int, word: int, nt: bool)
    requires kind == NT || kind == STFLUSH
    ensures Stored(Access(kind, a, word), nt) == if nt == (kind == NT) then [a] else []
    ensures Stored([MFence], nt) == [] && Stored([], nt) == []
  {
    if kind == STFLUSH {
      assert Access(kind, a, word)[..1] == [Store(a, word)];
      assert Stored([Store(a, word)], nt) == if nt then [] else [a];
    }
  }

  lemma {:induction false} StoredBlock(kind: Kind, base: int, n: nat, word: int, nt: bool)
    requires kind == NT || kind == STFLUSH
    ensures Stored(Block(kind, base, n, word), nt) == if nt == (kind == NT) then Ascending(base, n) else []
  {
    hide Stored;
    StoredOne(kind, base + 64 * (n - 1), word, nt);
    if n > 0 {
      StoredBlock(kind, base, n - 1, word, nt);
      StoredConcat(Block(kind, base, n - 1, word), Access(kind, base + 64 * (n - 1), word), nt);
    }
  }

  /** `k` blocks that touch each other are one ascending run. */
  lemma {:induction false} StoredStride(kind: Kind, start: int, n: nat, k: nat, nt: bool)
    requires kind == NT || kind == STFLUSH
    ensures Stored(StrideTrace(kind, start, n, 64 * n, k), nt)
            == if nt == (kind == NT) then Ascending(start, Times(k, n)) else []
    ensures Base(start, 64 * n, k) == start + 64 * Times(k, n)
  {
    hide Stored, Block;
    StoredOne(kind, 0, 0, nt);
    if k > 0 {
      var b := Block(kind, Base(start, 64 * n, k - 1), n, start);
      var t := StrideTrace(kind, start, n, 64 * n, k - 1);
      StoredStride(kind, start, n, k - 1, nt);
      StoredBlock(kind, Base(start, 64 * n, k - 1), n, start, nt);
      StoredConcat(t, b, nt);
      StoredConcat(t + b, [MFence], nt);
    }
  }

  lemma StoredChunk(kind: Kind, buf: int, grn: nat, i: nat, nt: bool)
    requires kind == NT || kind == STFLUSH
    ensures Stored(Chunk(kind, buf, grn, i), nt)
            == if nt == (kind == NT) then Ascending(Base(buf, 64 * grn, i), grn) else []
  {
    hide Stored, Block;
    var start := Base(buf, 64 * grn, i);
    var b := Block(kind, start, grn, start);
    assert StrideTrace(kind, start, grn, 0, 0) == [] && Chunk(kind, buf, grn, i) == b + [MFence];
    StoredOne(kind, 0, 0, nt);
    StoredBlock(kind, start, grn, start, nt);
    StoredConcat(b, [MFence], nt);
  }

  lemma {:induction false} StoredChunks(buf1: int, buf2: int, grn: nat, chunks: nat, nt: bool)
    ensures Stored(ChunkTrace(buf1, buf2, grn, chunks), nt)
            == Ascending(if nt then buf2 else buf1, Times(chunks, grn))
    ensures Base(if nt then buf2 else buf1, 64 * grn, chunks) == (if nt then buf2 else buf1) + 64 * Times(chunks, grn)
  {
    hide Stored, StrideTrace;
    StoredOne(NT, 0, 0, nt);
    if chunks > 0 {
      var t := ChunkTrace(buf1, buf2, grn, chunks - 1);
      var p, q := Chunk(STFLUSH, buf1, grn, chunks - 1), Chunk(NT, buf2, grn, chunks - 1);
      StoredChunks(buf1, buf2, grn, chunks - 1, nt);
      StoredChunk(STFLUSH, buf1, grn, chunks - 1, nt);
      StoredChunk(NT, buf2, grn, chunks - 1, nt);
      StoredConcat(p, q, nt);
      StoredConcat(t, p + q, nt);
    }
  }

  lemma StoredWhole(buf1: int, buf2: int, count: nat, nt: bool)
    ensures Stored(WholeTrace(buf1, buf2, count), nt) == Ascending(if nt then buf2 else buf1, count)
  {
    hide Stored, StrideTrace;
    StoredStride(STFLUSH, buf1, 1, count, nt);
    StoredStride(NT, buf2, 1, count, nt);
    StoredConcat(StrideTrace(STFLUSH, buf1, 1, 64, count), StrideTrace(NT, buf2, 1, 64, count), nt);
    TimesIsProduct(count, 1);
  }

  lemma SameRun(base: int, n: nat, k: nat)
    ensures Ascending(base, n) == Ascending(base, k) <==> n == k
  {
    assert |Ascending(base, n)| == n && |Ascending(base, k)| == k;
  }

  lemma WholeChunks(count: nat, grn: nat)
    requires grn >= 1
    ensures Times(count / grn, grn) + count % grn == count
  {
    TimesIsProduct(count / grn, grn);
  }

  /** Blocking the loops changes neither the lines stored in each buffer nor their order, exactly when
      the grain divides the count: otherwise the chunks miss the tail. */
  lemma BlockingExactly(buf1: int, buf2: int, count: nat, grn: nat, nt: bool)
    requires grn >= 1
    ensures Stored(WholeTrace(buf1, buf2, count), nt) == Ascending(if nt then buf2 else buf1, count)
    ensures Stored(ChunkTrace(buf1, buf2, grn, count / grn), nt) == Stored(WholeTrace(buf1, buf2, count), nt)
            <==> count % grn == 0
  {
    hide Stored, WholeTrace, ChunkTrace, Ascending;
    StoredWhole(buf1, buf2, count, nt);
    StoredChunks(buf1, buf2, grn, count / grn, nt);
    SameRun(if nt then buf2 else buf1, count, Times(count / grn, grn));
    WholeChunks(count, grn);
  }

  // ----- The order of the buffers -----

  lemma {:induction false} LineByLine(kind: Kind, buf: int, count: nat)
    ensures Addresses(StrideTrace(kind, buf, 1, 64, count)) == Ascending(buf, count)
  {
    hide Addresses, Block;
    if count == 0 {
      NoAddresses();
    } else {
      LineByLine(kind, buf, count - 1);
      BaseIs(buf, 64, count - 1);
      BlockAddresses(kind, Base(buf, 64, count - 1), 1, buf);
      AddressesOfPass(StrideTrace(kind, buf, 1, 64, count - 1), Block(kind, Base(buf, 64, count - 1), 1, buf));
      assert Ascending(buf, count) == Ascending(buf, count - 1) + Ascending(buf + 64 * (count - 1), 1);
    }
  }

  /** The whole task is done with the first buffer before it begins with the second. */
  lemma WholeOrder(buf1: int, buf2: int, count: nat)
    ensures Addresses(WholeTrace(buf1, buf2, count)) == Ascending(buf1, count) + Ascending(buf2, count)
  {
    hide Addresses, StrideTrace;
    LineByLine(STFLUSH, buf1, count);
    LineByLine(NT, buf2, count);
    AddressesConcat(StrideTrace(STFLUSH, buf1, 1, 64, count), StrideTrace(NT, buf2, 1, 64, count));
  }

  lemma ChunkAddresses(kind: Kind, buf: int, grn: nat, i: nat)
    ensures Addresses(Chunk(kind, buf, grn, i)) == Ascending(buf + 64 * (i * grn), grn)
  {
    hide Addresses, Block;
    var start := Base(buf, 64 * grn, i);
    assert StrideTrace(kind, start, grn, 0, 0) == [];
    NoAddresses();
    BlockAddresses(kind, start, grn, start);
    AddressesOfPass([], Block(kind, start, grn, start));
    StoredBase(buf, grn, i);
    TimesIsProduct(i, grn);
  }

  /** The lines of round `i` of the chunked task. */
  function RoundLines(buf1: int, buf2: int, grn: nat, i: nat): seq<int> {
    Ascending(buf1 + 64 * (i * grn), grn) + Ascending(buf2 + 64 * (i * grn), grn)
  }

  lemma ChunkRound(buf1: int, buf2: int, grn: nat, chunks: nat)
    ensures Addresses(ChunkTrace(buf1, buf2, grn, chunks + 1)) ==
            Addresses(ChunkTrace(buf1, buf2, grn, chunks)) + RoundLines(buf1, buf2, grn, chunks)
  {
    hide Addresses, StrideTrace, Chunk;
    var p, q := Chunk(STFLUSH, buf1, grn, chunks), Chunk(NT, buf2, grn, chunks);
    ChunkAddresses(STFLUSH, buf1, grn, chunks);
    ChunkAddresses(NT, buf2, grn, chunks);
    AddressesConcat(p, q);
    AddressesConcat(ChunkTrace(buf1, buf2, grn, chunks), p + q);
  }

  lemma {:induction false} ChunkRounds(buf1: int, buf2: int, grn: nat, chunks: nat, i: nat)
    requires i < chunks
    ensures var t := Addresses(ChunkTrace(buf1, buf2, grn, chunks));
            && |t| == Times(chunks, 2 * grn) && Times(i + 1, 2 * grn) <= |t|
            && t[Times(i, 2 * grn)..Times(i + 1, 2 * grn)] == RoundLines(buf1, buf2, grn, i)
  {
    hide Addresses, ChunkTrace, RoundLines;
    var s, r := Addresses(ChunkTrace(buf1, buf2, grn, chunks - 1)), RoundLines(buf1, buf2, grn, chunks - 1);
    ChunkRound(buf1, buf2, grn, chunks - 1);
    RoundLength(buf1, buf2, grn, chunks - 1);
    if chunks == 1 {
      NoChunks(buf1, buf2, grn);
    } else {
      ChunkRounds(buf1, buf2, grn, chunks - 1, if i < chunks - 1 then i else 0);
    }
    if i < chunks - 1 {
      assert (s + r)[Times(i, 2 * grn)..Times(i + 1, 2 * grn)] == s[Times(i, 2 * grn)..Times(i + 1, 2 * grn)];
    } else {
      assert (s + r)[|s|..] == r;
    }
  }

  lemma RoundLength(buf1: int, buf2: int, grn: nat, i: nat)
    ensures |RoundLines(buf1, buf2, grn, i)| == 2 * grn
  {
  }

  lemma NoChunks(buf1: int, buf2: int, grn: nat)
    ensures Addresses(ChunkTrace(buf1, buf2, grn, 0)) == []
  {
  }

  /** The chunked task alternates: round `i` stores lines i * grn up to (i + 1) * grn of the first buffer,
      and then the same lines of the second. */
  lemma ChunkOrder(buf1: int, buf2: int, grn: nat, chunks: nat, i: nat, j: nat)
    requires i < chunks && j < grn
    ensures var t, round := Addresses(ChunkTrace(buf1, buf2, grn, chunks)), i * (2 * grn);
            && |t| == chunks * (2 * grn) && round + 2 * grn <= |t|
            && t[round + j] == buf1 + 64 * (i * grn + j)
            && t[round + grn + j] == buf2 + 64 * (i * grn + j)
  {
    hide Addresses, ChunkTrace, Times;
    var t := Addresses(ChunkTrace(buf1, buf2, grn, chunks));
    ChunkRounds(buf1, buf2, grn, chunks, i);
    TimesIsProduct(chunks, 2 * grn);
    TimesIsProduct(i, 2 * grn);
    TimesIsProduct(i + 1, 2 * grn);
    assert (i + 1) * (2 * grn) == i * (2 * grn) + 2 * grn;
    var u := t[Times(i, 2 * grn)..Times(i + 1, 2 * grn)];
    assert u[j] == t[Times(i, 2 * grn) + j] && u[grn + j] == t[Times(i, 2 * grn) + grn + j];
    assert u[j] == buf1 + 64 * (i * grn) + 64 * j && u[grn + j] == buf2 + 64 * (i * grn) + 64 * j;
  }

  // ----- The words stored -----

  /** A store into line `j` of chunk `i` of `buf`, stamped with the address of the chunk. */
  ghost predicate ChunkStore(e: Event, buf: int, grn: nat, chunks: nat, i: nat, j: nat) {
    e.Writes() && i < chunks && j < grn && e.addr == Base(buf, 64 * grn, i) + 64 * j && e.word == Base(buf, 64 * grn, i)
  }

  lemma ChunkStores(kind: Kind, buf: int, grn: nat, chunks: nat, i: nat, e: Event)
    requires e in Chunk(kind, buf, grn, i) && e.Writes() && i < chunks
    ensures exists j :: ChunkStore(e, buf, grn, chunks, i, j)
  {
    hide Block;
    var start := Base(buf, 64 * grn, i);
    assert StrideTrace(kind, start, grn, 0, 0) == [];
    BlockLines(kind, start, grn, start, e);
    BlockStamps(kind, start, grn, start);
    var j: nat :| j < grn && e.addr == start + 64 * j;
    assert ChunkStore(e, buf, grn, chunks, i, j);
  }

  lemma {:induction false} ChunkTraceStores(buf1: int, buf2: int, grn: nat, chunks: nat, k: nat, e: Event)
    requires e in ChunkTrace(buf1, buf2, grn, k) && e.Writes() && k <= chunks
    ensures exists i, j :: ChunkStore(e, buf1, grn, chunks, i, j) || ChunkStore(e, buf2, grn, chunks, i, j)
  {
    hide StrideTrace;
    if e in ChunkTrace(buf1, buf2, grn, k - 1) {
      ChunkTraceStores(buf1, buf2, grn, chunks, k - 1, e);
    } else if e in Chunk(STFLUSH, buf1, grn, k - 1) {
      ChunkStores(STFLUSH, buf1, grn, chunks, k - 1, e);
    } else {
      ChunkStores(NT, buf2, grn, chunks, k - 1, e);
    }
  }

  lemma ChunkInside(e: Event, buf: int, grn: nat, chunks: nat, i: nat, j: nat)
    requires ChunkStore(e, buf, grn, chunks, i, j)
    ensures buf <= e.addr < buf + 64 * Times(chunks, grn)
  {
    StoredBase(buf, grn, i);
    TimesGrows(i + 1, chunks, grn);
  }

  lemma {:induction false} StoredBase(buf: int, grn: nat, i: nat)
    ensures Base(buf, 64 * grn, i) == buf + 64 * Times(i, grn)
  {
    if i > 0 {
      StoredBase(buf, grn, i - 1);
    }
  }

  lemma SameChunk(e: Event, f: Event, buf: int, grn: nat, chunks: nat, i: nat, j: nat, k: nat, l: nat)
    requires ChunkStore(e, buf, grn, chunks, i, j) && ChunkStore(f, buf, grn, chunks, k, l) && e.addr == f.addr
    ensures e.word == f.word
  {
    if i != k {
      BaseApart(buf, 64 * grn, i, k);
    }
  }

  lemma ChunksAgree(buf1: int, buf2: int, grn: nat, chunks: nat)
    requires Apart(buf1, 64 * Times(chunks, grn), buf2, 64 * Times(chunks, grn))
    ensures Agree(ChunkTrace(buf1, buf2, grn, chunks))
  {
    hide Base, Times;
    var t := ChunkTrace(buf1, buf2, grn, chunks);
    forall e, f | e in t && f in t && e.Writes() && f.Writes() && e.addr == f.addr
      ensures e.word == f.word
    {
      ChunkTraceStores(buf1, buf2, grn, chunks, chunks, e);
      ChunkTraceStores(buf1, buf2, grn, chunks, chunks, f);
      var i, j :| ChunkStore(e, buf1, grn, chunks, i, j) || ChunkStore(e, buf2, grn, chunks, i, j);
      var k, l :| ChunkStore(f, buf1, grn, chunks, k, l) || ChunkStore(f, buf2, grn, chunks, k, l);
      var b := if ChunkStore(e, buf1, grn, chunks, i, j) then buf1 else buf2;
      var c := if ChunkStore(f, buf1, grn, chunks, k, l) then buf1 else buf2;
      ChunkInside(e, b, grn, chunks, i, j);
      ChunkInside(f, c, grn, chunks, k, l);
      SameChunk(e, f, b, grn, chunks, i, j, k, l);
    }
  }

  lemma {:induction false} ChunkInTrace(buf1: int, buf2: int, grn: nat, chunks: nat, i: nat, e: Event)
    requires i < chunks && (e in Chunk(STFLUSH, buf1, grn, i) || e in Chunk(NT, buf2, grn, i))
    ensures e in ChunkTrace(buf1, buf2, grn, chunks)
  {
    hide Chunk;
    if i < chunks - 1 {
      ChunkInTrace(buf1, buf2, grn, chunks - 1, i, e);
    }
  }

  /** After the chunked task, line `l` of either buffer holds the address of its own chunk: the contents
      differ from the whole task's, where every line holds the address of the buffer. */
  lemma ChunkMemory(mem: Lines, buf1: int, buf2: int, grn: nat, chunks: nat, l: nat, second: bool)
    requires grn >= 1 && l < Times(chunks, grn) && Apart(buf1, 64 * Times(chunks, grn), buf2, 64 * Times(chunks, grn))
    ensures var buf := if second then buf2 else buf1;
            Read(ApplyAll(mem, ChunkTrace(buf1, buf2, grn, chunks)), buf + 64 * l) == buf + 64 * (l / grn * grn)
  {
    hide StrideTrace, ApplyAll, Base;
    var buf, kind := if second then buf2 else buf1, if second then NT else STFLUSH;
    var i, j := l / grn, l % grn;
    TimesIsProduct(chunks, grn);
    TimesIsProduct(i, grn);
    StoredBase(buf, grn, i);
    InsideChunk(l, grn, chunks);
    StrideWrites(kind, Base(buf, 64 * grn, i), grn, 0, 1, 0, j);
    StrideStamps(kind, Base(buf, 64 * grn, i), grn, 0, 1);
    assert Stamps(Chunk(kind, buf, grn, i), Base(buf, 64 * grn, i));
    BaseIs(Base(buf, 64 * grn, i), 0, 0);
    var e :| e in Chunk(kind, buf, grn, i) && e.Writes() && e.addr == Base(buf, 64 * grn, i) + 64 * j;
    ChunkInTrace(buf1, buf2, grn, chunks, i, e);
    ChunksAgree(buf1, buf2, grn, chunks);
    AgreeingTrace(mem, ChunkTrace(buf1, buf2, grn, chunks));
    assert e.word == Base(buf, 64 * grn, i);
  }

  lemma InsideChunk(l: nat, grn: nat, chunks: nat)
    requires grn >= 1 && l < chunks * grn
    ensures l / grn < chunks && l == l / grn * grn + l % grn
  {
    Scale(grn, chunks, l / grn);
  }

  lemma WholeAgrees(buf1: int, buf2: int, count: nat)
    requires Apart(buf1, 64 * count, buf2, 64 * count)
    ensures Agree(WholeTrace(buf1, buf2, count))
  {
    hide StrideTrace;
    var t, u := StrideTrace(STFLUSH, buf1, 1, 64, count), StrideTrace(NT, buf2, 1, 64, count);
    StrideStamps(STFLUSH, buf1, 1, 64, count);
    StrideStamps(NT, buf2, 1, 64, count);
    BaseIs(buf1, 64, count);
    BaseIs(buf2, 64, count);
    forall e: Event | e in t + u && e.Writes()
      ensures (e.word == buf1 && buf1 <= e.addr < buf1 + 64 * count) ||
              (e.word == buf2 && buf2 <= e.addr < buf2 + 64 * count)
    {
      if e in t {
        StrideWithin(STFLUSH, buf1, 1, 64, count, e);
      } else {
        StrideWithin(NT, buf2, 1, 64, count, e);
      }
    }
  }

  /** After the whole task every line of a buffer holds the address of that buffer. */
  lemma WholeMemory(mem: Lines, buf1: int, buf2: int, count: nat, l: nat, second: bool)
    requires l < count && Apart(buf1, 64 * count, buf2, 64 * count)
    ensures var buf := if second then buf2 else buf1;
            Read(ApplyAll(mem, WholeTrace(buf1, buf2, count)), buf + 64 * l) == buf
  {
    hide StrideTrace, ApplyAll;
    var buf, kind := if second then buf2 else buf1, if second then NT else STFLUSH;
    WholeAgrees(buf1, buf2, count);
    AgreeingTrace(mem, WholeTrace(buf1, buf2, count));
    StrideWrites(kind, buf, 1, 64, count, l, 0);
    StrideStamps(kind, buf, 1, 64, count);
    BaseIs(buf, 64, l);
    var e: Event :| e in StrideTrace(kind, buf, 1, 64, count) && e.Writes() && e.addr == Base(buf, 64, l) + 64 * 0;
    assert e in WholeTrace(buf1, buf2, count);
  }

  // ----- When the contents agree -----

  lemma OneLine(kind: Kind, start: int, k: nat)
    requires k > 0
    ensures Block(kind, Base(start, 64, k - 1), 1, start) == Access(kind, start + 64 * (k - 1), start)
    ensures Block(kind, start, k, start) ==
            Block(kind, start, k - 1, start) + Access(kind, start + 64 * (k - 1), start)
    ensures StrideTrace(kind, start, 1, 64, k) ==
            StrideTrace(kind, start, 1, 64, k - 1) + Access(kind, start + 64 * (k - 1), start) + [MFence]
  {
    hide Access;
    BaseIs(start, 64, k - 1);
    assert Block(kind, Base(start, 64, k - 1), 0, start) == [];
  }

  /** `k` blocks of one line make the accesses of one block of `k` lines. */
  lemma {:induction false} OneByOne(kind: Kind, start: int, k: nat, e: Event)
    ensures e in StrideTrace(kind, start, 1, 64, k) <==> e in Block(kind, start, k, start) || (k > 0 && e == MFence)
  {
    hide Block, Access;
    if k == 0 {
      EmptyBlock(kind, start, start);
      assert StrideTrace(kind, start, 1, 64, 0) == [];
    } else {
      OneByOne(kind, start, k - 1, e);
      OneLine(kind, start, k);
    }
  }

  lemma OneChunkEvents(kind: Kind, buf: int, count: nat, e: Event)
    requires count >= 1
    ensures e in Chunk(kind, buf, count, 0) <==> e in StrideTrace(kind, buf, 1, 64, count)
  {
    hide Block;
    OneByOne(kind, buf, count, e);
    assert StrideTrace(kind, buf, count, 0, 0) == [];
    assert Chunk(kind, buf, count, 0) == Block(kind, buf, count, buf) + [MFence];
  }

  lemma OneChunk(mem: Lines, buf1: int, buf2: int, count: nat)
    requires count >= 1 && Apart(buf1, 64 * count, buf2, 64 * count)
    ensures ApplyAll(mem, ChunkTrace(buf1, buf2, count, 1)) == ApplyAll(mem, WholeTrace(buf1, buf2, count))
  {
    hide ApplyAll, StrideTrace, Chunk;
    var t, u := ChunkTrace(buf1, buf2, count, 1), WholeTrace(buf1, buf2, count);
    assert ChunkTrace(buf1, buf2, count, 0) == [];
    assert t == Chunk(STFLUSH, buf1, count, 0) + Chunk(NT, buf2, count, 0);
    forall e
      ensures e in t <==> e in u
    {
      OneChunkEvents(STFLUSH, buf1, count, e);
      OneChunkEvents(NT, buf2, count, e);
    }
    WholeAgrees(buf1, buf2, count);
    SameEventsSameMemory(mem, u, t);
  }

  /** With a grain that divides the count, the two tasks, which store the same lines, leave the same
      memory exactly when there is one chunk. */
  lemma ContentsExactly(mem: Lines, buf1: int, buf2: int, count: nat, grn: nat)
    requires 1 <= grn && 1 <= count && count % grn == 0 && Apart(buf1, 64 * count, buf2, 64 * count)
    ensures ApplyAll(mem, ChunkTrace(buf1, buf2, grn, count / grn)) == ApplyAll(mem, WholeTrace(buf1, buf2, count))
            <==> grn == count
  {
    hide ApplyAll, ChunkTrace, WholeTrace;
    WholeChunks(count, grn);
    if grn == count {
      OneChunk(mem, buf1, buf2, count);
    } else {
      MoreChunks(count, grn);
      ChunkMemory(mem, buf1, buf2, grn, count / grn, grn, false);
      WholeMemory(mem, buf1, buf2, count, grn, false);
      assert grn / grn * grn == grn;
    }
  }

  lemma MoreChunks(count: nat, grn: nat)
    requires 1 <= grn && 1 <= count && count % grn == 0 && grn != count
    ensures grn < count
  {
  }

  /** A grain that does not divide the count leaves the last line alone. */
  lemma TailMissed(buf1: int, buf2: int, count: nat, grn: nat)
    requires 1 <= grn && count % grn != 0 && Apart(buf1, 64 * count, buf2, 64 * count)
    ensures !Written(ChunkTrace(buf1, buf2, grn, count / grn), buf1 + 64 * (count - 1))
  {
    hide ChunkTrace, Times;
    var t, chunks := ChunkTrace(buf1, buf2, grn, count / grn), count / grn;
    WholeChunks(count, grn);
    forall e | e in t && e.Writes()
      ensures e.addr != buf1 + 64 * (count - 1)
    {
      ChunkTraceStores(buf1, buf2, grn, chunks, chunks, e);
      var i, j :| ChunkStore(e, buf1, grn, chunks, i, j) || ChunkStore(e, buf2, grn, chunks, i, j);
      ChunkInside(e, if ChunkStore(e, buf1, grn, chunks, i, j) then buf1 else buf2, grn, chunks, i, j);
    }
  }

  /** Over every grain: the tasks leave the same memory whatever was there before, if and only if the
      grain is the count. */
  lemma ContentsOverMemories(buf1: int, buf2: int, count: nat, grn: nat)
    requires 1 <= grn && 1 <= count && Apart(buf1, 64 * count, buf2, 64 * count)
    ensures (forall mem: Lines :: ApplyAll(mem, ChunkTrace(buf1, buf2, grn, count / grn)) ==
                                  ApplyAll(mem, WholeTrace(buf1, buf2, count)))
            <==> grn == count
  {
    hide ApplyAll, ChunkTrace, WholeTrace;
    if count % grn == 0 {
      forall mem: Lines
        ensures (ApplyAll(mem, ChunkTrace(buf1, buf2, grn, count / grn)) ==
                 ApplyAll(mem, WholeTrace(buf1, buf2, count))) <==> grn == count
      {
        ContentsExactly(mem, buf1, buf2, count, grn);
      }
      ContentsExactly(map[], buf1, buf2, count, grn);
    } else {
      TailKeys(buf1, buf2, count, grn);
      WholeKeys(buf1, buf2, count);
    }
  }

  lemma TailKeys(buf1: int, buf2: int, count: nat, grn: nat)
    requires 1 <= grn && 1 <= count && count % grn != 0 && Apart(buf1, 64 * count, buf2, 64 * count)
    ensures buf1 + 64 * (count - 1) !in ApplyAll(map[], ChunkTrace(buf1, buf2, grn, count / grn))
  {
    hide ApplyAll, ChunkTrace, Times;
    WholeChunks(count, grn);
    TailMissed(buf1, buf2, count, grn);
    ChunksAgree(buf1, buf2, grn, count / grn);
    AgreeingTrace(map[], ChunkTrace(buf1, buf2, grn, count / grn));
  }

  lemma WholeKeys(buf1: int, buf2: int, count: nat)
    requires count >= 1 && Apart(buf1, 64 * count, buf2, 64 * count)
    ensures buf1 + 64 * (count - 1) in ApplyAll(map[], WholeTrace(buf1, buf2, count))
  {
    hide ApplyAll, StrideTrace;
    var t := WholeTrace(buf1, buf2, count);
    WholeAgrees(buf1, buf2, count);
    AgreeingTrace(map[], t);
    StrideWrites(STFLUSH, buf1, 1, 64, count, count - 1, 0);
    BaseIs(buf1, 64, count - 1);
    var e: Event :| e in StrideTrace(STFLUSH, buf1, 1, 64, count) && e.Writes() &&
                    e.addr == Base(buf1, 64, count - 1) + 64 * 0;
    assert e in t && Written(t, e.addr);
  }
}
