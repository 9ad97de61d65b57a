/** The streams of the kernels, access by access: which instruction stands at which place, and, in the
    combined kernel, what is durable before a line is streamed. */
module Streams {
  import opened Chasing
  import opened ChasingIndex
  import opened Lfsr
  import opened Loops
  import opened Memory
  import opened Persistence
  import opened SizeBw
  import opened Stride

  // ----- The access macros -----

  ghost predicate Stands(e: Event, t: seq<Event>, p: int) {
    0 <= p < |t| && t[p] == e
  }

  ghost predicate FenceAt(t: seq<Event>, p: int) {
    Stands(MFence, t, p)
  }

  /** The instructions of one access to the line at `a`, from place `p` of the stream on. */
  ghost predicate Performs(kind: Kind, t: seq<Event>, p: int, a: int, word: int) {
    match kind
    case LD => Stands(Load(a), t, p)
    case NT => Stands(NtStore(a, word), t, p)
    case ST => Stands(Store(a, word), t, p)
    case STFLUSH => Stands(Store(a, word), t, p) && Stands(Clwb(a), t, p + 1)
  }

  // ----- Passes of equal length -----

  /** The passes one after the other, each followed by a fence. */
  function Fenced(passes: seq<seq<Event>>): seq<Event> {
    if passes == [] then []
    else Fenced(passes[..|passes| - 1]) + passes[|passes| - 1] + [MFence]
  }

  lemma {:induction false} FencedAt(passes: seq<seq<Event>>, len: nat, i: nat)
    requires i < |passes| && forall j :: 0 <= j < |passes| ==> |passes[j]| == len
    ensures |Fenced(passes)| == Times(|passes|, len + 1) && Times(i + 1, len + 1) <= |Fenced(passes)|
    ensures Fenced(passes)[Times(i, len + 1)..Times(i + 1, len + 1)] == passes[i] + [MFence]
  {
    var rest := passes[..|passes| - 1];
    var t, last := Fenced(rest), passes[|rest|] + [MFence];
    if rest != [] {
      FencedAt(rest, len, if i < |rest| then i else 0);
    }
    assert Fenced(passes) == t + last;
    if i < |rest| {
      Earlier(t, last, Times(i, len + 1), Times(i + 1, len + 1));
    }
  }

  lemma Earlier(t: seq<Event>, u: seq<Event>, i: nat, j: nat)
    requires i <= j <= |t|
    ensures (t + u)[i..j] == t[i..j]
  {
  }

  /** The same with products, one access at a time. */
  lemma PassAt(passes: seq<seq<Event>>, len: nat, i: nat, p: nat)
    requires i < |passes| && p <= len && forall j :: 0 <= j < |passes| ==> |passes[j]| == len
    ensures |Fenced(passes)| == |passes| * (len + 1)
    ensures Stands(if p < len then passes[i][p] else MFence, Fenced(passes), i * (len + 1) + p)
  {
    hide Fenced, Times;
    var t := Fenced(passes);
    FencedAt(passes, len, i);
    TimesIsProduct(i, len + 1);
    TimesIsProduct(|passes|, len + 1);
    TimesNext(i, len + 1);
    assert t[Times(i, len + 1)..Times(i + 1, len + 1)][p] == (passes[i] + [MFence])[p];
  }

  // ----- Accesses in a pass -----

  /** Instructions for `n` accesses. */
  function Instructions(kind: Kind, n: nat): nat {
    if kind == STFLUSH then 2 * n else n
  }

  lemma {:induction false} BlockStream(kind: Kind, base: int, n: nat, word: int, j: nat)
    ensures |Block(kind, base, n, word)| == Instructions(kind, n)
    ensures j < n ==> Performs(kind, Block(kind, base, n, word), Instructions(kind, j), base + 64 * j, word)
  {
    if n > 0 {
      BlockStream(kind, base, n - 1, word, j);
    }
  }

  /** An access in a pass is an access in the stream. */
  lemma PerformsAt(kind: Kind, passes: seq<seq<Event>>, len: nat, i: nat, p: nat, a: int, word: int)
    requires i < |passes| && forall j :: 0 <= j < |passes| ==> |passes[j]| == len
    requires Performs(kind, passes[i], p, a, word)
    ensures Performs(kind, Fenced(passes), i * (len + 1) + p, a, word)
    ensures FenceAt(Fenced(passes), i * (len + 1) + len) && |Fenced(passes)| == |passes| * (len + 1)
  {
    hide Fenced;
    PassAt(passes, len, i, p);
    PassAt(passes, len, i, len);
    if kind == STFLUSH {
      PassAt(passes, len, i, p + 1);
    }
  }

  // ----- stride_* -----

  ghost function StridePasses(kind: Kind, start: int, n: nat, skip: int, k: nat): seq<seq<Event>> {
    seq(k, (i: nat) => Block(kind, Base(start, skip, i), n, start))
  }

  lemma {:induction false} StrideFenced(kind: Kind, start: int, n: nat, skip: int, k: nat)
    ensures StrideTrace(kind, start, n, skip, k) == Fenced(StridePasses(kind, start, n, skip, k))
  {
    hide Block;
    if k > 0 {
      StrideFenced(kind, start, n, skip, k - 1);
      assert StridePasses(kind, start, n, skip, k)[..k - 1] == StridePasses(kind, start, n, skip, k - 1);
    }
  }

  /** The whole stream of a strided kernel: access `j` to block `i`, and the fence after the block. */
  lemma StrideStream(kind: Kind, start: int, n: nat, skip: int, k: nat, i: nat, j: nat)
    requires i < k && j < n
    ensures var t, len := StrideTrace(kind, start, n, skip, k), Instructions(kind, n) + 1;
            && |t| == k * len && FenceAt(t, i * len + len - 1)
            && Performs(kind, t, i * len + Instructions(kind, j), start + i * skip + 64 * j, start)
  {
    hide Block, Fenced, Performs;
    var ps := StridePasses(kind, start, n, skip, k);
    StrideFenced(kind, start, n, skip, k);
    forall b | 0 <= b < |ps|
      ensures |ps[b]| == Instructions(kind, n)
    {
      BlockStream(kind, Base(start, skip, b), n, start, j);
    }
    BlockStream(kind, Base(start, skip, i), n, start, j);
    BaseIs(start, skip, i);
    PerformsAt(kind, ps, Instructions(kind, n), i, Instructions(kind, j), start + i * skip + 64 * j, start);
  }

  // ----- sizebw_* -----

  ghost function RandomPasses(kind: Kind, start: int, lines: nat, seed: bv64, mask: bv64, n: nat): seq<seq<Event>> {
    seq(n, (i: nat) => Block(kind, start + Offset(State(seed, i + 1), mask), lines, start))
  }

  lemma {:induction false} RandomFenced(kind: Kind, start: int, lines: nat, seed: bv64, mask: bv64, n: nat)
    ensures RandomTrace(kind, start, lines, seed, mask, n) == Fenced(RandomPasses(kind, start, lines, seed, mask, n))
  {
    hide Block, Offset, State;
    if n > 0 {
      RandomFenced(kind, start, lines, seed, mask, n - 1);
      assert RandomPasses(kind, start, lines, seed, mask, n)[..n - 1]
          == RandomPasses(kind, start, lines, seed, mask, n - 1);
    }
  }

  /** The whole stream of a random kernel: block `i` lies at the state after i + 1 steps. */
  lemma RandomStream(kind: Kind, start: int, lines: nat, seed: bv64, mask: bv64, n: nat, i: nat, j: nat)
    requires i < n && j < lines
    ensures var t, len := RandomTrace(kind, start, lines, seed, mask, n), Instructions(kind, lines) + 1;
            && |t| == n * len && FenceAt(t, i * len + len - 1)
            && Performs(kind, t, i * len + Instructions(kind, j),
                        start + Offset(State(seed, i + 1), mask) + 64 * j, start)
  {
    hide Block, Fenced, Performs, Offset, State;
    var ps := RandomPasses(kind, start, lines, seed, mask, n);
    RandomFenced(kind, start, lines, seed, mask, n);
    forall b | 0 <= b < |ps|
      ensures |ps[b]| == Instructions(kind, lines)
    {
      BlockStream(kind, start + Offset(State(seed, b + 1), mask), lines, start, j);
    }
    var base := start + Offset(State(seed, i + 1), mask);
    BlockStream(kind, base, lines, start, j);
    PerformsAt(kind, ps, Instructions(kind, lines), i, Instructions(kind, j), base + 64 * j, start);
  }

  // ----- seq_* -----

  /** The whole stream of a sequential kernel, which never fences. */
  lemma {:induction false} SeqStream(kind: Kind, start: int, size: int, n: nat, k: nat, i: nat, j: nat)
    requires i < k && j < n
    ensures var t, len := SeqTrace(kind, start, size, n, k), Instructions(kind, n);
            |t| == k * len && Performs(kind, t, i * len + Instructions(kind, j), start + i * size + 64 * j, start)
  {
    hide Block, Performs;
    var t, len := SeqTrace(kind, start, size, n, k - 1), Instructions(kind, n);
    var b, base := Block(kind, Base(start, size, k - 1), n, start), Base(start, size, k - 1);
    BlockStream(kind, base, n, start, j);
    BaseIs(start, size, k - 1);
    assert k * len == (k - 1) * len + len;
    if k > 1 {
      SeqStream(kind, start, size, n, k - 1, if i < k - 1 then i else 0, j);
    } else {
      assert 0 * len == 0;
    }
    if i < k - 1 {
      PerformsEarly(kind, t, b, i * len + Instructions(kind, j), start + i * size + 64 * j, start);
    } else {
      PerformsLate(kind, t, b, Instructions(kind, j), base + 64 * j, start);
    }
  }

  lemma PerformsEarly(kind: Kind, t: seq<Event>, u: seq<Event>, p: nat, a: int, word: int)
    requires Performs(kind, t, p, a, word)
    ensures Performs(kind, t + u, p, a, word)
  {
  }

  lemma PerformsLate(kind: Kind, t: seq<Event>, u: seq<Event>, p: nat, a: int, word: int)
    requires Performs(kind, u, p, a, word)
    ensures Performs(kind, t + u, |t| + p, a, word)
  {
  }

  // ----- chasing_storeclwb and chasing_loadnt -----

  lemma {:induction false} StorePassStream(c: seq<nat>, base: int, n: nat, j: nat)
    requires Closed(c)
    ensures |StorePass(c, base, n)| == 2 * n
    ensures j < n ==> Performs(STFLUSH, StorePass(c, base, n), 2 * j, base + 64 * Orbit(c, j), Orbit(c, j + 1))
  {
    hide Orbit;
    if n > 0 {
      StorePassStream(c, base, n - 1, j);
    }
  }

  ghost function StorePasses(c: seq<nat>, start: int, n: nat, skip: int, k: nat): seq<seq<Event>>
    requires Closed(c)
  {
    seq(k, (i: nat) => StorePass(c, Base(start, skip, i), n))
  }

  lemma {:induction false} StoreFenced(c: seq<nat>, start: int, n: nat, skip: int, k: nat)
    requires Closed(c)
    ensures StoreTrace(c, start, n, skip, k) == Fenced(StorePasses(c, start, n, skip, k))
  {
    hide StorePass;
    if k > 0 {
      StoreFenced(c, start, n, skip, k - 1);
      assert StorePasses(c, start, n, skip, k)[..k - 1] == StorePasses(c, start, n, skip, k - 1);
    }
  }

  /** The whole stream of the chasing stores: hop `j` of block `i` stores the next node at the line of the
      node it is at, and writes it back. */
  lemma StoreStream(c: seq<nat>, start: int, n: nat, skip: int, k: nat, i: nat, j: nat)
    requires Closed(c) && i < k && j < n
    ensures var t, len := StoreTrace(c, start, n, skip, k), 2 * n + 1;
            && |t| == k * len && FenceAt(t, i * len + len - 1)
            && Performs(STFLUSH, t, i * len + 2 * j, start + i * skip + 64 * Orbit(c, j), Orbit(c, j + 1))
  {
    hide StorePass, Fenced, Performs, Orbit;
    var ps := StorePasses(c, start, n, skip, k);
    StoreFenced(c, start, n, skip, k);
    forall b | 0 <= b < |ps|
      ensures |ps[b]| == 2 * n
    {
      StorePassStream(c, Base(start, skip, b), n, j);
    }
    StorePassStream(c, Base(start, skip, i), n, j);
    BaseIs(start, skip, i);
    PerformsAt(STFLUSH, ps, 2 * n, i, 2 * j, start + i * skip + 64 * Orbit(c, j), Orbit(c, j + 1));
  }

  lemma {:induction false} LoadPassStream(mem: Lines, base: int, n: nat, j: nat)
    ensures |LoadPass(mem, base, n)| == n
    ensures j < n ==> Performs(LD, LoadPass(mem, base, n), j, base + Shl6(Link(mem, base, j)), 0)
  {
    hide Shl6, Link;
    if n > 0 {
      LoadPassStream(mem, base, n - 1, j);
    }
  }

  ghost function LoadPasses(mem: Lines, start: int, n: nat, skip: int, k: nat): seq<seq<Event>> {
    seq(k, (i: nat) => LoadPass(mem, Base(start, skip, i), n))
  }

  lemma {:induction false} LoadFenced(mem: Lines, start: int, n: nat, skip: int, k: nat)
    ensures LoadTrace(mem, start, n, skip, k) == Fenced(LoadPasses(mem, start, n, skip, k))
  {
    hide LoadPass;
    if k > 0 {
      LoadFenced(mem, start, n, skip, k - 1);
      assert LoadPasses(mem, start, n, skip, k)[..k - 1] == LoadPasses(mem, start, n, skip, k - 1);
    }
  }

  /** The load at place `p` goes to the line that the word just loaded names. */
  ghost predicate Follows(mem: Lines, t: seq<Event>, p: int, base: int) {
    && 0 < p < |t| && t[p - 1].Load?
    && t[p] == Load(base + Shl6(Read(mem, t[p - 1].addr)))
  }

  /** The whole stream of the chasing loads: every block is entered at its first line, and each further
      load follows the one before. */
  lemma LoadStream(mem: Lines, start: int, n: nat, skip: int, k: nat, i: nat, j: nat)
    requires i < k && j < n
    ensures var t, len, base := LoadTrace(mem, start, n, skip, k), n + 1, start + i * skip;
            && |t| == k * len && FenceAt(t, i * len + len - 1)
            && if j == 0 then Stands(Load(base), t, i * len) else Follows(mem, t, i * len + j, base)
  {
    hide LoadPass, Fenced, Shl6;
    var ps, base := LoadPasses(mem, start, n, skip, k), start + i * skip;
    LoadFenced(mem, start, n, skip, k);
    forall b | 0 <= b < |ps|
      ensures |ps[b]| == n
    {
      LoadPassStream(mem, Base(start, skip, b), n, j);
    }
    BaseIs(start, skip, i);
    LoadPassStream(mem, base, n, j);
    PerformsAt(LD, ps, n, i, j, base + Shl6(Link(mem, base, j)), 0);
    if j > 0 {
      LoadPassStream(mem, base, n, j - 1);
      PerformsAt(LD, ps, n, i, j - 1, base + Shl6(Link(mem, base, j - 1)), 0);
    } else {
      ShiftOf(0);
    }
  }

  /** The shift turns an index into a line offset; the top six bits fall out. */
  lemma ShiftOf(r: nat)
    requires r < 0x1_0000_0000_0000_0000
    ensures Shl6(r) == 64 * (r % MAX_INDEX)
  {
  }

  // ----- stride_read_after_write -----

  ghost function RawPass(base: int, n: nat, word: int): seq<Event> {
    Block(STFLUSH, base, n, word) + [MFence] + Block(NT, base, n, word)
  }

  ghost function RawPasses(start: int, n: nat, skip: int, k: nat): seq<seq<Event>> {
    seq(k, (i: nat) => RawPass(Base(start, skip, i), n, start))
  }

  lemma RawNext(start: int, n: nat, skip: int, k: nat)
    ensures RawTrace(start, n, skip, k + 1) ==
            RawTrace(start, n, skip, k) + RawPass(Base(start, skip, k), n, start) + [MFence]
  {
    hide Block;
    var f, g := Block(STFLUSH, Base(start, skip, k), n, start), Block(NT, Base(start, skip, k), n, start);
    var t := RawTrace(start, n, skip, k);
    assert t + (f + [MFence] + g + [MFence]) == t + (f + [MFence] + g) + [MFence];
  }

  lemma {:induction false} RawFenced(start: int, n: nat, skip: int, k: nat)
    ensures RawTrace(start, n, skip, k) == Fenced(RawPasses(start, n, skip, k))
  {
    hide RawPass;
    if k > 0 {
      RawFenced(start, n, skip, k - 1);
      RawNext(start, n, skip, k - 1);
      assert RawPasses(start, n, skip, k)[..k - 1] == RawPasses(start, n, skip, k - 1);
    }
  }

  lemma RawPassStream(base: int, n: nat, word: int, j: nat)
    requires j < n
    ensures var t := RawPass(base, n, word);
            && |t| == 3 * n + 1 && FenceAt(t, 2 * n)
            && Performs(STFLUSH, t, 2 * j, base + 64 * j, word)
            && Performs(NT, t, 2 * n + 1 + j, base + 64 * j, word)
  {
    hide Block, Performs;
    var f, g := Block(STFLUSH, base, n, word), Block(NT, base, n, word);
    BlockStream(STFLUSH, base, n, word, j);
    BlockStream(NT, base, n, word, j);
    PerformsEarly(STFLUSH, f, [MFence], 2 * j, base + 64 * j, word);
    PerformsEarly(STFLUSH, f + [MFence], g, 2 * j, base + 64 * j, word);
    PerformsLate(NT, f + [MFence], g, j, base + 64 * j, word);
  }

  lemma RawLength(base: int, n: nat, word: int)
    ensures |RawPass(base, n, word)| == 3 * n + 1
  {
    BlockStream(STFLUSH, base, n, word, 0);
    BlockStream(NT, base, n, word, 0);
  }

  /** The whole stream of the combined kernel: block by block, all lines stored and written back, a fence,
      the same lines streamed, a fence. */
  lemma RawStream(start: int, n: nat, skip: int, k: nat, i: nat, j: nat)
    requires i < k && j < n
    ensures var t, len, a := RawTrace(start, n, skip, k), 3 * n + 2, start + i * skip + 64 * j;
            && |t| == k * len
            && Performs(STFLUSH, t, i * len + 2 * j, a, start) && FenceAt(t, i * len + 2 * n)
            && Performs(NT, t, i * len + 2 * n + 1 + j, a, start) && FenceAt(t, i * len + len - 1)
  {
    hide RawPass, Fenced, Performs;
    var ps, a := RawPasses(start, n, skip, k), start + i * skip + 64 * j;
    RawFenced(start, n, skip, k);
    forall b | 0 <= b < |ps|
      ensures |ps[b]| == 3 * n + 1
    {
      RawLength(Base(start, skip, b), n, start);
    }
    RawPassStream(Base(start, skip, i), n, start, j);
    BaseIs(start, skip, i);
    PassAt(ps, 3 * n + 1, i, 2 * n);
    PerformsAt(STFLUSH, ps, 3 * n + 1, i, 2 * j, a, start);
    PerformsAt(NT, ps, 3 * n + 1, i, 2 * n + 1 + j, a, start);
  }

  /** Later blocks are only appended. */
  lemma {:induction false} RawPrefix(start: int, n: nat, skip: int, i: nat, k: nat)
    requires i <= k
    ensures RawTrace(start, n, skip, i) <= RawTrace(start, n, skip, k)
  {
    hide Block;
    if i < k {
      RawPrefix(start, n, skip, i, k - 1);
    }
  }

  lemma StateAfter(t: seq<Event>, e: Event, a: int)
    ensures StateOf(t + [e], a) == match e
                                   case Load(_) => StateOf(t, a)
                                   case Store(b, _) => if a == b then Dirty else StateOf(t, a)
                                   case NtStore(b, _) => if a == b then Pending else StateOf(t, a)
                                   case Clwb(b) => if a == b && StateOf(t, a) == Dirty then Pending else StateOf(t, a)
                                   case _ => if StateOf(t, a) == Pending then Durable else StateOf(t, a)
  {
    assert (t + [e])[..|t|] == t;
  }

  /** After its stores and write-backs every line of a block waits for the fence only. */
  lemma {:induction false} BlockPending(p: seq<Event>, base: int, n: nat, word: int, j: nat)
    requires j < n
    ensures StateOf(p + Block(STFLUSH, base, n, word), base + 64 * j) == Pending
  {
    hide StateOf;
    var t, a, b := p + Block(STFLUSH, base, n - 1, word), base + 64 * j, base + 64 * (n - 1);
    assert p + Block(STFLUSH, base, n, word) == t + [Store(b, word)] + [Clwb(b)];
    StateAfter(t, Store(b, word), a);
    StateAfter(t + [Store(b, word)], Clwb(b), a);
    if j < n - 1 {
      BlockPending(p, base, n - 1, word, j);
    }
  }

  /** Streaming the lines before line `j` leaves that line alone. */
  lemma {:induction false} BlockAhead(p: seq<Event>, base: int, n: nat, word: int, j: nat)
    requires n <= j
    ensures StateOf(p + Block(NT, base, n, word), base + 64 * j) == StateOf(p, base + 64 * j)
  {
    hide StateOf;
    if n == 0 {
      assert p + Block(NT, base, 0, word) == p;
    } else {
      var t, b := p + Block(NT, base, n - 1, word), base + 64 * (n - 1);
      assert p + Block(NT, base, n, word) == t + [NtStore(b, word)];
      StateAfter(t, NtStore(b, word), base + 64 * j);
      BlockAhead(p, base, n - 1, word, j);
    }
  }

  lemma {:induction false} StreamedSoFar(base: int, n: nat, word: int, j: nat)
    requires j < n
    ensures |Block(NT, base, n, word)| == n
    ensures Block(NT, base, n, word)[..j] == Block(NT, base, j, word)
    ensures Block(NT, base, n, word)[j] == NtStore(base + 64 * j, word)
  {
    BlockStream(NT, base, n, word, j);
    BlockStream(NT, base, n - 1, word, j);
    if j < n - 1 {
      StreamedSoFar(base, n - 1, word, j);
    } else {
      assert Block(NT, base, n, word)[..j] == Block(NT, base, j, word);
    }
  }

  /** Nothing is streamed by the stores of a block. */
  lemma {:induction false} FlushingStores(base: int, n: nat, word: int, e: Event)
    requires e in Block(STFLUSH, base, n, word)
    ensures !e.NtStore?
  {
    if e in Block(STFLUSH, base, n - 1, word) {
      FlushingStores(base, n - 1, word, e);
    }
  }

  lemma StreamedInBlock(p: seq<Event>, base: int, n: nat, word: int, i: nat)
    requires var t := p + Block(STFLUSH, base, n, word) + [MFence] + Block(NT, base, n, word) + [MFence];
             |p| <= i < |t| && t[i].NtStore?
    ensures var t := p + Block(STFLUSH, base, n, word) + [MFence] + Block(NT, base, n, word) + [MFence];
            StateOf(t[..i], t[i].addr) == Durable
  {
    hide Block, StateOf;
    var f, g := Block(STFLUSH, base, n, word), Block(NT, base, n, word);
    var u := p + f + [MFence];
    var t := u + g + [MFence];
    if i < |p + f| {
      assert t[i] == f[i - |p|];
      FlushingStores(base, n, word, t[i]);
    } else {
      var j := i - |u|;
      BlockStream(NT, base, n, word, 0);
      StreamedSoFar(base, n, word, j);
      assert t[..i] == u + g[..j] && t[i] == g[j];
      BlockPending(p, base, n, word, j);
      StateAfter(p + f, MFence, base + 64 * j);
      BlockAhead(u, base, j, word, j);
    }
  }

  /** Read after write: whenever the combined kernel streams a line, the cached store of that line has
      been written back and fenced. */
  lemma {:induction false} StreamedDurable(start: int, n: nat, skip: int, k: nat, i: nat)
    requires i < |RawTrace(start, n, skip, k)| && RawTrace(start, n, skip, k)[i].NtStore?
    ensures StateOf(RawTrace(start, n, skip, k)[..i], RawTrace(start, n, skip, k)[i].addr) == Durable
  {
    hide Block, StateOf;
    var t, base := RawTrace(start, n, skip, k - 1), Base(start, skip, k - 1);
    var f, g := Block(STFLUSH, base, n, start), Block(NT, base, n, start);
    assert RawTrace(start, n, skip, k) == t + f + [MFence] + g + [MFence];
    if i < |t| {
      StreamedDurable(start, n, skip, k - 1, i);
      assert RawTrace(start, n, skip, k)[..i] == t[..i];
    } else {
      StreamedInBlock(t, base, n, start, i);
    }
  }
}
