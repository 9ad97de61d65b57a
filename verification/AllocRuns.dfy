/** What every run of the allocator keeps: the blocks it hands out never overlap, within an arena or
    across the two. */
module AllocRuns {
  import opened FastAlloc
  import opened Memory

  /** A block handed out, and the chunk it was cut from. */
  datatype Piece = Piece(addr: nat, len: nat, chunk: nat)

  /** An arena with everything it has handed out, and the bytes used of each chunk. */
  datatype Ledger = Ledger(arena: Arena, blocks: seq<Piece>, used: seq<nat>)

  /** The ledger right after either `init`. */
  function Fresh(first: nat, base: nat): Ledger {
    Ledger(Arena(first, [base], base, first), [], [0])
  }

  function Serve(l: Ledger, r: Request): Ledger
    requires l.used != []
  {
    var a, len := Prepared(l.arena, r), Rounded(r.size);
    var u := if Opens(l.arena, r) then l.used + [0] else l.used;
    Ledger(Served(l.arena, r), l.blocks + [Piece(a.curr, len, |u| - 1)], u[|u| - 1 := u[|u| - 1] + len])
  }

  function ServeAll(l: Ledger, rs: seq<Request>): (l': Ledger)
    requires l.used != []
    ensures l'.used != [] && l'.arena.first == l.arena.first
  {
    if rs == [] then l else Serve(ServeAll(l, rs[..|rs| - 1]), rs[|rs| - 1])
  }

  /** The caller asks for no more than a chunk, and the system maps a new chunk where no chunk is. */
  predicate Proper(a: Arena, r: Request) {
    && r.size <= ALLOC_SIZE
    && (Opens(a, r) ==>
          forall i :: 0 <= i < |a.chunks| ==> Apart(a.chunks[i], a.Capacity(i), r.base, ALLOC_SIZE))
  }

  predicate ProperRun(l: Ledger, rs: seq<Request>)
    requires l.used != []
  {
    rs == [] ||
    (ProperRun(l, rs[..|rs| - 1]) && Proper(ServeAll(l, rs[..|rs| - 1]).arena, rs[|rs| - 1]))
  }

  // ----- The invariant -----

  /** The cursor and the remaining bytes account for the whole newest chunk. */
  ghost predicate Cursor(a: Arena) {
    && a.chunks != [] && a.first <= ALLOC_SIZE
    && a.curr + a.left == a.chunks[a.Last()] + a.Capacity(a.Last())
    && a.chunks[a.Last()] <= a.curr
  }

  ghost predicate ChunksApart(a: Arena) {
    forall i, j :: 0 <= i < j < |a.chunks| ==> Apart(a.chunks[i], a.Capacity(i), a.chunks[j], a.Capacity(j))
  }

  ghost predicate InChunk(a: Arena, b: Piece) {
    && b.chunk < |a.chunks|
    && a.chunks[b.chunk] <= b.addr
    && b.addr + b.len <= a.chunks[b.chunk] + a.Capacity(b.chunk)
    && (b.addr - a.chunks[b.chunk]) % 64 == 0
    && (b.chunk == a.Last() ==> b.addr + b.len <= a.curr)
  }

  ghost predicate Blocks(a: Arena, bs: seq<Piece>) {
    && (forall i :: 0 <= i < |bs| ==> InChunk(a, bs[i]))
    && (forall i, j :: 0 <= i < j < |bs| && bs[i].chunk == bs[j].chunk ==> bs[i].addr + bs[i].len <= bs[j].addr)
  }

  ghost predicate Usage(a: Arena, used: seq<nat>) {
    && a.chunks != [] && |used| == |a.chunks|
    && used[a.Last()] == a.curr - a.chunks[a.Last()]
    && (forall i :: 0 <= i < |used| ==> used[i] % 64 == 0)
    && (forall i :: 0 <= i < |used| - 1 ==> used[i] + used[i + 1] > a.Capacity(i))
  }

  ghost predicate Inv(l: Ledger) {
    && l.arena.chunks != [] && l.used != []
    && Cursor(l.arena) && ChunksApart(l.arena) && Usage(l.arena, l.used) && Blocks(l.arena, l.blocks)
  }

  lemma RoundedUp(size: nat)
    requires size <= ALLOC_SIZE
    ensures size <= Rounded(size) < size + 64 && Rounded(size) % 64 == 0 && Rounded(size) <= ALLOC_SIZE
  {
  }

  lemma CursorKept(l: Ledger, r: Request)
    requires Inv(l) && Proper(l.arena, r)
    ensures Cursor(Served(l.arena, r)) && ChunksApart(Served(l.arena, r))
    ensures Rounded(r.size) <= Prepared(l.arena, r).left
  {
    RoundedUp(r.size);
  }

  lemma UsageKept(l: Ledger, r: Request)
    requires Inv(l) && Proper(l.arena, r)
    ensures Usage(Served(l.arena, r), Serve(l, r).used)
  {
    hide Blocks, ChunksApart, Rounded;
    RoundedUp(r.size);
    CursorKept(l, r);
  }

  lemma BlocksKept(l: Ledger, r: Request)
    requires Inv(l) && Proper(l.arena, r)
    ensures Blocks(Served(l.arena, r), Serve(l, r).blocks)
  {
    RoundedUp(r.size);
    CursorKept(l, r);
    var a, bs := Served(l.arena, r), Serve(l, r).blocks;
    forall i | 0 <= i < |bs|
      ensures InChunk(a, bs[i])
    {
      assert i < |l.blocks| ==> InChunk(l.arena, l.blocks[i]);
    }
  }

  lemma ServeKeeps(l: Ledger, r: Request)
    requires Inv(l) && Proper(l.arena, r)
    ensures Inv(Serve(l, r))
  {
    CursorKept(l, r);
    UsageKept(l, r);
    BlocksKept(l, r);
  }

  /** The invariant holds throughout every proper run, from either `init`. */
  lemma {:induction false} RunKeeps(first: nat, base: nat, rs: seq<Request>)
    requires first <= ALLOC_SIZE && ProperRun(Fresh(first, base), rs)
    ensures Inv(ServeAll(Fresh(first, base), rs))
  {
    if rs != [] {
      RunKeeps(first, base, rs[..|rs| - 1]);
      ServeKeeps(ServeAll(Fresh(first, base), rs[..|rs| - 1]), rs[|rs| - 1]);
    }
  }

  // ----- Safety -----

  lemma {:induction false} OneBlockEach(l: Ledger, rs: seq<Request>)
    requires l.used != []
    ensures |ServeAll(l, rs).blocks| == |l.blocks| + |rs|
    ensures forall i :: 0 <= i < |rs| ==> ServeAll(l, rs).blocks[|l.blocks| + i].len == Rounded(rs[i].size)
  {
    if rs != [] {
      OneBlockEach(l, rs[..|rs| - 1]);
    }
  }

  lemma {:induction false} SizesProper(l: Ledger, rs: seq<Request>, i: nat)
    requires l.used != [] && ProperRun(l, rs) && i < |rs|
    ensures rs[i].size <= ALLOC_SIZE
  {
    if i < |rs| - 1 {
      SizesProper(l, rs[..|rs| - 1], i);
    }
  }

  /** Over every proper run, from either `init`: the i-th block answers the i-th request with at most 63
      bytes to spare, lies inside one chunk at a multiple of 64 from its base, and overlaps no other
      block. */
  lemma RunSafe(first: nat, base: nat, rs: seq<Request>, i: nat, j: nat)
    requires first <= ALLOC_SIZE && ProperRun(Fresh(first, base), rs)
    requires i < |rs| && j < |rs| && i != j
    ensures var l := ServeAll(Fresh(first, base), rs);
            |l.blocks| == |rs| &&
            var b, c := l.blocks[i], l.blocks[j];
            && rs[i].size <= b.len < rs[i].size + 64
            && Apart(b.addr, b.len, c.addr, c.len)
            && b.chunk < |l.arena.chunks|
            && var k := l.arena.chunks[b.chunk];
               k <= b.addr && b.addr + b.len <= k + l.arena.Capacity(b.chunk) && (b.addr - k) % 64 == 0
    ensures Cursor(ServeAll(Fresh(first, base), rs).arena)
  {
    hide ServeAll, ProperRun, Rounded;
    var l := ServeAll(Fresh(first, base), rs);
    RunKeeps(first, base, rs);
    OneBlockEach(Fresh(first, base), rs);
    SizesProper(Fresh(first, base), rs, i);
    RoundedUp(rs[i].size);
    assert InChunk(l.arena, l.blocks[i]) && InChunk(l.arena, l.blocks[j]);
  }

  // ----- Both arenas -----

  /** A call of `alloc`. */
  datatype Call = Call(onNvm: bool, request: Request)

  /** The DRAM and the persistent ledger after the calls, as `Alloc` serves them. */
  function CallAll(dram: Ledger, nvm: Ledger, cs: seq<Call>): (r: (Ledger, Ledger))
    requires dram.used != [] && nvm.used != []
    ensures r.0.used != [] && r.1.used != []
  {
    if cs == [] then (dram, nvm)
    else
      var (d, n) := CallAll(dram, nvm, cs[..|cs| - 1]);
      var c := cs[|cs| - 1];
      if c.onNvm then (d, Serve(n, c.request)) else (Serve(d, c.request), n)
  }

  function Of(cs: seq<Call>, onNvm: bool): seq<Request> {
    if cs == [] then []
    else Of(cs[..|cs| - 1], onNvm) + if cs[|cs| - 1].onNvm == onNvm then [cs[|cs| - 1].request] else []
  }

  lemma NothingServed(l: Ledger)
    requires l.used != []
    ensures ServeAll(l, []) == l
  {
  }

  lemma OneMoreServed(l: Ledger, rs: seq<Request>, r: Request)
    requires l.used != []
    ensures ServeAll(l, rs + [r]) == Serve(ServeAll(l, rs), r)
  {
    assert (rs + [r])[..|rs|] == rs;
  }

  /** However the calls are mixed, each arena runs as if it were alone with its own requests. */
  lemma {:induction false} ArenasIndependent(dram: Ledger, nvm: Ledger, cs: seq<Call>)
    requires dram.used != [] && nvm.used != []
    ensures CallAll(dram, nvm, cs) == (ServeAll(dram, Of(cs, false)), ServeAll(nvm, Of(cs, true)))
  {
    hide Serve, ServeAll;
    if cs == [] {
      NothingServed(dram);
      NothingServed(nvm);
    } else {
      var rest, c := cs[..|cs| - 1], cs[|cs| - 1];
      ArenasIndependent(dram, nvm, rest);
      assert Of(rest, !c.onNvm) + [] == Of(rest, !c.onNvm);
      OneMoreServed(if c.onNvm then nvm else dram, Of(rest, c.onNvm), c.request);
    }
  }

  /** No chunk of one arena overlaps a chunk of the other. */
  ghost predicate Crossed(a: Arena, b: Arena) {
    forall k, m :: 0 <= k < |a.chunks| && 0 <= m < |b.chunks| ==>
      Apart(a.chunks[k], a.Capacity(k), b.chunks[m], b.Capacity(m))
  }

  /** A proper request, and a new chunk is mapped where the other arena has none either. */
  ghost predicate ProperCall(own: Arena, other: Arena, r: Request) {
    && Proper(own, r)
    && (Opens(own, r) ==>
          forall m :: 0 <= m < |other.chunks| ==> Apart(r.base, ALLOC_SIZE, other.chunks[m], other.Capacity(m)))
  }

  ghost predicate ProperCalls(dram: Ledger, nvm: Ledger, cs: seq<Call>)
    requires dram.used != [] && nvm.used != []
  {
    cs == [] ||
    (ProperCalls(dram, nvm, cs[..|cs| - 1]) &&
     var (d, n) := CallAll(dram, nvm, cs[..|cs| - 1]);
     var c := cs[|cs| - 1];
     if c.onNvm then ProperCall(n.arena, d.arena, c.request) else ProperCall(d.arena, n.arena, c.request))
  }

  lemma CrossedKept(own: Arena, other: Arena, r: Request)
    requires own.chunks != [] && Crossed(own, other) && ProperCall(own, other, r)
    ensures Crossed(Served(own, r), other)
  {
  }

  lemma CrossedBack(a: Arena, b: Arena)
    requires Crossed(a, b)
    ensures Crossed(b, a)
  {
  }

  /** Over every proper mix of calls both arenas keep their invariant, and their chunks stay apart. */
  lemma {:induction false} CallsKeep(dram: Ledger, nvm: Ledger, cs: seq<Call>)
    requires Inv(dram) && Inv(nvm) && Crossed(dram.arena, nvm.arena) && ProperCalls(dram, nvm, cs)
    ensures var (d, n) := CallAll(dram, nvm, cs); Inv(d) && Inv(n) && Crossed(d.arena, n.arena)
  {
    hide Cursor, Usage, Blocks, ChunksApart, Proper, Crossed, Opens, Served;
    if cs != [] {
      CallsKeep(dram, nvm, cs[..|cs| - 1]);
      var (d, n) := CallAll(dram, nvm, cs[..|cs| - 1]);
      var r := cs[|cs| - 1].request;
      if cs[|cs| - 1].onNvm {
        ServeKeeps(n, r);
        CrossedBack(d.arena, n.arena);
        CrossedKept(n.arena, d.arena, r);
        CrossedBack(Served(n.arena, r), d.arena);
      } else {
        ServeKeeps(d, r);
        CrossedKept(d.arena, n.arena, r);
      }
    }
  }

  /** Blocks of different arenas do not overlap, when the chunks do not. */
  lemma AcrossArenas(d: Ledger, n: Ledger, i: nat, j: nat)
    requires Inv(d) && Inv(n) && i < |d.blocks| && j < |n.blocks| && Crossed(d.arena, n.arena)
    ensures Apart(d.blocks[i].addr, d.blocks[i].len, n.blocks[j].addr, n.blocks[j].len)
  {
    assert InChunk(d.arena, d.blocks[i]) && InChunk(n.arena, n.blocks[j]);
  }

  lemma WithinArena(l: Ledger, i: nat, j: nat)
    requires Inv(l) && i < |l.blocks| && j < |l.blocks| && i != j
    ensures Apart(l.blocks[i].addr, l.blocks[i].len, l.blocks[j].addr, l.blocks[j].len)
  {
    assert InChunk(l.arena, l.blocks[i]) && InChunk(l.arena, l.blocks[j]);
  }

  /** For every sequence of proper requests on either arena, from either `init`: each request is answered by
      a block of its size in lines, and all the blocks, of both arenas together, are pairwise disjoint. */
  lemma CallsSafe(first: nat, dramBase: nat, nvmBase: nat, cs: seq<Call>, i: nat, j: nat)
    requires first <= ALLOC_SIZE && Apart(dramBase, first, nvmBase, first)
    requires ProperCalls(Fresh(first, dramBase), Fresh(first, nvmBase), cs)
    requires i < |cs| && j < |cs| && i != j
    ensures var (d, n) := CallAll(Fresh(first, dramBase), Fresh(first, nvmBase), cs);
            var bs, rs := d.blocks + n.blocks, Of(cs, false) + Of(cs, true);
            && |bs| == |rs| == |cs| && bs[i].len == Rounded(rs[i].size)
            && Apart(bs[i].addr, bs[i].len, bs[j].addr, bs[j].len)
  {
    hide Inv, CallAll, ProperCalls, Crossed, ServeAll, Rounded;
    FreshInv(first, dramBase, nvmBase);
    FreshInv(first, nvmBase, dramBase);
    CallsKeep(Fresh(first, dramBase), Fresh(first, nvmBase), cs);
    var (d, n) := CallAll(Fresh(first, dramBase), Fresh(first, nvmBase), cs);
    ArenasIndependent(Fresh(first, dramBase), Fresh(first, nvmBase), cs);
    OneBlockEach(Fresh(first, dramBase), Of(cs, false));
    OneBlockEach(Fresh(first, nvmBase), Of(cs, true));
    AllRequests(cs);
    var k := |d.blocks|;
    if i < k && j < k {
      WithinArena(d, i, j);
    } else if i >= k && j >= k {
      WithinArena(n, i - k, j - k);
    } else if i < k {
      AcrossArenas(d, n, i, j - k);
    } else {
      AcrossArenas(d, n, j, i - k);
    }
  }

  lemma FreshInv(first: nat, base: nat, other: nat)
    requires first <= ALLOC_SIZE && Apart(base, first, other, first)
    ensures Inv(Fresh(first, base)) && Crossed(Fresh(first, base).arena, Fresh(first, other).arena)
  {
  }

  lemma {:induction false} AllRequests(cs: seq<Call>)
    ensures |Of(cs, false)| + |Of(cs, true)| == |cs|
  {
    if cs != [] {
      AllRequests(cs[..|cs| - 1]);
    }
  }

  // ----- Outside the contract -----

  /** A request is served inside a chunk exactly when it asks for no more than a chunk: larger ones
      run past its end, and those within 63 bytes of the top of the address range get no bytes. */
  lemma ServedInsideExactly(a: Arena, r: Request)
    requires Cursor(a) && r.size < WORD
    ensures var p := Prepared(a, r);
            p.curr + r.size <= p.chunks[p.Last()] + p.Capacity(p.Last()) <==> r.size <= ALLOC_SIZE
  {
  }

  /** One line too much, and the remaining count wraps: every following request of up to a chunk is
      served without a new chunk, past the end of the newest one. */
  lemma OversizeCorrupts(base: nat, next: nat)
    ensures var a := Served(Arena(ALLOC_SIZE, [base], base, ALLOC_SIZE), Request(ALLOC_SIZE + 64, next));
            a.left == WORD - 64 &&
            (forall r: Request :: r.size <= ALLOC_SIZE ==> !Opens(a, r) && Prepared(a, r).curr >= next + ALLOC_SIZE)
  {
  }

  /** That can be memory handed out before: with the new chunk right below the first, 128 bytes, one
      line too much and 64 bytes give a third block inside the first. */
  lemma OversizeCollides(next: nat, any: nat)
    ensures var base := next + ALLOC_SIZE;
            var l := Serve(Serve(Serve(Fresh(ALLOC_SIZE, base), Request(128, any)), Request(ALLOC_SIZE + 64, next)),
                           Request(64, any));
            l.arena.chunks == [base, next] && Apart(base, ALLOC_SIZE, next, ALLOC_SIZE) &&
            l.blocks[0].addr == base && l.blocks[0].len == 128 &&
            l.blocks[2].addr == base + 64 && l.blocks[2].len == 64
  {
  }

  /** After `free` the next non-empty DRAM block comes from a new chunk, never from a freed one. */
  lemma FreshAfterFree(a: Arena, r: Request)
    requires a.left == 0 && 0 < r.size <= ALLOC_SIZE
    ensures Opens(a, r) && Prepared(a, r).curr == r.base && Served(a, r).chunks == a.chunks + [r.base]
    ensures Served(a, r).curr + Served(a, r).left == r.base + ALLOC_SIZE
  {
    RoundedUp(r.size);
  }
}
