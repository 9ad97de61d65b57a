/** Next-fit: every two neighbouring chunks are more than half full, which bounds how many of the 100
    table entries a run can need. */
module AllocTable {
  import opened AllocRuns
  import opened FastAlloc
  import opened Loops
  import opened Memory

  function Sum(s: seq<nat>): nat {
    if s == [] then 0 else Sum(s[..|s| - 1]) + s[|s| - 1]
  }

  function Sizes(rs: seq<Request>): seq<nat> {
    seq(|rs|, i requires 0 <= i < |rs| => Rounded(rs[i].size))
  }

  /** The bytes used of the chunks are the bytes asked for. */
  lemma {:induction false} UsedIsAsked(l: Ledger, rs: seq<Request>)
    requires l.used != []
    ensures Sum(ServeAll(l, rs).used) == Sum(l.used) + Sum(Sizes(rs))
  {
    if rs != [] {
      var p, r := ServeAll(l, rs[..|rs| - 1]), rs[|rs| - 1];
      UsedIsAsked(l, rs[..|rs| - 1]);
      assert Sizes(rs)[..|rs| - 1] == Sizes(rs[..|rs| - 1]);
      var u := if Opens(p.arena, r) then p.used + [0] else p.used;
      assert Opens(p.arena, r) ==> u[..|u| - 1] == p.used;
      var v := u[|u| - 1 := u[|u| - 1] + Rounded(r.size)];
      assert v[..|v| - 1] == u[..|u| - 1];
    }
  }

  /** Capacity of the first chunk after either `init`. */
  predicate InitCapacity(first: nat) {
    first == ALLOC_SIZE || first == CONCURRENCY_ALLOC_SIZE
  }

  /** The least two neighbouring full-size chunks hold together. */
  const PAIR: nat := ALLOC_SIZE + 64

  /** Any two neighbouring chunks hold at least a line more than the capacity of the first of them; so
      do the chunks taken in pairs from the end. */
  lemma {:induction false} PairsFull(a: Arena, used: seq<nat>, n: nat)
    requires Usage(a, used) && n <= |used| && InitCapacity(a.first)
    ensures n >= 2 ==> Sum(used[..n]) >= Times(n / 2, PAIR) - if n % 2 == 0 then ALLOC_SIZE - a.first else 0
  {
    if n >= 2 {
      PairsFull(a, used, n - 2);
      assert used[..n][..n - 1] == used[..n - 1] && used[..n - 1][..n - 2] == used[..n - 2];
      assert used[n - 2] + used[n - 1] >= a.Capacity(n - 2) + 64;
      assert Times(n / 2, PAIR) == Times(n / 2 - 1, PAIR) + PAIR;
    }
  }

  /** Next-fit bound over every proper run after either `init`: n chunks mean that ALLOC_SIZE and a line
      were asked for, for every pair of them (less what a smaller first chunk lacks). */
  lemma NextFitBound(first: nat, base: nat, rs: seq<Request>)
    requires InitCapacity(first) && ProperRun(Fresh(first, base), rs)
    ensures var n := |ServeAll(Fresh(first, base), rs).arena.chunks|;
            n >= 2 ==> Sum(Sizes(rs)) >= n / 2 * PAIR - if n % 2 == 0 then ALLOC_SIZE - first else 0
  {
    hide ProperRun, ServeAll, Sizes;
    var l := ServeAll(Fresh(first, base), rs);
    RunKeeps(first, base, rs);
    UsedIsAsked(Fresh(first, base), rs);
    PairsFull(l.arena, l.used, |l.used|);
    assert l.used[..|l.used|] == l.used && Sum([0]) == 0;
    TimesIsProduct(|l.used| / 2, PAIR);
  }

  /** So the 100-entry table suffices, at every step and after either `init`, for requests of less than
      50 such pairs in total. */
  lemma TableSuffices(first: nat, base: nat, rs: seq<Request>)
    requires InitCapacity(first) && ProperRun(Fresh(first, base), rs) && Sum(Sizes(rs)) < TABLE / 2 * PAIR
    ensures |ServeAll(Fresh(first, base), rs).arena.chunks| <= TABLE
    ensures rs != [] ==> var a := ServeAll(Fresh(first, base), rs[..|rs| - 1]).arena;
                         Opens(a, rs[|rs| - 1]) ==> |a.chunks| < TABLE
  {
    hide ProperRun, Sizes;
    NextFitBound(first, base, rs);
    var n := |ServeAll(Fresh(first, base), rs).arena.chunks|;
    Scale(PAIR, TABLE / 2 + (n + 1) % 2, n / 2);
    assert n / 2 * PAIR == PAIR * (n / 2);
  }

  function ChunkAt(i: nat): nat {
    i * ALLOC_SIZE
  }

  /** A run that alternates a line and a whole chunk, `m` times. */
  function Alternating(m: nat): seq<Request> {
    if m == 0 then []
    else Alternating(m - 1) + [Request(64, ChunkAt(2 * m - 2))] + [Request(ALLOC_SIZE, ChunkAt(2 * m - 1))]
  }

  ghost predicate Paired(a: Arena, m: nat) {
    && a.first == ALLOC_SIZE
    && (if m == 0 then a == Fresh(ALLOC_SIZE, 0).arena else |a.chunks| == 2 * m && a.left == 0)
    && (forall i :: 0 <= i < |a.chunks| ==> a.chunks[i] == ChunkAt(i))
  }

  lemma OnePair(a: Arena, m: nat)
    requires Paired(a, m)
    ensures var q, r := Request(64, ChunkAt(2 * m)), Request(ALLOC_SIZE, ChunkAt(2 * m + 1));
            Proper(a, q) && Proper(Served(a, q), r) && Paired(Served(Served(a, q), r), m + 1)
  {
    RoundedUp(64);
    RoundedUp(ALLOC_SIZE);
  }

  lemma ServeTwo(l: Ledger, rs: seq<Request>, q: Request, r: Request)
    requires l.used != [] && ProperRun(l, rs)
    ensures ServeAll(l, rs + [q] + [r]).arena == Served(Served(ServeAll(l, rs).arena, q), r)
    ensures Proper(ServeAll(l, rs).arena, q) && Proper(Served(ServeAll(l, rs).arena, q), r)
            ==> ProperRun(l, rs + [q] + [r])
  {
    hide Proper, Served;
    assert (rs + [q])[..|rs|] == rs && (rs + [q] + [r])[..|rs| + 1] == rs + [q];
  }

  lemma SizesOfTwoMore(rs: seq<Request>, q: Request, r: Request)
    ensures Sum(Sizes(rs + [q] + [r])) == Sum(Sizes(rs)) + Rounded(q.size) + Rounded(r.size)
  {
    hide Rounded;
    var s, x, y := Sizes(rs), Rounded(q.size), Rounded(r.size);
    assert Sizes(rs + [q] + [r]) == s + [x] + [y];
    assert (s + [x] + [y])[..|s| + 1] == s + [x] && (s + [x])[..|s|] == s;
  }

  /** The bound is attained after `fastalloc::init`: that run opens 2m chunks for m * PAIR bytes. */
  lemma NextFitTight(m: nat)
    requires m >= 1
    ensures ProperRun(Fresh(ALLOC_SIZE, 0), Alternating(m))
    ensures |ServeAll(Fresh(ALLOC_SIZE, 0), Alternating(m)).arena.chunks| == 2 * m
    ensures Sum(Sizes(Alternating(m))) == m * PAIR
  {
    AlternatingRun(m);
    AlternatingSum(m);
  }

  lemma NoneServed()
    ensures ProperRun(Fresh(ALLOC_SIZE, 0), []) && Paired(ServeAll(Fresh(ALLOC_SIZE, 0), []).arena, 0)
  {
  }

  lemma {:induction false} AlternatingRun(m: nat)
    ensures ProperRun(Fresh(ALLOC_SIZE, 0), Alternating(m))
    ensures Paired(ServeAll(Fresh(ALLOC_SIZE, 0), Alternating(m)).arena, m)
  {
    hide Proper, Served, Paired, ServeAll, ProperRun, ChunkAt;
    if m == 0 {
      NoneServed();
    } else {
      var f, rs := Fresh(ALLOC_SIZE, 0), Alternating(m - 1);
      AlternatingRun(m - 1);
      OnePair(ServeAll(f, rs).arena, m - 1);
      ServeTwo(f, rs, Request(64, ChunkAt(2 * m - 2)), Request(ALLOC_SIZE, ChunkAt(2 * m - 1)));
    }
  }

  lemma {:induction false} AlternatingSum(m: nat)
    ensures Sum(Sizes(Alternating(m))) == m * PAIR
  {
    if m > 0 {
      hide Rounded, Sum, Sizes, ChunkAt;
      AlternatingSum(m - 1);
      SizesOfTwoMore(Alternating(m - 1), Request(64, ChunkAt(2 * m - 2)), Request(ALLOC_SIZE, ChunkAt(2 * m - 1)));
      RoundedUp(64);
      RoundedUp(ALLOC_SIZE);
      assert m * PAIR == (m - 1) * PAIR + PAIR;
    }
  }

  // ----- The table is exceeded one byte later -----

  /** Whole chunks and lines by turns, after `concurrency_fastalloc::init`. */
  function Shifted(m: nat): seq<Request> {
    if m == 0 then []
    else Shifted(m - 1) + [Request(ALLOC_SIZE, ChunkAt(2 * m - 1))] + [Request(64, ChunkAt(2 * m))]
  }

  ghost predicate Unpaired(a: Arena, m: nat) {
    && a.first == CONCURRENCY_ALLOC_SIZE && |a.chunks| == 2 * m + 1 && a.left < ALLOC_SIZE
    && (forall i :: 0 <= i < |a.chunks| ==> a.chunks[i] == ChunkAt(i))
  }

  lemma OneMorePair(a: Arena, m: nat)
    requires Unpaired(a, m)
    ensures var q, r := Request(ALLOC_SIZE, ChunkAt(2 * m + 1)), Request(64, ChunkAt(2 * m + 2));
            Proper(a, q) && Proper(Served(a, q), r) && Unpaired(Served(Served(a, q), r), m + 1)
  {
    RoundedUp(64);
    RoundedUp(ALLOC_SIZE);
  }

  lemma NoneShifted()
    ensures var f := Fresh(CONCURRENCY_ALLOC_SIZE, 0);
            ProperRun(f, []) && Unpaired(ServeAll(f, []).arena, 0) && Sum(Sizes([])) == 0
  {
  }

  lemma {:induction false} ShiftedRun(m: nat)
    ensures ProperRun(Fresh(CONCURRENCY_ALLOC_SIZE, 0), Shifted(m))
    ensures Unpaired(ServeAll(Fresh(CONCURRENCY_ALLOC_SIZE, 0), Shifted(m)).arena, m)
    ensures Sum(Sizes(Shifted(m))) == Times(m, PAIR)
  {
    hide Proper, Served, Unpaired, ServeAll, ProperRun, ChunkAt, Rounded, Sum, Sizes;
    NoneShifted();
    if m > 0 {
      var f, rs := Fresh(CONCURRENCY_ALLOC_SIZE, 0), Shifted(m - 1);
      var q, r := Request(ALLOC_SIZE, ChunkAt(2 * m - 1)), Request(64, ChunkAt(2 * m));
      ShiftedRun(m - 1);
      OneMorePair(ServeAll(f, rs).arena, m - 1);
      ServeTwo(f, rs, q, r);
      SizesOfTwoMore(rs, q, r);
      RoundedUp(64);
      RoundedUp(ALLOC_SIZE);
    }
  }

  /** The limit of `TableSuffices` is sharp: some proper run that asks for exactly 50 pairs opens 101
      chunks. */
  lemma TableSharp() returns (rs: seq<Request>)
    ensures ProperRun(Fresh(CONCURRENCY_ALLOC_SIZE, 0), rs) && Sum(Sizes(rs)) == TABLE / 2 * PAIR
    ensures |ServeAll(Fresh(CONCURRENCY_ALLOC_SIZE, 0), rs).arena.chunks| == TABLE + 1
  {
    hide ProperRun, ServeAll, Sizes, Sum, Shifted;
    rs := Shifted(TABLE / 2);
    ShiftedRun(TABLE / 2);
    TimesIsProduct(TABLE / 2, PAIR);
  }
}
