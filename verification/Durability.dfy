/** What a power failure leaves of the storing kernels of OptaneStudy/src/memaccess.c, which fence after
    every block: the strided kernels and `chasing_storeclwb`. */
module Durability {
  import opened Chasing
  import opened ChasingIndex
  import opened Loops
  import opened Memory
  import opened Persistence
  import opened Stride

  // ----- Prefixes -----

  /** A run cut off after `m` accesses, once the part `d` of the trace `t` is complete. */
  lemma CutOff(p: seq<Event>, t: seq<Event>, d: seq<Event>, m: nat) returns (v: seq<Event>)
    requires d <= t && |p + d| <= m <= |p + t|
    ensures (p + t)[..m] == p + d + v && (forall e :: e in v ==> e in t)
  {
    v := (p + t)[|p + d|..m];
    assert p + t == p + d + t[|d|..];
    assert v == t[|d|..m - |p|];
  }

  lemma {:induction false} StridePrefix(kind: Kind, start: int, n: nat, skip: int, i: nat, k: nat)
    requires i <= k
    ensures StrideTrace(kind, start, n, skip, i) <= StrideTrace(kind, start, n, skip, k)
  {
    hide Block;
    if i < k {
      StridePrefix(kind, start, n, skip, i, k - 1);
    }
  }

  lemma {:induction false} StorePrefix(c: seq<nat>, start: int, n: nat, skip: int, i: nat, k: nat)
    requires Closed(c) && i <= k
    ensures StoreTrace(c, start, n, skip, i) <= StoreTrace(c, start, n, skip, k)
  {
    hide StorePass;
    if i < k {
      StorePrefix(c, start, n, skip, i, k - 1);
    }
  }

  // ----- The strided kernels -----

  lemma {:induction false} BlockSettles(boot: Lines, p: seq<Event>, kind: Kind, base: int, n: nat, word: int, a: int)
    requires kind != ST && Settled(boot, p, a)
    ensures Settled(boot, p + Block(kind, base, n, word), a)
  {
    hide Settled;
    var t := p + Block(kind, base, n, word);
    if n == 0 {
      assert t == p;
    } else {
      var s, b := p + Block(kind, base, n - 1, word), base + 64 * (n - 1);
      BlockSettles(boot, p, kind, base, n - 1, word, a);
      assert t == s + Access(kind, b, word);
      if kind == STFLUSH {
        SettledFlush(boot, s, b, word, a);
      } else {
        SettledStep(boot, s, Access(kind, b, word)[0], a);
      }
    }
  }

  lemma SureSettled(boot: Lines, t: seq<Event>, a: int)
    requires Sure(boot, t, a)
    ensures Settled(boot, t, a)
  {
  }

  /** After every block, no line is at risk. */
  lemma {:induction false} StrideSettles(boot: Lines, p: seq<Event>, kind: Kind, start: int, n: nat, skip: int, k: nat,
                                         a: int)
    requires kind != ST && k >= 1 && Settled(boot, p, a)
    ensures Sure(boot, p + StrideTrace(kind, start, n, skip, k), a)
  {
    hide Settled, Sure, Block;
    var t, b := StrideTrace(kind, start, n, skip, k - 1), Block(kind, Base(start, skip, k - 1), n, start);
    if k > 1 {
      StrideSettles(boot, p, kind, start, n, skip, k - 1, a);
      SureSettled(boot, p + t, a);
    } else {
      assert p + t == p;
    }
    BlockSettles(boot, p + t, kind, Base(start, skip, k - 1), n, start, a);
    SettledFence(boot, p + t + b, a);
    assert p + t + b + [MFence] == p + StrideTrace(kind, start, n, skip, k);
  }

  /** A line may only gain words that are stored into it. */
  lemma {:induction false} SurvivorsGain(boot: Lines, t: seq<Event>, u: seq<Event>, a: int, w: int)
    requires Survivors(boot, t, a) <= {Read(ApplyAll(boot, t), a), w} && Stamps(u, w)
    ensures Survivors(boot, t + u, a) <= {Read(ApplyAll(boot, t), a), w}
  {
    if u == [] {
      assert t + u == t;
    } else {
      var v := u[..|u| - 1];
      SurvivorsGain(boot, t, v, a, w);
      assert (t + u)[..|t + u| - 1] == t + v;
      MemorySurvives(boot, t + v, a);
      assert u[|u| - 1] in u;
    }
  }

  /** A kernel that writes its lines back, or bypasses the cache, cut off anywhere after `i` blocks: their
      lines hold its start address whatever the failure took, however the blocks overlap, and every
      other line holds that or what it held before the kernel. */
  lemma StrideCrash(boot: Lines, p: seq<Event>, kind: Kind, start: int, n: nat, skip: int, count: nat, i: nat, m: nat,
                    image: Lines, a: int)
    requires kind != ST && kind != LD && i <= count && Sure(boot, p, a)
    requires var t := StrideTrace(kind, start, n, skip, count);
             |p + StrideTrace(kind, start, n, skip, i)| <= m <= |p + t| && CrashImage(boot, (p + t)[..m], image)
    ensures (exists k, j :: LineAt(start, n, skip, i, a, k, j)) ==> Read(image, a) == start
    ensures Read(image, a) in {start, Read(ApplyAll(boot, p), a)}
  {
    hide StrideTrace, Survivors, Sure, ApplyAll, Settled;
    var t, d := StrideTrace(kind, start, n, skip, count), StrideTrace(kind, start, n, skip, i);
    StridePrefix(kind, start, n, skip, i, count);
    var v := CutOff(p, t, d, m);
    StrideStamps(kind, start, n, skip, count);
    StrideStamps(kind, start, n, skip, i);
    SureIs(boot, p, a);
    SurvivorsGain(boot, p, d + v, a, start);
    assert p + d + v == p + (d + v);
    if exists k, j :: LineAt(start, n, skip, i, a, k, j) {
      SureSettled(boot, p, a);
      StrideSettles(boot, p, kind, start, n, skip, i, a);
      SureIs(boot, p + d, a);
      ApplyConcat(boot, p, d);
      StrideMemory(ApplyAll(boot, p), kind, start, n, skip, i, a);
      StaysSure(boot, p + d, v, a, start);
    }
  }

  lemma SureIs(boot: Lines, t: seq<Event>, a: int)
    requires Sure(boot, t, a)
    ensures Survivors(boot, t, a) == {Read(ApplyAll(boot, t), a)}
  {
  }

  /** Without a write-back nothing is ever certain: a fence alone removes no survivor. */
  lemma {:induction false} NeverFlushed(boot: Lines, t: seq<Event>, u: seq<Event>, a: int)
    requires StateOf(t, a) != Pending && (forall e :: e in u ==> e.Store? || e.MFence?)
    ensures Survivors(boot, t, a) <= Survivors(boot, t + u, a) && StateOf(t + u, a) != Pending
  {
    if u == [] {
      assert t + u == t;
    } else {
      NeverFlushed(boot, t, u[..|u| - 1], a);
      assert (t + u)[..|t + u| - 1] == t + u[..|u| - 1];
      assert u[|u| - 1] in u;
    }
  }

  lemma {:induction false} PlainBlock(base: int, n: nat, word: int, e: Event)
    requires e in Block(ST, base, n, word)
    ensures e.Store?
  {
    if e in Block(ST, base, n - 1, word) {
      PlainBlock(base, n - 1, word, e);
    }
  }

  lemma {:induction false} PlainStride(start: int, n: nat, skip: int, k: nat, e: Event)
    requires e in StrideTrace(ST, start, n, skip, k)
    ensures e.Store? || e.MFence?
  {
    hide Block;
    if e in StrideTrace(ST, start, n, skip, k - 1) {
      PlainStride(start, n, skip, k - 1, e);
    } else if e in Block(ST, Base(start, skip, k - 1), n, start) {
      PlainBlock(Base(start, skip, k - 1), n, start, e);
    }
  }

  /** When a storing kernel has returned, a line it changed is certain to keep its new word exactly when
      the kernel is not the one that leaves its lines in the cache: `stride_store` fences in vain. */
  lemma DurableExactly(boot: Lines, p: seq<Event>, kind: Kind, start: int, n: nat, skip: int, count: nat, k: nat,
                       j: nat, a: int)
    requires kind != LD && LineAt(start, n, skip, count, a, k, j)
    requires Sure(boot, p, a) && Read(ApplyAll(boot, p), a) != start
    ensures (forall image :: CrashImage(boot, p + StrideTrace(kind, start, n, skip, count), image)
                             ==> Read(image, a) == start)
            <==> kind != ST
  {
    hide StrideTrace, Survivors, ApplyAll, Sure;
    var t := StrideTrace(kind, start, n, skip, count);
    if kind == ST {
      forall e | e in t
        ensures e.Store? || e.MFence?
      {
        PlainStride(start, n, skip, count, e);
      }
      OldWordSurvives(boot, p, t, a);
    } else {
      forall image | CrashImage(boot, p + t, image)
        ensures Read(image, a) == start
      {
        assert (p + t)[..|p + t|] == p + t;
        StrideCrash(boot, p, kind, start, n, skip, count, count, |p + t|, image, a);
      }
    }
  }

  lemma OldWordSurvives(boot: Lines, p: seq<Event>, t: seq<Event>, a: int)
    requires Sure(boot, p, a) && (forall e :: e in t ==> e.Store? || e.MFence?)
    ensures exists image :: CrashImage(boot, p + t, image) && Read(image, a) == Read(ApplyAll(boot, p), a)
  {
    hide Survivors, ApplyAll;
    NeverFlushed(boot, p, t, a);
    var w := Read(ApplyAll(boot, p), a);
    var image := ApplyAll(boot, p + t)[a := w];
    forall b
      ensures Read(image, b) in Survivors(boot, p + t, b)
    {
      MemorySurvives(boot, p + t, b);
    }
    assert CrashImage(boot, p + t, image) && Read(image, a) == w;
  }

  // ----- chasing_storeclwb -----

  lemma {:induction false} PassSettles(boot: Lines, p: seq<Event>, c: seq<nat>, base: int, n: nat, a: int)
    requires Closed(c) && Settled(boot, p, a)
    ensures Settled(boot, p + StorePass(c, base, n), a)
  {
    hide Settled, Orbit;
    var t := p + StorePass(c, base, n);
    if n == 0 {
      assert t == p;
    } else {
      var s, b := p + StorePass(c, base, n - 1), base + 64 * Orbit(c, n - 1);
      PassSettles(boot, p, c, base, n - 1, a);
      SettledFlush(boot, s, b, Orbit(c, n), a);
      assert t == s + [Store(b, Orbit(c, n)), Clwb(b)];
    }
  }

  /** After every block, no line is at risk, spaced or not: a failure leaves what memory holds. */
  lemma {:induction false} StoreSettles(boot: Lines, p: seq<Event>, c: seq<nat>, start: int, n: nat, skip: int, k: nat,
                                        a: int)
    requires Closed(c) && k >= 1 && Settled(boot, p, a)
    ensures Sure(boot, p + StoreTrace(c, start, n, skip, k), a)
  {
    hide Settled, Sure, StorePass;
    var t, b := StoreTrace(c, start, n, skip, k - 1), StorePass(c, Base(start, skip, k - 1), n);
    if k > 1 {
      StoreSettles(boot, p, c, start, n, skip, k - 1, a);
      SureSettled(boot, p + t, a);
    } else {
      assert p + t == p;
    }
    PassSettles(boot, p + t, c, Base(start, skip, k - 1), n, a);
    SettledFence(boot, p + t + b, a);
    assert p + t + b + [MFence] == p + StoreTrace(c, start, n, skip, k);
  }

  /** With spaced blocks, a failure anywhere after `i` blocks leaves every link of those blocks. */
  lemma LinksDurable(boot: Lines, p: seq<Event>, c: seq<nat>, start: int, n: nat, skip: int, blocks: nat, i: nat,
                     m: nat, image: Lines, k: nat, j: nat)
    requires Closed(c) && Spaced(|c|, skip, blocks) && k < i <= blocks && j < n
    requires Settled(boot, p, Base(start, skip, k) + 64 * Orbit(c, j))
    requires var t := StoreTrace(c, start, n, skip, blocks);
             |p + StoreTrace(c, start, n, skip, i)| <= m <= |p + t| && CrashImage(boot, (p + t)[..m], image)
    ensures Read(image, Base(start, skip, k) + 64 * Orbit(c, j)) == Orbit(c, j + 1)
  {
    hide StoreTrace, StorePass, Survivors, Sure, Settled, ApplyAll, Base, Orbit;
    var t, d := StoreTrace(c, start, n, skip, blocks), StoreTrace(c, start, n, skip, i);
    var a, w := Base(start, skip, k) + 64 * Orbit(c, j), Orbit(c, j + 1);
    StorePrefix(c, start, n, skip, i, blocks);
    var v := CutOff(p, t, d, m);
    StoreSettles(boot, p, c, start, n, skip, i, a);
    SureIs(boot, p + d, a);
    ApplyConcat(boot, p, d);
    LinksSurvive(ApplyAll(boot, p), c, start, n, skip, i, k, j);
    SpacedStoresAgree(c, start, n, skip, blocks);
    StoreInPass(c, Base(start, skip, k), n, j);
    PassInTrace(c, start, n, skip, blocks, k, Store(a, w));
    StaysSure(boot, p + d, v, a, w);
  }

  /** The crash round trip: after a power failure anywhere past `i` blocks, following the links found in
      memory retraces the stores of those blocks. */
  lemma CrashRoundTrip(boot: Lines, p: seq<Event>, c: seq<nat>, start: int, n: nat, skip: int, blocks: nat, i: nat,
                       m: nat, image: Lines)
    requires Closed(c) && |c| <= MAX_INDEX && Spaced(|c|, skip, blocks) && i <= blocks
    requires forall a :: Settled(boot, p, a)
    requires var t := StoreTrace(c, start, n, skip, blocks);
             |p + StoreTrace(c, start, n, skip, i)| <= m <= |p + t| && CrashImage(boot, (p + t)[..m], image)
    ensures Addresses(LoadTrace(image, start, n, skip, i)) == Addresses(StoreTrace(c, start, n, skip, i))
  {
    hide StoreTrace, LoadTrace, CrashImage, Settled, Addresses, Orbit, Base;
    forall k, j | 0 <= k < i && 0 <= j < n - 1
      ensures Read(image, Base(start, skip, k) + 64 * Orbit(c, j)) == Orbit(c, j + 1)
    {
      LinksDurable(boot, p, c, start, n, skip, blocks, i, m, image, k, j);
    }
    TraceReadBack(image, c, start, n, skip, i);
  }
}
