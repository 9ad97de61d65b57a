/** fastallocate/rw_sep.cpp: `wr_mix` reads and writes object by object; `wr_sep` first reads all the
    sampled objects, then writes them in pairs.  The objects come from the allocator, so they are
    distinct; of each only the first 64-bit field is touched, and that is what the array holds. */
module WrMixSep {
  import opened Words

  /** _mm_stream_si32 of the field plus one: the low half is replaced, the high half stays. */
  function Streamed(w: nat): nat {
    High(w) * 0x1_0000_0000 + Low(w + 1)
  }

  /** The field after `k` of these. */
  function Gained(w: nat, k: nat): nat {
    if k == 0 then w else Streamed(Gained(w, k - 1))
  }

  /** Each write adds one to the low half, modulo 2^32. */
  lemma {:induction false} GainedIs(w: nat, k: nat)
    ensures High(Gained(w, k)) == High(w) && Low(Gained(w, k)) == Low(w + k)
  {
    hide Low, High, Streamed;
    if k > 0 {
      GainedIs(w, k - 1);
      StreamedIs(Gained(w, k - 1));
      LowAdds(Gained(w, k - 1), w + k - 1, 1);
    }
  }

  lemma StreamedIs(w: nat)
    ensures High(Streamed(w)) == High(w) && Low(Streamed(w)) == Low(w + 1)
  {
  }

  /** Whether index `x` is one of the first `n` samples, which are four apart. */
  predicate Sample(x: nat, n: nat) {
    x % 4 == 0 && x / 4 < n
  }

  /** The objects after `k` rounds over `n` samples, and a round that has reached sample `j`. */
  ghost predicate After(now: seq<nat>, was: seq<nat>, n: nat, k: nat, j: nat) {
    |now| == |was| &&
    forall x :: 0 <= x < |now| ==>
      now[x] == Gained(was[x], if Sample(x, j) then k + 1 else if Sample(x, n) then k else 0)
  }

  /** Stream sample `j`. */
  method StreamSample(a: array<nat>, j: nat, ghost was: seq<nat>, ghost n: nat, ghost k: nat)
    requires j < n && 4 * j < a.Length && After(a[..], was, n, k, j)
    modifies a
    ensures After(a[..], was, n, k, j + 1)
  {
    hide Streamed;
    Samples(j);
    a[4 * j] := Streamed(a[4 * j]);
  }

  method WrMix(a: array<nat>, nRw: nat, sepGrn: nat)
    requires sepGrn >= 1 && 4 * (sepGrn - 1) < a.Length
    modifies a
    ensures After(a[..], old(a[..]), sepGrn, nRw / sepGrn, 0)
  {
    hide Gained;
    NoneYet(a[..], sepGrn);
    for i := 0 to nRw / sepGrn
      invariant After(a[..], old(a[..]), sepGrn, i, 0)
    {
      for j := 0 to sepGrn
        invariant After(a[..], old(a[..]), sepGrn, i, j)
      {
        StreamSample(a, j, old(a[..]), sepGrn, i);
      }
      RoundDone(a[..], old(a[..]), sepGrn, i);
    }
  }

  lemma NoneYet(now: seq<nat>, n: nat)
    ensures After(now, now, n, 0, 0)
  {
  }

  lemma Samples(j: nat)
    ensures forall x: nat :: Sample(x, j + 1) <==> Sample(x, j) || x == 4 * j
  {
  }

  lemma RoundDone(now: seq<nat>, was: seq<nat>, n: nat, k: nat)
    requires After(now, was, n, k, n)
    ensures After(now, was, n, k + 1, 0)
  {
  }

  /** Samples touched by a loop that handles two at a time. */
  function EvenUp(n: nat): nat {
    n + n % 2
  }

  /** One round of `wr_sep`: read the samples, then write them two by two. */
  method SepRound(a: array<nat>, sepGrn: nat, ghost was: seq<nat>, ghost n: nat, ghost k: nat)
    requires sepGrn <= n <= sepGrn + 1 && n % 2 == 0 && 4 * (n - 1) < a.Length
    requires After(a[..], was, n, k, 0)
    modifies a
    ensures After(a[..], was, n, k + 1, 0)
  {
    hide Gained, After;
    var j := 0;
    while j < sepGrn
      invariant 0 <= j <= n && j % 2 == 0
    {
      var first, second := a[4 * j], a[4 * (j + 1)];
      j := j + 2;
    }
    j := 0;
    while j < sepGrn
      invariant 0 <= j <= n && j % 2 == 0
      invariant After(a[..], was, n, k, j)
    {
      StreamSample(a, j, was, n, k);
      StreamSample(a, j + 1, was, n, k);
      j := j + 2;
    }
    RoundDone(a[..], was, n, k);
  }

  method WrSep(a: array<nat>, nRw: nat, sepGrn: nat)
    requires sepGrn >= 1 && 4 * (EvenUp(sepGrn) - 1) < a.Length
    modifies a
    ensures After(a[..], old(a[..]), EvenUp(sepGrn), nRw / sepGrn, 0)
  {
    hide Gained, After;
    NoneYet(a[..], EvenUp(sepGrn));
    for i := 0 to nRw / sepGrn
      invariant After(a[..], old(a[..]), EvenUp(sepGrn), i, 0)
    {
      SepRound(a, sepGrn, old(a[..]), EvenUp(sepGrn), i);
    }
  }

  /** Both loops give the same objects exactly when the sample count is even (for an odd count `wr_sep`
      also writes one object more), or when the extra writes wrap the low half around. */
  lemma MixEqualsSep(was: seq<nat>, mix: seq<nat>, sep: seq<nat>, nRw: nat, sepGrn: nat)
    requires sepGrn >= 1 && 4 * (EvenUp(sepGrn) - 1) < |was|
    requires After(mix, was, sepGrn, nRw / sepGrn, 0) && After(sep, was, EvenUp(sepGrn), nRw / sepGrn, 0)
    ensures mix == sep <==> sepGrn % 2 == 0 || Low(nRw / sepGrn) == 0
  {
    hide After, EvenUp, Low;
    EqualAfter(was, mix, sep, sepGrn, nRw / sepGrn);
  }

  lemma EqualAfter(was: seq<nat>, mix: seq<nat>, sep: seq<nat>, n: nat, k: nat)
    requires n >= 1 && 4 * (EvenUp(n) - 1) < |was|
    requires After(mix, was, n, k, 0) && After(sep, was, EvenUp(n), k, 0)
    ensures mix == sep <==> n % 2 == 0 || Low(k) == 0
  {
    hide After, Low;
    if n % 2 == 0 {
      Determined(was, mix, sep, n, k);
    } else {
      OneSampleMore(was, mix, sep, n, k);
    }
  }

  lemma Determined(was: seq<nat>, p: seq<nat>, q: seq<nat>, n: nat, k: nat)
    requires After(p, was, n, k, 0) && After(q, was, n, k, 0)
    ensures p == q
  {
    hide Gained, Sample;
  }

  lemma OneSampleMore(was: seq<nat>, p: seq<nat>, q: seq<nat>, n: nat, k: nat)
    requires After(p, was, n, k, 0) && After(q, was, n + 1, k, 0) && 4 * n < |was|
    ensures p == q <==> Low(k) == 0
  {
    hide Gained, Low;
    var x := 4 * n;
    assert Sample(x, n + 1) && !Sample(x, n) && !Sample(x, 0);
    assert p[x] == Gained(was[x], 0) && q[x] == Gained(was[x], k);
    GainedBack(was[x], k);
    forall y | 0 <= y < |was| && y != x
      ensures p[y] == q[y]
    {
      Samples(n);
    }
  }

  /** A field is back at its old value after `k` writes exactly when `k` wraps the low half around. */
  lemma GainedBack(w: nat, k: nat)
    ensures Gained(w, k) == Gained(w, 0) <==> Low(k) == 0
  {
    hide Low, High, Gained;
    GainedIs(w, k);
    GainedIs(w, 0);
    LowWraps(w, k);
    if Low(k) == 0 {
      SameHalves(Gained(w, k), Gained(w, 0));
    }
  }

  lemma LowWraps(w: nat, k: nat)
    ensures Low(w + k) == Low(w + 0) <==> Low(k) == 0
  {
    assert w + k == 0x1_0000_0000 * High(w + k) + Low(w + k);
    assert w == 0x1_0000_0000 * High(w) + Low(w);
    assert k == 0x1_0000_0000 * High(k) + Low(k);
  }

  // ----- The driver -----

  /** Entries of the object table for the command-line argument. */
  function TableSize(arg: int): int {
    (arg - 1) * 4 + 1
  }

  /** The sample counts the benchmark goes through, whatever the argument was. */
  const GRAINS: seq<nat> := [16, 32, 64, 128, 256, 512]

  /** Every sampled index is in the table exactly when the argument was at least 512. */
  lemma IndicesInTable(arg: int)
    ensures (forall k :: 0 <= k < |GRAINS| ==> 4 * (GRAINS[k] - 1) < TableSize(arg)) <==> arg >= 512
  {
    assert GRAINS[5] == 512;
  }
}
