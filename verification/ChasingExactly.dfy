/** When the chase retraces its stores whatever ring the generator drew: the exact condition on the
    arguments of the kernels, for every number of hops. */
module ChasingExactly {
  import opened Chasing
  import opened ChasingIndex
  import opened Finite
  import opened Loops
  import opened Memory

  /** The loads visit the lines of the stores, in order. */
  ghost predicate Retraces(mem: Lines, c: seq<nat>, start: int, n: nat, skip: int, blocks: nat)
    requires Closed(c)
  {
    var t := StoreTrace(c, start, n, skip, blocks);
    Addresses(LoadTrace(ApplyAll(mem, t), start, n, skip, blocks)) == Addresses(t)
  }

  /** Blocks that may overlap do no harm when there is one node, or one hop, or when there are two hops
      and the blocks go upwards: then each block is finished before a link of it could be lost. */
  predicate Retraceable(size: nat, n: nat, skip: int, blocks: nat) {
    size <= 1 || n <= 1 || (n == 2 && skip > 0) || Spaced(size, skip, blocks)
  }

  // ----- A ring with a given first link -----

  /** The nodes in the order 0, s, s + 1, .., n - 1, 1, .., s - 1. */
  function TurnedPath(n: nat, s: nat): seq<nat>
    requires 1 <= s < n
  {
    seq(n, j requires 0 <= j < n => if j == 0 then 0 else if s + j - 1 < n then s + j - 1 else s + j - n)
  }

  function Turned(n: nat, s: nat): seq<nat>
    requires 1 <= s < n
  {
    seq(n, x requires 0 <= x < n =>
      if x == 0 then s
      else if x + 1 == s then 0
      else if x + 1 < n then x + 1
      else if s == 1 then 0 else 1)
  }

  lemma TurnedIsRing(n: nat, s: nat)
    requires 1 <= s < n
    ensures Cycle(Turned(n, s)) && |Turned(n, s)| == n && Turned(n, s)[0] == s
  {
    var c, p := Turned(n, s), TurnedPath(n, s);
    forall k | 0 <= k < n - 1
      ensures p[k] in p[..n - 1]
    {
      assert p[..n - 1][k] == p[k];
    }
    forall x | 0 <= x < n && x !in p[..n - 1]
      ensures c[x] == 0
    {
      var j := if x == 0 then 0 else if x >= s then x - s + 1 else x - s + n;
      assert p[j] == x;
    }
    FullPathIsCycle(c, p);
  }

  // ----- Two hops -----

  lemma ApplyHop(mem: Lines, t: seq<Event>, a: int, w: int)
    ensures ApplyAll(mem, t + [Store(a, w), Clwb(a)]) == ApplyAll(mem, t)[a := w]
    ensures ApplyAll(mem, t + [MFence]) == ApplyAll(mem, t)
  {
    assert (t + [Store(a, w), Clwb(a)])[..|t| + 1] == t + [Store(a, w)];
    assert (t + [Store(a, w)])[..|t|] == t == (t + [MFence])[..|t|];
  }

  /** A pass of two hops writes the line of the block, and then the line of its first link. */
  lemma TwoHopPass(mem: Lines, c: seq<nat>, t: seq<Event>, base: int)
    requires Closed(c)
    ensures ApplyAll(mem, t + StorePass(c, base, 2) + [MFence]) ==
            ApplyAll(mem, t)[base := Orbit(c, 1)][base + 64 * Orbit(c, 1) := Orbit(c, 2)]
  {
    hide ApplyAll, Orbit;
    var p, a := StorePass(c, base, 1), base + 64 * Orbit(c, 1);
    FirstNode(c);
    assert StorePass(c, base, 0) == [];
    assert p == [Store(base, Orbit(c, 1)), Clwb(base)];
    assert StorePass(c, base, 2) == p + [Store(a, Orbit(c, 2)), Clwb(a)];
    assert t + StorePass(c, base, 2) == t + p + [Store(a, Orbit(c, 2)), Clwb(a)];
    ApplyHop(mem, t, base, Orbit(c, 1));
    ApplyHop(mem, t + p, a, Orbit(c, 2));
    ApplyHop(mem, t + StorePass(c, base, 2), a, 0);
  }

  lemma FirstNode(c: seq<nat>)
    requires Closed(c)
    ensures Orbit(c, 0) == 0 && Orbit(c, 1) == c[0]
  {
  }

  lemma BaseMoves(start: int, skip: int, i: nat, k: nat)
    requires i < k
    ensures skip > 0 ==> Base(start, skip, i) < Base(start, skip, k)
    ensures skip < 0 ==> Base(start, skip, k) < Base(start, skip, i)
  {
    BaseIs(start, skip, i);
    BaseIs(start, skip, k);
    assert k * skip - i * skip == (k - i) * skip;
  }

  /** Going upwards, no later block writes the first line of an earlier one. */
  lemma {:induction false} TwoHopsUp(mem: Lines, c: seq<nat>, start: int, skip: int, blocks: nat, i: nat)
    requires Cycle(c) && |c| >= 2 && skip > 0 && i < blocks
    ensures Read(ApplyAll(mem, StoreTrace(c, start, 2, skip, blocks)), Base(start, skip, i)) == Orbit(c, 1)
  {
    hide ApplyAll, StorePass;
    TwoHopPass(mem, c, StoreTrace(c, start, 2, skip, blocks - 1), Base(start, skip, blocks - 1));
    assert Orbit(c, 0) != Orbit(c, 1);
    if i < blocks - 1 {
      TwoHopsUp(mem, c, start, skip, blocks - 1, i);
      BaseMoves(start, skip, i, blocks - 1);
    }
  }

  /** Going downwards by as much as the first link, the second block overwrites that link for good. */
  lemma {:induction false} TwoHopsDown(mem: Lines, c: seq<nat>, start: int, skip: int, blocks: nat)
    requires Cycle(c) && |c| >= 2 && skip == -64 * Orbit(c, 1) && blocks >= 2
    ensures Read(ApplyAll(mem, StoreTrace(c, start, 2, skip, blocks)), start) == Orbit(c, 2)
  {
    hide ApplyAll, StorePass;
    TwoHopPass(mem, c, StoreTrace(c, start, 2, skip, blocks - 1), Base(start, skip, blocks - 1));
    assert Orbit(c, 0) != Orbit(c, 1);
    assert Base(start, skip, 0) == start && Base(start, skip, 1) == start + skip;
    if blocks > 2 {
      TwoHopsDown(mem, c, start, skip, blocks - 1);
      BaseMoves(start, skip, 0, blocks - 1);
      BaseMoves(start, skip, 0, blocks - 2);
      assert Base(start, skip, blocks - 1) == Base(start, skip, blocks - 2) + skip;
    }
  }

  // ----- The condition suffices -----

  lemma OneNodeAgrees(c: seq<nat>, start: int, n: nat, skip: int, blocks: nat)
    requires Closed(c) && |c| == 1
    ensures Agree(StoreTrace(c, start, n, skip, blocks))
  {
    hide StoreTrace;
    var t := StoreTrace(c, start, n, skip, blocks);
    forall e | e in t && e.Writes()
      ensures e.word == c[0]
    {
      TraceStores(c, start, n, skip, blocks, blocks, e);
    }
  }

  lemma Sufficient(mem: Lines, c: seq<nat>, start: int, n: nat, skip: int, blocks: nat)
    requires Cycle(c) && |c| <= MAX_INDEX && Retraceable(|c|, n, skip, blocks)
    ensures Retraces(mem, c, start, n, skip, blocks)
  {
    hide StoreTrace, LoadTrace, ApplyAll, Addresses, Orbit;
    if Spaced(|c|, skip, blocks) {
      RoundTrip(mem, c, start, n, skip, blocks);
    } else {
      var m := ApplyAll(mem, StoreTrace(c, start, n, skip, blocks));
      forall i, j | 0 <= i < blocks && 0 <= j < n - 1
        ensures Read(m, Base(start, skip, i) + 64 * Orbit(c, j)) == Orbit(c, j + 1)
      {
        if |c| == 1 {
          OneNodeAgrees(c, start, n, skip, blocks);
          LinksStored(mem, c, start, n, skip, blocks, i, j);
        } else {
          FirstNode(c);
          TwoHopsUp(mem, c, start, skip, blocks, i);
        }
      }
      TraceReadBack(m, c, start, n, skip, blocks);
    }
  }

  // ----- The condition is necessary -----

  lemma DistinctHops(c: seq<nat>)
    requires Cycle(c) && |c| >= 2
    ensures Orbit(c, 1) != Orbit(c, 2)
  {
    assert Orbit(c, 0) == 0 != Orbit(c, 1);
  }

  /** With three hops or more, the first link of one block and a later link of its neighbour share a
      line: if both blocks are retraced, the two links are the same. */
  lemma ThreeHopsShare(mem: Lines, c: seq<nat>, upper: int, lower: int, n: nat)
    requires Closed(c) && n >= 3 && upper == lower + 64 * Orbit(c, 1)
    requires Addresses(LoadPass(mem, upper, n)) == Addresses(StorePass(c, upper, n))
    requires Addresses(LoadPass(mem, lower, n)) == Addresses(StorePass(c, lower, n))
    ensures Orbit(c, 1) == Orbit(c, 2)
  {
    hide Addresses, Shl6, LoadPass, StorePass;
    RetracedHop(mem, c, upper, n, 0);
    RetracedHop(mem, c, upper, n, 1);
    RetracedHop(mem, c, lower, n, 1);
    RetracedHop(mem, c, lower, n, 2);
    assert Shl6(Link(mem, upper, 1)) == Shl6(Read(mem, upper));
    assert Shl6(Link(mem, lower, 2)) == Shl6(Read(mem, lower + 64 * Orbit(c, 1)));
  }

  lemma TwoHopsShare(mem: Lines, c: seq<nat>, start: int)
    requires Closed(c) && |c| <= MAX_INDEX && Read(mem, start) == Orbit(c, 2)
    requires Addresses(LoadPass(mem, start, 2)) == Addresses(StorePass(c, start, 2))
    ensures Orbit(c, 1) == Orbit(c, 2)
  {
    hide Addresses, LoadPass, StorePass;
    RetracedHop(mem, c, start, 2, 1);
    assert Link(mem, start, 1) == Read(mem, start + Shl6(0));
  }

  /** Outside the condition, a ring whose first link is the stride is not retraced. */
  lemma Necessary(mem: Lines, size: nat, start: int, n: nat, skip: int, blocks: nat) returns (c: seq<nat>)
    requires size <= MAX_INDEX && skip % 64 == 0 && !Retraceable(size, n, skip, blocks)
    ensures Cycle(c) && |c| == size && !Retraces(mem, c, start, n, skip, blocks)
  {
    hide StoreTrace, LoadTrace, ApplyAll, Addresses, Orbit;
    var s := if skip > 0 then skip / 64 else -(skip / 64);
    c := Turned(size, s);
    TurnedIsRing(size, s);
    FirstNode(c);
    DistinctHops(c);
    if Retraces(mem, c, start, n, skip, blocks) {
      var m := ApplyAll(mem, StoreTrace(c, start, n, skip, blocks));
      EqualPasses(m, c, start, n, skip, blocks, 0);
      EqualPasses(m, c, start, n, skip, blocks, 1);
      assert Base(start, skip, 1) == start + skip && Base(start, skip, 0) == start;
      if n >= 3 {
        if skip > 0 {
          ThreeHopsShare(m, c, start + skip, start, n);
        } else {
          ThreeHopsShare(m, c, start, start + skip, n);
        }
      } else {
        TwoHopsDown(mem, c, start, skip, blocks);
        TwoHopsShare(m, c, start);
      }
    }
  }

  /** For every number of nodes, hops and blocks and every stride of whole lines: the loads retrace the
      stores for all the rings that the index can turn out to be, if and only if the arguments meet the
      condition. */
  lemma RoundTripOverRings(mem: Lines, size: nat, start: int, n: nat, skip: int, blocks: nat)
    requires size <= MAX_INDEX && skip % 64 == 0
    ensures (forall c: seq<nat> :: Cycle(c) && |c| == size ==> Retraces(mem, c, start, n, skip, blocks))
            <==> Retraceable(size, n, skip, blocks)
  {
    hide Retraces, Orbit;
    if Retraceable(size, n, skip, blocks) {
      forall c: seq<nat> | Cycle(c) && |c| == size
        ensures Retraces(mem, c, start, n, skip, blocks)
      {
        Sufficient(mem, c, start, n, skip, blocks);
      }
    } else {
      var c := Necessary(mem, size, start, n, skip, blocks);
    }
  }
}
