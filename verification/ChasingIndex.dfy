/** `init_chasing_index` (OptaneStudy/src/memaccess.c): a random cyclic order of the indices, built by
    rejection.  The hardware generator is a supply of draws; each draw may come up dry (rdrand with the
    carry clear).  A finite supply may run out, which stands for a loop that is still drawing. */
module ChasingIndex {
  import opened Finite

  const RDRAND_MAX_RETRY := 32

  datatype Draw = Dry | Drawn(value: nat)

  datatype Outcome = Built | Failed | Drawing

  // ----- The reference: extend a path by the first fresh draw -----

  datatype Result = Result(outcome: Outcome, path: seq<nat>)

  /** The path from index 0 that the supply yields, where a draw is taken unless the path already visits
      it, and `dry` draws in a row have failed so far. */
  function Build(n: nat, path: seq<nat>, dry: nat, draws: seq<Draw>): Result
    requires n > 0
    decreases |draws|
  {
    if |path| >= n then Result(Built, path)
    else if draws == [] then Result(Drawing, path)
    else
      match draws[0]
      case Dry =>
        if dry + 1 >= RDRAND_MAX_RETRY then Result(Failed, path) else Build(n, path, dry + 1, draws[1..])
      case Drawn(v) =>
        Build(n, if v % n in path then path else path + [v % n], 0, draws[1..])
  }

  /** A path of distinct indices below `n` that begins at 0. */
  ghost predicate SimplePath(path: seq<nat>, n: nat) {
    path != [] && path[0] == 0 && Distinct(path) && Bounded(path, n)
  }

  /** The array links each node of the path to the next, and is zero elsewhere: also at the last node. */
  ghost predicate Links(c: seq<nat>, path: seq<nat>) {
    && SimplePath(path, |c|)
    && (forall j :: 0 <= j < |path| - 1 ==> c[path[j]] == path[j + 1])
    && (forall x :: 0 <= x < |c| && x !in path[..|path| - 1] ==> c[x] == 0)
  }

  /** The test of the source, a non-zero entry or the current node, is membership in the path: this
      holds because no entry but the missing one of the last node can be 0. */
  lemma VisitedTest(c: seq<nat>, path: seq<nat>, x: nat)
    requires Links(c, path) && x < |c|
    ensures (c[x] != 0 || x == path[|path| - 1]) <==> x in path
  {
    if x in path {
      var j :| 0 <= j < |path| && path[j] == x;
      if j < |path| - 1 {
        assert c[path[j]] == path[j + 1] != path[0];
      }
    } else {
      assert x !in path[..|path| - 1];
    }
  }

  lemma AddLink(c: seq<nat>, path: seq<nat>, x: nat)
    requires Links(c, path) && x < |c| && x !in path
    ensures Links(c[path[|path| - 1] := x], path + [x])
  {
    assert (path + [x])[..|path|] == path;
    assert forall y :: y !in path ==> y !in path[..|path| - 1];
  }

  // ----- The source -----

  datatype Rand = Value(rd: nat) | NoEntropy | Unsettled

  /** All draws from `from` up to `to` come up dry. */
  predicate DryFor(draws: seq<Draw>, from: nat, to: nat)
    requires to <= |draws|
  {
    forall k :: from <= k < to ==> draws[k].Dry?
  }

  /** `get_rand`: the first draw that is not dry, reduced modulo `range`, if it comes within 32 tries;
      and what that means for the path. */
  method GetRand(draws: seq<Draw>, pos: nat, range: nat, ghost path: seq<nat>) returns (r: Rand, pos': nat)
    requires range > 0 && pos <= |draws| && |path| < range
    ensures pos <= pos' <= |draws|
    ensures match r
            case Value(v) =>
              && pos < pos' <= pos + RDRAND_MAX_RETRY && DryFor(draws, pos, pos' - 1)
              && draws[pos' - 1].Drawn? && v == draws[pos' - 1].value % range
            case NoEntropy => pos' == pos + RDRAND_MAX_RETRY && DryFor(draws, pos, pos')
            case Unsettled => pos' == |draws| < pos + RDRAND_MAX_RETRY && DryFor(draws, pos, pos')
    ensures match r
            case Value(v) =>
              Build(range, path, 0, draws[pos..]) ==
              Build(range, if v in path then path else path + [v], 0, draws[pos'..])
            case NoEntropy => Build(range, path, 0, draws[pos..]) == Result(Failed, path)
            case Unsettled => Build(range, path, 0, draws[pos..]) == Result(Drawing, path)
  {
    pos' := pos;
    var i := 0;
    while i < RDRAND_MAX_RETRY
      invariant 0 <= i <= RDRAND_MAX_RETRY && pos' == pos + i <= |draws| && DryFor(draws, pos, pos')
      invariant if i < RDRAND_MAX_RETRY
                then Build(range, path, 0, draws[pos..]) == Build(range, path, i, draws[pos'..])
                else Build(range, path, 0, draws[pos..]) == Result(Failed, path)
    {
      if pos' == |draws| {
        return Unsettled, pos';
      }
      assert draws[pos'..][1..] == draws[pos' + 1..];
      if draws[pos'].Drawn? {
        return Value(draws[pos'].value % range), pos' + 1;
      }
      pos', i := pos' + 1, i + 1;
    }
    r := NoEntropy;
  }

  /** The inner loop: draw until the entry is zero and not the current position. */
  method NextFresh(cindex: array<nat>, draws: seq<Draw>, pos: nat, currPos: nat, ghost path: seq<nat>)
    returns (r: Rand, pos': nat)
    requires pos <= |draws| && Links(cindex[..], path) && |path| < cindex.Length
    requires currPos == path[|path| - 1]
    ensures pos <= pos' <= |draws|
    ensures var b := Build(cindex.Length, path, 0, draws[pos..]);
            match r
            case Value(v) => v < cindex.Length && v !in path && b == Build(cindex.Length, path + [v], 0, draws[pos'..])
            case NoEntropy => b == Result(Failed, path)
            case Unsettled => b == Result(Drawing, path)
  {
    r, pos' := Unsettled, pos;
    var again := true;
    while again
      invariant pos <= pos' <= |draws|
      invariant if again
                then Build(cindex.Length, path, 0, draws[pos..]) == Build(cindex.Length, path, 0, draws[pos'..])
                else r.Value? && r.rd < cindex.Length && r.rd !in path &&
                     Build(cindex.Length, path, 0, draws[pos..]) ==
                     Build(cindex.Length, path + [r.rd], 0, draws[pos'..])
      decreases |draws| - pos', again
    {
      r, pos' := GetRand(draws, pos', cindex.Length, path);
      if !r.Value? {
        return;
      }
      VisitedTest(cindex[..], path, r.rd);
      again := cindex[r.rd] != 0 || r.rd == currPos;
    }
  }

  /** `init_chasing_index`: the array holds exactly the links of the reference path. */
  method InitChasingIndex(cindex: array<nat>, draws: seq<Draw>) returns (ret: Outcome)
    requires cindex.Length >= 1
    modifies cindex
    ensures ret == Build(cindex.Length, [0], 0, draws).outcome
    ensures Links(cindex[..], Build(cindex.Length, [0], 0, draws).path)
  {
    var csize := cindex.Length;
    for k := 0 to csize
      invariant forall j :: 0 <= j < k ==> cindex[j] == 0
    {
      cindex[k] := 0;
    }
    var currPos: nat, pos: nat := 0, 0;
    ghost var path: seq<nat> := [0];
    for i := 0 to csize - 1
      invariant pos <= |draws| && |path| == i + 1 && path[i] == currPos
      invariant Links(cindex[..], path)
      invariant Build(csize, [0], 0, draws) == Build(csize, path, 0, draws[pos..])
    {
      var r, p := NextFresh(cindex, draws, pos, currPos, path);
      if !r.Value? {
        return if r.NoEntropy? then Failed else Drawing;
      }
      AddLink(cindex[..], path, r.rd);
      ghost var was := cindex[..];
      cindex[currPos] := r.rd;
      assert cindex[..] == was[path[i] := r.rd];
      path := path + [r.rd];
      currPos, pos := r.rd, p;
    }
    ret := Built;
  }

  // ----- Following the array -----

  ghost predicate Closed(c: seq<nat>) {
    c != [] && Bounded(c, |c|)
  }

  /** The node reached from index 0 in `j` steps. */
  ghost function Orbit(c: seq<nat>, j: nat): (x: nat)
    requires Closed(c)
    ensures x < |c|
  {
    if j == 0 then 0 else c[Orbit(c, j - 1)]
  }

  /** One ring through all the indices: no node repeats in the first |c| steps, and the step after
      them is back at 0. */
  ghost predicate Cycle(c: seq<nat>) {
    && Closed(c)
    && (forall i, j :: 0 <= i < j < |c| ==> Orbit(c, i) != Orbit(c, j))
    && Orbit(c, |c|) == 0
  }

  ghost function Lap(c: seq<nat>): seq<nat>
    requires Closed(c)
  {
    seq(|c|, (j: nat) => Orbit(c, j))
  }

  lemma {:induction false} FollowLinks(c: seq<nat>, path: seq<nat>, j: nat)
    requires Links(c, path) && Closed(c) && j < |path|
    ensures Orbit(c, j) == path[j]
  {
    if j > 0 {
      FollowLinks(c, path, j - 1);
    }
  }

  lemma LinksClosed(c: seq<nat>, path: seq<nat>)
    requires Links(c, path)
    ensures Closed(c)
  {
    forall x | 0 <= x < |c|
      ensures c[x] < |c|
    {
      if x in path[..|path| - 1] {
        var j :| 0 <= j < |path| - 1 && path[j] == x;
        assert c[path[j]] == path[j + 1];
      }
    }
  }

  /** Every array that links all indices is one ring: the entry nobody wrote closes it. */
  lemma FullPathIsCycle(c: seq<nat>, path: seq<nat>)
    requires Links(c, path) && |path| == |c|
    ensures Cycle(c)
  {
    LinksClosed(c, path);
    forall j | 0 <= j < |c|
      ensures Orbit(c, j) == path[j]
    {
      FollowLinks(c, path, j);
    }
    assert path[|c| - 1] !in path[..|c| - 1];
  }

  /** A ring visits every index, in exactly one of the first |c| steps. */
  lemma CycleVisitsAll(c: seq<nat>, v: nat) returns (j: nat)
    requires Cycle(c) && v < |c|
    ensures j < |c| && Orbit(c, j) == v
    ensures forall i :: 0 <= i < |c| && Orbit(c, i) == v ==> i == j
  {
    PermutationOnto(Lap(c), |c|, v);
    j :| 0 <= j < |c| && Lap(c)[j] == v;
  }

  /** Distinct nodes of a ring have distinct successors. */
  lemma CycleInjective(c: seq<nat>, a: nat, b: nat)
    requires Cycle(c) && a < |c| && b < |c| && c[a] == c[b]
    ensures a == b
  {
    var i := CycleVisitsAll(c, a);
    var j := CycleVisitsAll(c, b);
    assert Orbit(c, i + 1) == Orbit(c, j + 1);
    assert Orbit(c, 0) == 0 == Orbit(c, |c|);
    assert i + 1 == |c| || Orbit(c, i + 1) != Orbit(c, 0);
    assert j + 1 == |c| || Orbit(c, j + 1) != Orbit(c, 0);
  }

  // ----- What the construction yields -----

  /** Whatever is drawn, the reference stays a simple path from 0, and it is done only when the path
      visits every index. */
  lemma {:induction false} BuildPath(n: nat, path: seq<nat>, dry: nat, draws: seq<Draw>)
    requires n > 0 && SimplePath(path, n)
    ensures var r := Build(n, path, dry, draws);
            SimplePath(r.path, n) && (r.outcome.Built? <==> |r.path| == n)
    decreases |draws|
  {
    Absent(path, n);
    if |path| < n && draws != [] {
      match draws[0]
      case Dry =>
        if dry + 1 < RDRAND_MAX_RETRY {
          BuildPath(n, path, dry + 1, draws[1..]);
        }
      case Drawn(v) =>
        BuildPath(n, if v % n in path then path else path + [v % n], 0, draws[1..]);
    }
  }

  /** Soundness: when the construction reports success, the array it leaves is one ring; when it gives
      up, the array is a simple path from 0 through fewer nodes. */
  lemma SingleCycle(c: seq<nat>, draws: seq<Draw>)
    requires c != [] && Links(c, Build(|c|, [0], 0, draws).path)
    ensures Build(|c|, [0], 0, draws).outcome.Built? ==> Cycle(c)
    ensures !Build(|c|, [0], 0, draws).outcome.Built? ==> |Build(|c|, [0], 0, draws).path| < |c|
  {
    BuildPath(|c|, [0], 0, draws);
    Absent(Build(|c|, [0], 0, draws).path, |c|);
    if Build(|c|, [0], 0, draws).outcome.Built? {
      FullPathIsCycle(c, Build(|c|, [0], 0, draws).path);
    }
  }

  ghost function DrawsOf(path: seq<nat>): seq<Draw> {
    if path == [] then [] else [Drawn(path[0])] + DrawsOf(path[1..])
  }

  lemma SimplePrefix(p: seq<nat>, k: nat, n: nat)
    requires SimplePath(p, n) && 1 <= k < |p|
    ensures SimplePath(p[..k], n) && p[k] < n && p[k] !in p[..k] && p[..k + 1] == p[..k] + [p[k]]
  {
    assert p[..k + 1] == p[..k] + [p[k]];
  }

  lemma BuildDraws(n: nat, path: seq<nat>, draws: seq<Draw>)
    requires |path| < n && draws != [] && draws[0].Drawn?
    ensures var v := draws[0].value % n;
            Build(n, path, 0, draws) == Build(n, if v in path then path else path + [v], 0, draws[1..])
  {
  }

  lemma BuildTakes(n: nat, path: seq<nat>, v: nat, draws: seq<Draw>)
    requires |path| < n && v < n && v !in path
    ensures Build(n, path, 0, [Drawn(v)] + draws) == Build(n, path + [v], 0, draws)
  {
    hide Build;
    BuildDraws(n, path, [Drawn(v)] + draws);
    assert ([Drawn(v)] + draws)[1..] == draws;
  }

  lemma {:induction false} BuildAsDrawn(n: nat, p: seq<nat>, k: nat)
    requires n > 0 && SimplePath(p, n) && |p| == n && 1 <= k <= n
    ensures Build(n, p[..k], 0, DrawsOf(p[k..])) == Result(Built, p)
    decreases n - k
  {
    if k == n {
      assert p[..k] == p;
    } else {
      SimplePrefix(p, k, n);
      BuildAsDrawn(n, p, k + 1);
      assert p[k..][0] == p[k] && p[k..][1..] == p[k + 1..];
      BuildTakes(n, p[..k], p[k], DrawsOf(p[k + 1..]));
    }
  }

  lemma LapHops(c: seq<nat>)
    requires Cycle(c)
    ensures Lap(c)[0] == 0 && c[Lap(c)[|c| - 1]] == 0
    ensures forall j :: 0 <= j < |c| - 1 ==> c[Lap(c)[j]] == Lap(c)[j + 1]
  {
    assert Orbit(c, |c|) == c[Orbit(c, |c| - 1)];
  }

  lemma LapLinks(c: seq<nat>)
    requires Cycle(c)
    ensures Links(c, Lap(c))
  {
    hide Orbit;
    var p := Lap(c);
    var last := |p| - 1;
    LapHops(c);
    forall k | 0 <= k < last
      ensures p[k] in p[..last]
    {
      assert p[..last][k] == p[k];
    }
    forall x | 0 <= x < |c| && x !in p[..last]
      ensures c[x] == 0
    {
      var j := CycleVisitsAll(c, x);
      assert p[j] == x;
    }
  }

  /** Completeness: every ring through all the indices is the outcome of some draws. */
  lemma EveryCycleDrawn(c: seq<nat>) returns (draws: seq<Draw>)
    requires Cycle(c)
    ensures Build(|c|, [0], 0, draws) == Result(Built, Lap(c)) && Links(c, Lap(c))
  {
    LapLinks(c);
    draws := DrawsOf(Lap(c)[1..]);
    BuildAsDrawn(|c|, Lap(c), 1);
    assert Lap(c)[..1] == [0];
  }

  // ----- Progress -----

  /** After `i` links exactly n - 1 - i values are acceptable, so at least one until the ring is
      complete. */
  lemma AcceptableDraws(c: seq<nat>, path: seq<nat>)
    requires Links(c, path) && |path| < |c|
    ensures |set x | x in Below(|c|) && !(c[x] != 0 || x == path[|path| - 1])| == |c| - |path| >= 1
  {
    Absent(path, |c|);
    forall x: nat | x < |c|
      ensures (c[x] != 0 || x == path[|path| - 1]) <==> x in path
    {
      VisitedTest(c, path, x);
    }
    assert (set x | x in Below(|c|) && !(c[x] != 0 || x == path[|path| - 1])) == Below(|c|) - Elements(path);
  }

  ghost function Supply(f: nat -> Draw, from: nat, to: nat): seq<Draw>
    requires from <= to
  {
    seq(to - from, (i: nat) => f(from + i))
  }

  /** No 32 draws in a row come up dry, and every index keeps being drawn. */
  ghost predicate Fair(f: nat -> Draw, n: nat)
    requires n > 0
  {
    && (forall p: nat :: WetSoon(f, p))
    && (forall p: nat, v: nat :: v < n ==> DrawnLater(f, n, p, v))
  }

  ghost predicate WetSoon(f: nat -> Draw, p: nat) {
    exists q :: p <= q < p + RDRAND_MAX_RETRY && f(q).Drawn?
  }

  ghost predicate DrawnLater(f: nat -> Draw, n: nat, p: nat, v: nat)
    requires n > 0
  {
    exists q :: q >= p && f(q).Drawn? && f(q).value % n == v
  }

  /** The reference after the draw at `p`. */
  ghost function Drew(f: nat -> Draw, n: nat, path: seq<nat>, dry: nat, p: nat, to: nat): Result
    requires n > 0 && p < to
  {
    match f(p)
    case Dry =>
      if dry + 1 >= RDRAND_MAX_RETRY then Result(Failed, path) else Build(n, path, dry + 1, Supply(f, p + 1, to))
    case Drawn(v) => Build(n, if v % n in path then path else path + [v % n], 0, Supply(f, p + 1, to))
  }

  lemma BuildSupply(f: nat -> Draw, n: nat, path: seq<nat>, dry: nat, p: nat, to: nat)
    requires |path| < n && p < to
    ensures Build(n, path, dry, Supply(f, p, to)) == Drew(f, n, path, dry, p, to)
  {
    assert Supply(f, p, to)[1..] == Supply(f, p + 1, to);
  }

  /** Under a fair supply the next fresh index arrives; `since` is where the current dry spell began. */
  lemma {:induction false} NextLink(f: nat -> Draw, n: nat, path: seq<nat>, since: nat, p: nat, q: nat)
    returns (r: nat, x: nat)
    requires n > 0 && Fair(f, n) && |path| < n
    requires since <= p <= q && (forall k :: since <= k < p ==> f(k).Dry?)
    requires f(q).Drawn? && f(q).value % n !in path
    ensures p < r && x < n && x !in path
    ensures forall to :: to >= r ==>
              Build(n, path, p - since, Supply(f, p, to)) == Build(n, path + [x], 0, Supply(f, r, to))
    decreases q - p
  {
    hide Build;
    forall to | to > p
      ensures Build(n, path, p - since, Supply(f, p, to)) == Drew(f, n, path, p - since, p, to)
    {
      BuildSupply(f, n, path, p - since, p, to);
    }
    assert WetSoon(f, since);
    var s :| since <= s < since + RDRAND_MAX_RETRY && f(s).Drawn?;
    assert p <= s;
    match f(p)
    case Dry =>
      r, x := NextLink(f, n, path, since, p + 1, q);
    case Drawn(v) =>
      if v % n in path {
        r, x := NextLink(f, n, path, p + 1, p + 1, q);
      } else {
        r, x := p + 1, v % n;
      }
  }

  /** Under a fair supply the construction terminates, with a ring. */
  lemma {:induction false} FairTerminates(f: nat -> Draw, n: nat, path: seq<nat>, p: nat) returns (to: nat)
    requires n > 0 && Fair(f, n) && SimplePath(path, n)
    ensures to >= p && Build(n, path, 0, Supply(f, p, to)).outcome.Built?
    decreases n - |path|
  {
    Absent(path, n);
    if |path| == n {
      to := p;
    } else {
      assert Below(n) - Elements(path) != {};
      var v :| v in Below(n) - Elements(path);
      assert DrawnLater(f, n, p, v);
      var q :| q >= p && f(q).Drawn? && f(q).value % n == v;
      var r, x := NextLink(f, n, path, p, p, q);
      to := FairTerminates(f, n, path + [x], r);
    }
  }
}
