/** OptaneStudy/microbenchmark/rw_sep_multithread.cpp: pairs of threads store to per-pair buffers,
    either all at once (Task1) or writers first and "readers", which store around the cache, after the
    join (Task3). */
module RwThreads {
  import opened AllocRuns
  import opened FastAlloc
  import opened Loops
  import opened Memory
  import opened Stride
  import Streams

  const NUMTHREAD := 8

  // ----- Interleavings -----

  /** `t` runs all the threads to completion, in any order that keeps each thread's own. */
  ghost predicate Interleaves(threads: seq<seq<Event>>, t: seq<Event>)
    decreases |t|
  {
    if t == [] then forall i :: 0 <= i < |threads| ==> threads[i] == []
    else exists i ::
      && 0 <= i < |threads| && threads[i] != [] && threads[i][0] == t[0]
      && Interleaves(threads[i := threads[i][1..]], t[1..])
  }

  /** What thread `i` issues when `who` says which thread each access comes from. */
  function Issued(t: seq<Event>, who: seq<nat>, i: nat): seq<Event>
    requires |t| == |who|
  {
    if t == [] then []
    else (if who[0] == i then [t[0]] else []) + Issued(t[1..], who[1..], i)
  }

  /** `who` accounts for all of `t`, and each thread's part is that thread. */
  ghost predicate Accounts(threads: seq<seq<Event>>, t: seq<Event>, who: seq<nat>) {
    && |who| == |t|
    && (forall k :: 0 <= k < |who| ==> who[k] < |threads|)
    && (forall i :: 0 <= i < |threads| ==> Issued(t, who, i) == threads[i])
  }

  /** The interleavings are exactly the streams in which every access can be assigned to a thread such that
      each thread's accesses, in order, are that thread: no order is ruled out, and none other is let in. */
  lemma InterleavesExactly(threads: seq<seq<Event>>, t: seq<Event>)
    ensures Interleaves(threads, t) <==> exists who :: Accounts(threads, t, who)
  {
    if Interleaves(threads, t) {
      var who := Assigned(threads, t);
    }
    if who :| Accounts(threads, t, who) {
      FromAssigned(threads, t, who);
    }
  }

  lemma {:induction false} Assigned(threads: seq<seq<Event>>, t: seq<Event>) returns (who: seq<nat>)
    requires Interleaves(threads, t)
    ensures Accounts(threads, t, who)
    decreases |t|
  {
    if t == [] {
      who := [];
    } else {
      var i :| 0 <= i < |threads| && threads[i] != [] && threads[i][0] == t[0] &&
               Interleaves(threads[i := threads[i][1..]], t[1..]);
      var rest := Assigned(threads[i := threads[i][1..]], t[1..]);
      who := [i] + rest;
      assert who[1..] == rest;
      forall j | 0 <= j < |threads|
        ensures Issued(t, who, j) == threads[j]
      {
        assert Issued(t[1..], rest, j) == threads[i := threads[i][1..]][j];
      }
    }
  }

  lemma {:induction false} FromAssigned(threads: seq<seq<Event>>, t: seq<Event>, who: seq<nat>)
    requires Accounts(threads, t, who)
    ensures Interleaves(threads, t)
    decreases |t|
  {
    if t != [] {
      var i := who[0];
      var rest := threads[i := threads[i][1..]];
      assert Issued(t, who, i) == threads[i];
      forall j | 0 <= j < |rest|
        ensures Issued(t[1..], who[1..], j) == rest[j]
      {
        assert Issued(t, who, j) == threads[j];
      }
      FromAssigned(rest, t[1..], who[1..]);
    }
  }

  ghost predicate Issues(threads: seq<seq<Event>>, e: Event) {
    exists i :: 0 <= i < |threads| && e in threads[i]
  }

  lemma {:induction false} InterleavedEvents(threads: seq<seq<Event>>, t: seq<Event>, e: Event)
    requires Interleaves(threads, t)
    ensures e in t <==> Issues(threads, e)
    decreases |t|
  {
    if t != [] {
      var i :| 0 <= i < |threads| && threads[i] != [] && threads[i][0] == t[0] &&
               Interleaves(threads[i := threads[i][1..]], t[1..]);
      var rest := threads[i := threads[i][1..]];
      InterleavedEvents(rest, t[1..], e);
      assert t == [t[0]] + t[1..] && threads[i] == [t[0]] + rest[i];
      if e in t[1..] {
        var j :| 0 <= j < |rest| && e in rest[j];
        assert e in threads[j];
      }
      if Issues(threads, e) && e != t[0] {
        var j :| 0 <= j < |threads| && e in threads[j];
        assert e in rest[j];
      }
    }
  }

  ghost function Flatten(threads: seq<seq<Event>>): seq<Event> {
    if threads == [] then [] else threads[0] + Flatten(threads[1..])
  }

  /** Running the threads one after the other, once the first `k` have finished, is one of the orders. */
  lemma {:induction false} InOrder(threads: seq<seq<Event>>, k: nat)
    requires k <= |threads| && forall i :: 0 <= i < k ==> threads[i] == []
    ensures Interleaves(threads, Flatten(threads[k..]))
    decreases |Flatten(threads[k..])|, |threads| - k
  {
    if k < |threads| {
      var t := Flatten(threads[k..]);
      assert threads[k..][1..] == threads[k + 1..];
      if threads[k] == [] {
        assert t == Flatten(threads[k + 1..]);
        InOrder(threads, k + 1);
      } else {
        var rest := threads[k := threads[k][1..]];
        assert rest[k..][0] == threads[k][1..] && rest[k..][1..] == threads[k + 1..];
        assert t[1..] == Flatten(rest[k..]) && t[0] == threads[k][0];
        InOrder(rest, k);
      }
    }
  }

  /** All the threads together put one word only into each line. */
  ghost predicate ThreadsAgree(threads: seq<seq<Event>>) {
    forall e, f :: Issues(threads, e) && Issues(threads, f) && e.Writes() && f.Writes() && e.addr == f.addr
                   ==> e.word == f.word
  }

  /** Every interleaving of agreeing threads leaves the memory that any trace of the same events leaves. */
  lemma ScheduleIndependence(mem: Lines, threads: seq<seq<Event>>, t: seq<Event>, u: seq<Event>)
    requires ThreadsAgree(threads) && Interleaves(threads, t)
    requires forall e :: e in u <==> Issues(threads, e)
    ensures Agree(t) && ApplyAll(mem, t) == ApplyAll(mem, u)
  {
    forall e
      ensures e in t <==> Issues(threads, e)
    {
      InterleavedEvents(threads, t, e);
    }
    SameEventsSameMemory(mem, t, u);
  }

  // ----- The threads of the benchmark -----

  ghost function Threads(kind: Kind, bufs: seq<nat>, n: nat, skip: nat, count: nat): seq<seq<Event>> {
    seq(|bufs|, i requires 0 <= i < |bufs| => StrideTrace(kind, bufs[i], n, skip, count))
  }

  /** Thread `i` runs the kernel of its group over its own buffer. */
  lemma ThreadStream(kind: Kind, bufs: seq<nat>, n: nat, skip: nat, count: nat, i: nat, b: nat, j: nat)
    requires i < |bufs| && b < count && j < n
    ensures var ts, len := Threads(kind, bufs, n, skip, count), Streams.Instructions(kind, n) + 1;
            && |ts| == |bufs| && |ts[i]| == count * len && Streams.FenceAt(ts[i], b * len + len - 1)
            && Streams.Performs(kind, ts[i], b * len + Streams.Instructions(kind, j),
                                bufs[i] + b * skip + 64 * j, bufs[i])
  {
    Streams.StrideStream(kind, bufs[i], n, skip, count, b, j);
  }

  /** No two buffers of `bytes` bytes overlap. */
  ghost predicate Separate(bufs: seq<nat>, bytes: nat) {
    forall i, j :: 0 <= i < |bufs| && 0 <= j < |bufs| && i != j ==> Apart(bufs[i], bytes, bufs[j], bytes)
  }

  lemma ThreadWrites(kind: Kind, bufs: seq<nat>, n: nat, skip: nat, count: nat, e: Event) returns (i: nat)
    requires 64 * n <= skip && Issues(Threads(kind, bufs, n, skip, count), e) && e.Writes()
    ensures i < |bufs| && e.word == bufs[i] && bufs[i] <= e.addr < bufs[i] + count * skip
  {
    hide StrideTrace;
    i :| 0 <= i < |bufs| && e in Threads(kind, bufs, n, skip, count)[i];
    StrideWithin(kind, bufs[i], n, skip, count, e);
    StrideStamps(kind, bufs[i], n, skip, count);
    BaseIs(bufs[i], skip, count);
  }

  /** Every write of the two thread groups, whichever kernel it comes from, stamps a line of some buffer
      with the address of that buffer. */
  lemma GroupWrites(bufs: seq<nat>, n: nat, skip: nat, count: nat, e: Event) returns (i: nat)
    requires 64 * n <= skip && e.Writes()
    requires Issues(Threads(STFLUSH, bufs, n, skip, count) + Threads(NT, bufs, n, skip, count), e)
    ensures i < |bufs| && e.word == bufs[i] && bufs[i] <= e.addr < bufs[i] + count * skip
  {
    IssuesEither(Threads(STFLUSH, bufs, n, skip, count), Threads(NT, bufs, n, skip, count), e);
    if Issues(Threads(STFLUSH, bufs, n, skip, count), e) {
      i := ThreadWrites(STFLUSH, bufs, n, skip, count, e);
    } else {
      i := ThreadWrites(NT, bufs, n, skip, count, e);
    }
  }

  lemma IssuesEither(p: seq<seq<Event>>, q: seq<seq<Event>>, e: Event)
    ensures Issues(p + q, e) <==> Issues(p, e) || Issues(q, e)
  {
    if Issues(p, e) {
      var i :| 0 <= i < |p| && e in p[i];
      assert e in (p + q)[i];
    }
    if Issues(q, e) {
      var i :| 0 <= i < |q| && e in q[i];
      assert e in (p + q)[|p| + i];
    }
  }

  lemma SameBuffer(bufs: seq<nat>, bytes: nat, i: nat, j: nat, a: int)
    requires Separate(bufs, bytes) && i < |bufs| && j < |bufs|
    requires bufs[i] <= a < bufs[i] + bytes && bufs[j] <= a < bufs[j] + bytes
    ensures i == j
  {
  }

  lemma PairsAgree(bufs: seq<nat>, n: nat, skip: nat, count: nat)
    requires 64 * n <= skip && Separate(bufs, count * skip)
    ensures ThreadsAgree(Threads(STFLUSH, bufs, n, skip, count) + Threads(NT, bufs, n, skip, count))
  {
    var ts := Threads(STFLUSH, bufs, n, skip, count) + Threads(NT, bufs, n, skip, count);
    forall e, f | Issues(ts, e) && Issues(ts, f) && e.Writes() && f.Writes() && e.addr == f.addr
      ensures e.word == f.word
    {
      var i := GroupWrites(bufs, n, skip, count, e);
      var j := GroupWrites(bufs, n, skip, count, f);
      SameBuffer(bufs, count * skip, i, j, e.addr);
    }
  }

  /** Task1 and Task3 do the same work: however the scheduler interleaves the writer and the reader
      threads in Task1 (`t`), and the writers (`w`) and then the readers (`r`) in Task3, over any number
      of pairs with separate buffers, both tasks leave the same memory. */
  lemma TasksAgree(mem: Lines, bufs: seq<nat>, n: nat, skip: nat, count: nat,
                   t: seq<Event>, w: seq<Event>, r: seq<Event>)
    requires 64 * n <= skip && Separate(bufs, count * skip)
    requires Interleaves(Threads(STFLUSH, bufs, n, skip, count) + Threads(NT, bufs, n, skip, count), t)
    requires Interleaves(Threads(STFLUSH, bufs, n, skip, count), w)
    requires Interleaves(Threads(NT, bufs, n, skip, count), r)
    ensures ApplyAll(mem, t) == ApplyAll(mem, w + r)
  {
    hide Interleaves, ApplyAll;
    var p, q := Threads(STFLUSH, bufs, n, skip, count), Threads(NT, bufs, n, skip, count);
    PairsAgree(bufs, n, skip, count);
    forall e
      ensures e in w + r <==> Issues(p + q, e)
    {
      InterleavedEvents(p, w, e);
      InterleavedEvents(q, r, e);
      IssuesEither(p, q, e);
    }
    ScheduleIndependence(mem, p + q, t, w + r);
  }

  /** And what they leave: every accessed line of the i-th buffer holds the address of that buffer. */
  lemma TaskLine(mem: Lines, bufs: seq<nat>, n: nat, skip: nat, count: nat, t: seq<Event>, i: nat, k: nat, j: nat)
    requires 64 * n <= skip && Separate(bufs, count * skip)
    requires Interleaves(Threads(STFLUSH, bufs, n, skip, count) + Threads(NT, bufs, n, skip, count), t)
    requires i < |bufs| && k < count && j < n
    ensures Read(ApplyAll(mem, t), Base(bufs[i], skip, k) + 64 * j) == bufs[i]
  {
    hide Interleaves, ApplyAll, StrideTrace;
    var p, q := Threads(STFLUSH, bufs, n, skip, count), Threads(NT, bufs, n, skip, count);
    TaskAgrees(bufs, n, skip, count, t);
    AgreeingTrace(mem, t);
    StrideWrites(NT, bufs[i], n, skip, count, k, j);
    StrideStamps(NT, bufs[i], n, skip, count);
    var e: Event :| e in q[i] && e.Writes() && e.addr == Base(bufs[i], skip, k) + 64 * j;
    assert Issues(q, e);
    IssuesEither(p, q, e);
    InterleavedEvents(p + q, t, e);
  }

  /** No line outside the buffers changes. */
  lemma TaskFrame(mem: Lines, bufs: seq<nat>, n: nat, skip: nat, count: nat, t: seq<Event>, a: int)
    requires 64 * n <= skip && Separate(bufs, count * skip)
    requires Interleaves(Threads(STFLUSH, bufs, n, skip, count) + Threads(NT, bufs, n, skip, count), t)
    requires forall i :: 0 <= i < |bufs| ==> a < bufs[i] || bufs[i] + count * skip <= a
    ensures Read(ApplyAll(mem, t), a) == Read(mem, a)
  {
    hide Interleaves, ApplyAll, StrideTrace;
    TaskAgrees(bufs, n, skip, count, t);
    AgreeingTrace(mem, t);
    forall e | e in t && e.Writes()
      ensures e.addr != a
    {
      InterleavedEvents(Threads(STFLUSH, bufs, n, skip, count) + Threads(NT, bufs, n, skip, count), t, e);
      var i := GroupWrites(bufs, n, skip, count, e);
    }
  }

  lemma TaskAgrees(bufs: seq<nat>, n: nat, skip: nat, count: nat, t: seq<Event>)
    requires 64 * n <= skip && Separate(bufs, count * skip)
    requires Interleaves(Threads(STFLUSH, bufs, n, skip, count) + Threads(NT, bufs, n, skip, count), t)
    ensures Agree(t)
  {
    hide Interleaves, StrideTrace;
    var ts := Threads(STFLUSH, bufs, n, skip, count) + Threads(NT, bufs, n, skip, count);
    PairsAgree(bufs, n, skip, count);
    forall e
      ensures e in t <==> Issues(ts, e)
    {
      InterleavedEvents(ts, t, e);
    }
  }

  // ----- The buffers -----

  /** The requests `init` makes of one allocator. */
  function Requests(bytes: nat, place: seq<nat>): seq<Request> {
    seq(|place|, i requires 0 <= i < |place| => Request(bytes, place[i]))
  }

  lemma NextServed(l: Ledger, rs: seq<Request>, i: nat)
    requires l.used != [] && i < |rs|
    ensures var p, q := ServeAll(l, rs[..i]), ServeAll(l, rs[..i + 1]);
            q.arena == Served(p.arena, rs[i]) && |q.blocks| == |p.blocks| + 1 && p.blocks == q.blocks[..|p.blocks|] &&
            q.blocks[|p.blocks|].addr == Prepared(p.arena, rs[i]).curr
  {
    hide Served, Prepared;
    assert rs[..i + 1][..i] == rs[..i];
  }

  /** `init_fast_allocator`. */
  method InitFastAllocator(dramBase: nat, nvmBase: nat) returns (a: FastAllocator)
    ensures fresh(a) && fresh(a.dram) && fresh(a.nvm) && a.Valid()
    ensures a.Nvm() == Arena(ALLOC_SIZE, [nvmBase], nvmBase, ALLOC_SIZE) && a.nvmCnt == 1
  {
    a := new FastAllocator();
    a.Init(dramBase, nvmBase);
  }

  /** One allocator's share of `init`: a persistent buffer of `bytes` bytes for each thread pair. */
  method InitBuffers(buf: array<nat>, bytes: nat, dramBase: nat, nvmBase: nat, place: seq<nat>)
    returns (alloc: FastAllocator)
    requires buf.Length == |place| == NUMTHREAD
    requires ProperRun(Fresh(ALLOC_SIZE, nvmBase), Requests(bytes, place))
    modifies buf
    ensures Separate(buf[..], bytes)
    ensures fresh(alloc) && alloc.Valid()
    ensures alloc.Nvm() == ServeAll(Fresh(ALLOC_SIZE, nvmBase), Requests(bytes, place)).arena
  {
    hide Rounded, Served, Opens, Prepared, ProperRun, ServeAll;
    alloc := InitFastAllocator(dramBase, nvmBase);
    ghost var l, rs := Fresh(ALLOC_SIZE, nvmBase), Requests(bytes, place);
    assert rs[..0] == [];
    NothingServed(l);
    for i := 0 to NUMTHREAD
      invariant fresh(alloc) && fresh(alloc.dram) && fresh(alloc.nvm) && alloc.Valid() && alloc.nvmCnt <= 1 + i
      invariant alloc.Nvm() == ServeAll(l, rs[..i]).arena
      invariant |ServeAll(l, rs[..i]).blocks| == i
      invariant forall j :: 0 <= j < i ==> buf[j] == ServeAll(l, rs[..i]).blocks[j].addr
    {
      NextServed(l, rs, i);
      buf[i] := alloc.Alloc(bytes, true, place[i]);
    }
    assert rs[..NUMTHREAD] == rs;
    forall i, j | 0 <= i < NUMTHREAD && 0 <= j < NUMTHREAD && i != j
      ensures Apart(buf[i], bytes, buf[j], bytes)
    {
      RunSafe(ALLOC_SIZE, nvmBase, rs, i, j);
      RunSafe(ALLOC_SIZE, nvmBase, rs, j, i);
    }
  }
}
