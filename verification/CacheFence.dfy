/** `cachefence` (OptaneStudy/src/memaccess.c): write a group of lines, write the group back, fence
    after several groups, and repeat; with a crash possible after any instruction. */
module CacheFence {
  import opened Loops
  import opened Memory
  import opened Persistence

  // ----- The stage a run has reached -----

  predicate LineOf(start: int, lines: nat, a: int) {
    start <= a < start + 64 * lines && (a - start) % 64 == 0
  }

  /** The state of the line at `a` once `w` lines from `start` on are written, `f` of them flushed and
      `d` fenced. */
  function Expected(start: int, w: nat, f: nat, d: nat, a: int): LineState {
    if !LineOf(start, w, a) then Untouched
    else if a < start + 64 * d then Durable
    else if a < start + 64 * f then Pending
    else Dirty
  }

  /** `w` lines from `start` on are written, the first `f` of them flushed, the first `d` fenced: each
      exactly once, and nothing else is touched. */
  ghost predicate Stage(t: seq<Event>, start: int, w: nat, f: nat, d: nat) {
    && d <= f <= w
    && (forall a :: StateOf(t, a) == Expected(start, w, f, d, a))
    && (forall a, v :: multiset(t)[Store(a, v)] == if LineOf(start, w, a) && v == start then 1 else 0)
    && (forall a :: multiset(t)[Clwb(a)] == if LineOf(start, f, a) then 1 else 0)
    && (forall e :: e in t ==> e.Store? || e.Clwb? || e.SFence?)
  }

  // ----- The discipline of the kernel -----

  /** Lines written, lines flushed, and lines flushed before the last fence. */
  datatype Tally = Tally(w: nat, f: nat, d: nat)

  function Count(t: seq<Event>): Tally {
    if t == [] then Tally(0, 0, 0)
    else
      var n := Count(t[..|t| - 1]);
      match t[|t| - 1]
      case Store(_, _) => n.(w := n.w + 1)
      case Clwb(_) => n.(f := n.f + 1)
      case SFence => n.(d := n.f)
      case _ => n
  }

  /** Stores and write-backs each go up line by line.  A group of `c` lines is stored before any of them is
      flushed, and flushed before the next store; a fence comes when `g` more lines are flushed. */
  ghost predicate Allowed(n: Tally, e: Event, start: int, c: nat, g: nat)
    requires c > 0 && g > 0
  {
    match e
    case Store(a, v) =>
      && a == start + 64 * n.w && v == start
      && Multiple(n.f, c) && n.w < n.f + c && n.w < n.d + g
    case Clwb(a) => a == start + 64 * n.f && n.f < n.w && Multiple(n.w, c)
    case SFence => n.f == n.w && n.d < n.w && Multiple(n.w, g)
    case _ => false
  }

  ghost predicate Disciplined(t: seq<Event>, start: int, c: nat, g: nat)
    requires c > 0 && g > 0
  {
    t == [] ||
    (Disciplined(t[..|t| - 1], start, c, g) && Allowed(Count(t[..|t| - 1]), t[|t| - 1], start, c, g))
  }

  /** One more access keeps the discipline. */
  lemma Extend(t: seq<Event>, e: Event, start: int, c: nat, g: nat)
    requires c > 0 && g > 0 && Disciplined(t, start, c, g) && Allowed(Count(t), e, start, c, g)
    ensures Disciplined(t + [e], start, c, g)
    ensures Count(t + [e]) == match e
                              case Store(_, _) => Count(t).(w := Count(t).w + 1)
                              case Clwb(_) => Count(t).(f := Count(t).f + 1)
                              case SFence => Count(t).(d := Count(t).f)
                              case _ => Count(t)
  {
    assert (t + [e])[..|t|] == t;
  }

  lemma {:induction false} PrefixDisciplined(t: seq<Event>, n: nat, start: int, c: nat, g: nat)
    requires c > 0 && g > 0 && Disciplined(t, start, c, g) && n <= |t|
    ensures Disciplined(t[..n], start, c, g)
  {
    if n == |t| {
      assert t[..n] == t;
    } else {
      PrefixDisciplined(t[..|t| - 1], n, start, c, g);
      assert t[..|t| - 1][..n] == t[..n];
    }
  }

  lemma {:induction false} DisciplineBounds(t: seq<Event>, start: int, c: nat, g: nat)
    requires c > 0 && g > 0 && Disciplined(t, start, c, g)
    ensures var n := Count(t); n.d <= n.f <= n.w && n.w - n.f <= c && n.w - n.d <= g && Multiple(n.d, g)
  {
    if t != [] {
      DisciplineBounds(t[..|t| - 1], start, c, g);
    } else {
      assert 0 == Times(0, g);
    }
  }

  lemma {:induction false} DisciplineStates(t: seq<Event>, start: int, c: nat, g: nat, a: int)
    requires c > 0 && g > 0 && Disciplined(t, start, c, g)
    ensures StateOf(t, a) == Expected(start, Count(t).w, Count(t).f, Count(t).d, a)
  {
    hide Multiple;
    if t != [] {
      DisciplineBounds(t[..|t| - 1], start, c, g);
      DisciplineStates(t[..|t| - 1], start, c, g, a);
    }
  }

  lemma {:induction false} DisciplineOnce(t: seq<Event>, start: int, c: nat, g: nat, a: int, v: int)
    requires c > 0 && g > 0 && Disciplined(t, start, c, g)
    ensures multiset(t)[Store(a, v)] == if LineOf(start, Count(t).w, a) && v == start then 1 else 0
    ensures multiset(t)[Clwb(a)] == if LineOf(start, Count(t).f, a) then 1 else 0
    ensures forall e :: e in t ==> e.Store? || e.Clwb? || e.SFence?
  {
    hide Multiple, Disciplined;
    if t != [] {
      var s, e := t[..|t| - 1], t[|t| - 1];
      LastAllowed(t, start, c, g);
      DisciplineBounds(s, start, c, g);
      DisciplineOnce(s, start, c, g, a, v);
      assert t == s + [e];
      assert multiset(t) == multiset(s) + multiset{e};
    }
  }

  /** The discipline determines the stage of every run. */
  lemma DisciplineStages(t: seq<Event>, start: int, c: nat, g: nat)
    requires c > 0 && g > 0 && Disciplined(t, start, c, g)
    ensures Stage(t, start, Count(t).w, Count(t).f, Count(t).d)
  {
    DisciplineBounds(t, start, c, g);
    forall a
      ensures StateOf(t, a) == Expected(start, Count(t).w, Count(t).f, Count(t).d, a)
    {
      DisciplineStates(t, start, c, g, a);
    }
    forall a, v
      ensures multiset(t)[Store(a, v)] == if LineOf(start, Count(t).w, a) && v == start then 1 else 0
    {
      DisciplineOnce(t, start, c, g, a, v);
    }
    forall a
      ensures multiset(t)[Clwb(a)] == if LineOf(start, Count(t).f, a) then 1 else 0
    {
      DisciplineOnce(t, start, c, g, a, 0);
    }
    DisciplineOnce(t, start, c, g, 0, 0);
  }

  // ----- The discipline leaves no choice -----

  /** In every situation one access at most is allowed. */
  lemma OneMove(n: Tally, e: Event, f: Event, start: int, c: nat, g: nat)
    requires c > 0 && g > 0 && n.d <= n.f <= n.w && Multiple(n.d, g)
    requires Allowed(n, e, start, c, g) && Allowed(n, f, start, c, g)
    ensures e == f
  {
    hide Multiple;
    if (e.Store? && f.Clwb?) || (e.Clwb? && f.Store?) {
      NextMultipleIsFar(n.f, n.w, c);
    } else if (e.Store? && f.SFence?) || (e.SFence? && f.Store?) {
      NextMultipleIsFar(n.d, n.w, g);
    }
  }

  lemma {:induction false} OneRun(t: seq<Event>, u: seq<Event>, start: int, c: nat, g: nat)
    requires c > 0 && g > 0 && Disciplined(t, start, c, g) && Disciplined(u, start, c, g) && |t| == |u|
    ensures t == u
  {
    hide Allowed, Multiple;
    if t != [] {
      var p, q := t[..|t| - 1], u[..|u| - 1];
      OneRun(p, q, start, c, g);
      DisciplineBounds(p, start, c, g);
      OneMove(Count(p), t[|t| - 1], u[|u| - 1], start, c, g);
      assert t == p + [t[|t| - 1]] && u == q + [u[|u| - 1]];
    }
  }

  function Weight(n: Tally): nat {
    n.w + n.f + n.d
  }

  lemma WeightStep(t: seq<Event>, start: int, c: nat, g: nat)
    requires c > 0 && g > 0 && Disciplined(t, start, c, g) && t != []
    ensures Weight(Count(t[..|t| - 1])) < Weight(Count(t))
  {
    hide Multiple;
    LastAllowed(t, start, c, g);
    DisciplineBounds(t[..|t| - 1], start, c, g);
  }

  lemma {:induction false} WeightGrows(t: seq<Event>, n: nat, start: int, c: nat, g: nat)
    requires c > 0 && g > 0 && Disciplined(t, start, c, g) && n < |t|
    ensures Weight(Count(t[..n])) < Weight(Count(t))
  {
    hide Disciplined, Count, Weight;
    var p := t[..|t| - 1];
    WeightStep(t, start, c, g);
    if n < |p| {
      LastAllowed(t, start, c, g);
      WeightGrows(p, n, start, c, g);
      assert p[..n] == t[..n];
    }
  }

  /** A disciplined stream is determined by what it has written, flushed and fenced: the contract of the
      kernel admits exactly one. */
  lemma DisciplineDetermines(t: seq<Event>, u: seq<Event>, start: int, c: nat, g: nat)
    requires c > 0 && g > 0 && Disciplined(t, start, c, g) && Disciplined(u, start, c, g)
    requires Count(t) == Count(u)
    ensures t == u
  {
    hide Disciplined, Count;
    var p, q := if |t| <= |u| then t else u, if |t| <= |u| then u else t;
    PrefixDisciplined(q, |p|, start, c, g);
    OneRun(p, q[..|p|], start, c, g);
    if |p| < |q| {
      WeightGrows(q, |p|, start, c, g);
    }
    assert q[..|q|] == q;
  }

  // ----- The kernel -----

  /** Lines per flush group. */
  function FlushLines(cache: int): (c: nat)
    ensures c >= 1
  {
    Trips(cache, 64)
  }

  /** Lines per fence. */
  function FenceLines(cache: int, fence: int): (g: nat)
    ensures g >= 1
  {
    Times(Trips(fence, 64 * FlushLines(cache)), FlushLines(cache))
  }

  /** Lines written in all. */
  function TotalLines(size: int, cache: int, fence: int): (n: nat)
    ensures n >= 1
  {
    Times(Trips(size, 64 * FenceLines(cache, fence)), FenceLines(cache, fence))
  }

  /** `m` has issued `t` on top of `before`, in keeping with the discipline. */
  ghost predicate Issued(m: Machine, before: seq<Event>, t: seq<Event>, start: int, c: nat, g: nat)
    requires c > 0 && g > 0
    reads m
  {
    m.Valid() && m.trace == before + t && Disciplined(t, start, c, g)
  }

  /** A flush group is the fewest lines, one at least, that hold `cache` bytes; a fence comes after the
      fewest such groups that hold `fence` bytes. */
  lemma GroupSizes(cache: int, fence: int)
    ensures var c := FlushLines(cache); 64 * c >= cache && (c == 1 || 64 * (c - 1) < cache)
    ensures var c, g := FlushLines(cache), FenceLines(cache, fence);
            64 * g >= fence && Multiple(g, c) && (g == c || 64 * (g - c) < fence)
  {
    hide Trips;
    var c := FlushLines(cache);
    var k := Trips(fence, 64 * c);
    TripsBounds(cache, 64);
    TripsBounds(fence, 64 * c);
    RoundBytes(k, c);
    RoundBytes(k - 1, c);
    assert k == 1 ==> Times(k - 1, c) == 0;
  }

  /** The kernel covers the requested size, and stops at the first fence that does. */
  lemma CoversSize(size: int, cache: int, fence: int)
    ensures 64 * TotalLines(size, cache, fence) >= size
    ensures var g := FenceLines(cache, fence);
            TotalLines(size, cache, fence) == g || 64 * (TotalLines(size, cache, fence) - g) < size
    ensures Multiple(TotalLines(size, cache, fence), FenceLines(cache, fence))
  {
    hide Trips, FenceLines;
    var g := FenceLines(cache, fence);
    var k := Trips(size, 64 * g);
    TripsBounds(size, 64 * g);
    RoundBytes(k, g);
    RoundBytes(k - 1, g);
    assert k == 1 ==> Times(k - 1, g) == 0;
  }

  /** CACHEFENCE_WRITEONE: write one flush group. */
  method WriteGroup(m: Machine, start: int, cache: int, r9: int, r11: int,
                    ghost before: seq<Event>, ghost t0: seq<Event>, ghost g: nat)
    returns (r9': int, r11': int, ghost t: seq<Event>)
    requires g > 0 && Issued(m, before, t0, start, FlushLines(cache), g)
    requires Count(t0).f == Count(t0).w && r9 == 64 * Count(t0).w && Multiple(Count(t0).w, FlushLines(cache))
    requires Count(t0).w + FlushLines(cache) <= Count(t0).d + g
    modifies m
    ensures m.boot == old(m.boot) && Issued(m, before, t, start, FlushLines(cache), g)
    ensures Count(t) == Count(t0).(w := Count(t0).w + FlushLines(cache))
    ensures r9' == r9 + 64 * FlushLines(cache) && r11' == r11 + 64 * FlushLines(cache)
  {
    hide Count, Disciplined, ApplyAll;
    r9', r11', t := r9, r11, t0;
    var r10 := 0;
    ghost var j: nat := 0;
    var again := true;
    while again
      invariant r10 == 64 * j && r9' == r9 + 64 * j && r11' == r11 + 64 * j
      invariant if again then j < FlushLines(cache) else j == FlushLines(cache)
      invariant m.boot == old(m.boot) && Issued(m, before, t, start, FlushLines(cache), g)
      invariant Count(t) == Count(t0).(w := Count(t0).w + j)
      decreases FlushLines(cache) - j, again
    {
      Extend(t, Store(start + r9', start), start, FlushLines(cache), g);
      m.Issue(Store(start + r9', start));
      t := t + [Store(start + r9', start)];
      r9', r10, r11' := r9' + 0x40, r10 + 0x40, r11' + 0x40;
      j := j + 1;
      again := r10 < cache;
      LoopTest(cache, 64, j);
    }
  }

  /** CACHEFENCE_FLUSHONE: write back the lines from rdx up to rcx. */
  method FlushGroup(m: Machine, start: int, rdx: int, rcx: int,
                    ghost before: seq<Event>, ghost t0: seq<Event>, ghost c: nat, ghost g: nat)
    returns (ghost t: seq<Event>)
    requires c > 0 && g > 0 && Issued(m, before, t0, start, c, g)
    requires Count(t0).f < Count(t0).w && Multiple(Count(t0).w, c)
    requires rdx == start + 64 * Count(t0).f && rcx == start + 64 * Count(t0).w
    modifies m
    ensures m.boot == old(m.boot) && Issued(m, before, t, start, c, g)
    ensures Count(t) == Count(t0).(f := Count(t0).w)
  {
    hide Count, Disciplined, ApplyAll;
    var p := rdx;
    t := t0;
    var again := true;
    while again
      invariant m.boot == old(m.boot) && Issued(m, before, t, start, c, g)
      invariant Count(t0).f <= Count(t).f <= Count(t0).w && Count(t) == Count(t0).(f := Count(t).f)
      invariant p == start + 64 * Count(t).f && again == (Count(t).f < Count(t).w)
      decreases Count(t).w - Count(t).f
    {
      Extend(t, Clwb(p), start, c, g);
      m.Issue(Clwb(p));
      t := t + [Clwb(p)];
      p := p + 0x40;
      again := p < rcx;
    }
  }

  /** CACHEFENCE_FLUSHBEGIN up to the fence: groups written and flushed until the fence is due. */
  method FenceGroup(m: Machine, start: int, cache: int, fence: int, r9: int,
                    ghost before: seq<Event>, ghost t0: seq<Event>)
    returns (r9': int, ghost t: seq<Event>)
    requires Issued(m, before, t0, start, FlushLines(cache), FenceLines(cache, fence))
    requires Count(t0).f == Count(t0).w == Count(t0).d && r9 == 64 * Count(t0).w
    requires Multiple(Count(t0).w, FenceLines(cache, fence))
    modifies m
    ensures m.boot == old(m.boot)
    ensures Issued(m, before, t, start, FlushLines(cache), FenceLines(cache, fence))
    ensures var n := Count(t0).w + FenceLines(cache, fence);
            Count(t) == Tally(n, n, n) && r9' == 64 * n
  {
    hide Trips, Times, Count, Disciplined, ApplyAll, Multiple;
    ghost var c, g := FlushLines(cache), FenceLines(cache, fence);
    ghost var w0 := Count(t0).w;
    r9', t := r9, t0;
    var r11 := 0;
    ghost var k: nat := 0;
    var again := true;
    GroupSizes(cache, fence);
    MultipleThrough(w0, g, c);
    TimesNext(0, c);
    while again
      invariant if again then k < Trips(fence, 64 * c) else k == Trips(fence, 64 * c)
      invariant Multiple(w0 + Times(k, c), c)
      invariant r11 == 64 * Times(k, c) && r9' == r9 + r11
      invariant m.boot == old(m.boot) && Issued(m, before, t, start, c, g)
      invariant Count(t) == Tally(w0 + Times(k, c), w0 + Times(k, c), w0)
      decreases Trips(fence, 64 * c) - k, again
    {
      TimesGrows(k + 1, Trips(fence, 64 * c), c);
      NextMultiple(w0 + Times(k, c), c);
      TimesNext(k, c);
      var rdx := start + r9';
      r9', r11, t := WriteGroup(m, start, cache, r9', r11, before, t, g);
      t := FlushGroup(m, start, rdx, start + r9', before, t, c, g);
      k := k + 1;
      again := r11 < fence;
      RoundDone(fence, c, k);
    }
    NextMultiple(w0, g);
    Extend(t, SFence, start, c, g);
    m.Issue(SFence);
    t := t + [SFence];
  }

  /** The whole kernel: every line up to `TotalLines` is written, flushed and fenced. */
  method CacheFence(m: Machine, start: int, size: int, cache: int, fence: int)
    returns (ghost t: seq<Event>)
    requires m.Valid()
    modifies m
    ensures m.Valid() && m.boot == old(m.boot) && m.trace == old(m.trace) + t
    ensures Disciplined(t, start, FlushLines(cache), FenceLines(cache, fence))
    ensures var n := TotalLines(size, cache, fence); Stage(t, start, n, n, n) && Count(t) == Tally(n, n, n)
  {
    ghost var c, g := FlushLines(cache), FenceLines(cache, fence);
    var r9 := 0;
    t := [];
    ghost var h: nat := 0;
    var again := true;
    while again
      invariant if again then h < Trips(size, 64 * g) else h == Trips(size, 64 * g)
      invariant r9 == 64 * Times(h, g)
      invariant m.boot == old(m.boot) && Issued(m, old(m.trace), t, start, c, g)
      invariant Count(t) == Tally(Times(h, g), Times(h, g), Times(h, g))
      decreases Trips(size, 64 * g) - h, again
    {
      assert Multiple(Times(h, g), g);
      r9, t := FenceGroup(m, start, cache, fence, r9, old(m.trace), t);
      h := h + 1;
      again := r9 < size;
      RoundDone(size, g, h);
    }
    DisciplineStages(t, start, c, g);
  }

  // ----- What a crash leaves -----

  lemma {:induction false} DisciplineMemory(boot: Lines, t: seq<Event>, start: int, c: nat, g: nat, a: int)
    requires c > 0 && g > 0 && Disciplined(t, start, c, g)
    ensures Read(ApplyAll(boot, t), a) == if LineOf(start, Count(t).w, a) then start else Read(boot, a)
  {
    if t != [] {
      DisciplineMemory(boot, t[..|t| - 1], start, c, g, a);
    }
  }

  /** Fenced lines hold the new word, lines at risk the old or the new one, all others the old one. */
  lemma {:induction false} DisciplineSurvivors(boot: Lines, t: seq<Event>, start: int, c: nat, g: nat, a: int)
    requires c > 0 && g > 0 && Disciplined(t, start, c, g)
    ensures Survivors(boot, t, a) ==
            if !LineOf(start, Count(t).w, a) then {Read(boot, a)}
            else if a < start + 64 * Count(t).d then {start}
            else {Read(boot, a), start}
  {
    hide Disciplined, ApplyAll;
    if t != [] {
      var p := t[..|t| - 1];
      LastAllowed(t, start, c, g);
      DisciplineBounds(p, start, c, g);
      DisciplineSurvivors(boot, p, start, c, g, a);
      DisciplineMemory(boot, p, start, c, g, a);
      DisciplineStates(p, start, c, g, a);
    }
  }

  lemma LastAllowed(t: seq<Event>, start: int, c: nat, g: nat)
    requires c > 0 && g > 0 && Disciplined(t, start, c, g) && t != []
    ensures Disciplined(t[..|t| - 1], start, c, g)
    ensures Allowed(Count(t[..|t| - 1]), t[|t| - 1], start, c, g)
  {
  }

  /** After any prefix of a disciplined run (so at every instruction of the kernel) and whatever the
      crash destroys: all lines below the last fenced offset, a multiple of the fence interval, hold
      the new word; the lines still at risk, at most `g`, of which at most `c` are not even flushed,
      hold the old word or the new one; every other line is as it was. */
  lemma CrashAnywhere(boot: Lines, t: seq<Event>, n: nat, start: int, c: nat, g: nat, image: Lines)
    returns (w: nat, f: nat, d: nat)
    requires c > 0 && g > 0 && Disciplined(t, start, c, g) && n <= |t|
    requires CrashImage(boot, t[..n], image)
    ensures Stage(t[..n], start, w, f, d)
    ensures Multiple(d, g) && w - d <= g && w - f <= c
    ensures forall a :: LineOf(start, d, a) ==> Read(image, a) == start
    ensures forall a :: LineOf(start, w, a) ==> Read(image, a) == start || Read(image, a) == Read(boot, a)
    ensures forall a :: !LineOf(start, w, a) ==> Read(image, a) == Read(boot, a)
  {
    hide Disciplined, Count, Survivors, Stage;
    var p := t[..n];
    PrefixDisciplined(t, n, start, c, g);
    DisciplineStages(p, start, c, g);
    DisciplineBounds(p, start, c, g);
    w, f, d := Count(p).w, Count(p).f, Count(p).d;
    forall a
      ensures LineOf(start, d, a) ==> Read(image, a) == start
      ensures LineOf(start, w, a) ==> Read(image, a) == start || Read(image, a) == Read(boot, a)
      ensures !LineOf(start, w, a) ==> Read(image, a) == Read(boot, a)
    {
      DisciplineSurvivors(boot, p, start, c, g, a);
    }
  }

  /** In bytes, for the arguments of the kernel: at every instruction less than a line more than `cache`
      bytes are unflushed, and less than a flush group more than `fence` bytes are unfenced. */
  lemma KernelAtRisk(boot: Lines, t: seq<Event>, n: nat, start: int, cache: int, fence: int, image: Lines)
    returns (w: nat, f: nat, d: nat)
    requires Disciplined(t, start, FlushLines(cache), FenceLines(cache, fence)) && n <= |t|
    requires CrashImage(boot, t[..n], image)
    ensures Stage(t[..n], start, w, f, d)
    ensures 64 * (w - f) < 64 + if cache > 0 then cache else 1
    ensures 64 * (w - d) < 64 * FlushLines(cache) + if fence > 0 then fence else 1
    ensures forall a :: LineOf(start, d, a) ==> Read(image, a) == start
  {
    hide Disciplined, Stage, CrashImage, FlushLines, FenceLines;
    w, f, d := CrashAnywhere(boot, t, n, start, FlushLines(cache), FenceLines(cache, fence), image);
    GroupSizes(cache, fence);
  }
}
