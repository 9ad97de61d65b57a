/** What of a stream of accesses survives a power failure. */
module Persistence {
  import opened Memory

  datatype LineState = Untouched | Dirty | Pending | Durable

  /** What the accesses `t` did to the line at `a`.  A write-back is complete only at the next fence;
      an eviction by the cache can only make a line durable sooner. */
  function StateOf(t: seq<Event>, a: int): LineState {
    if t == [] then Untouched
    else
      var s := StateOf(t[..|t| - 1], a);
      match t[|t| - 1]
      case Load(_) => s
      case Store(b, _) => if a == b then Dirty else s
      case NtStore(b, _) => if a == b then Pending else s
      case Clwb(b) => if a == b && s == Dirty then Pending else s
      case SFence => if s == Pending then Durable else s
      case MFence => if s == Pending then Durable else s
  }

  /** The words the line at `a` may hold after a power failure: a fence after the write-back leaves only
      the word in memory; before that, any word stored meanwhile may have been evicted, or none. */
  function Survivors(boot: Lines, t: seq<Event>, a: int): set<int> {
    if t == [] then {Read(boot, a)}
    else
      var p := t[..|t| - 1];
      var s := Survivors(boot, p, a);
      match t[|t| - 1]
      case Load(_) => s
      case Store(b, w) => if a == b then s + {w} else s
      case NtStore(b, w) => if a == b then s + {w} else s
      case Clwb(_) => s
      case SFence => if StateOf(p, a) == Pending then {Read(ApplyAll(boot, p), a)} else s
      case MFence => if StateOf(p, a) == Pending then {Read(ApplyAll(boot, p), a)} else s
  }

  /** A memory that a power failure after `t` may leave. */
  ghost predicate CrashImage(boot: Lines, t: seq<Event>, image: Lines) {
    forall a :: Read(image, a) in Survivors(boot, t, a)
  }

  /** The word in memory is always among the survivors, so the memory itself is a crash image. */
  lemma {:induction false} MemorySurvives(boot: Lines, t: seq<Event>, a: int)
    ensures Read(ApplyAll(boot, t), a) in Survivors(boot, t, a)
  {
    if t != [] {
      MemorySurvives(boot, t[..|t| - 1], a);
    }
  }

  /** A line that surely holds `w` goes on to do so as long as nothing else is stored into it. */
  lemma {:induction false} StaysSure(boot: Lines, t: seq<Event>, u: seq<Event>, a: int, w: int)
    requires Survivors(boot, t, a) == {w}
    requires forall e :: e in u && e.Writes() && e.addr == a ==> e.word == w
    ensures Survivors(boot, t + u, a) == {w}
  {
    if u == [] {
      assert t + u == t;
    } else {
      var v := u[..|u| - 1];
      StaysSure(boot, t, v, a, w);
      assert (t + u)[..|t + u| - 1] == t + v;
      MemorySurvives(boot, t + v, a);
      assert u[|u| - 1] in u;
    }
  }

  // ----- Stores that are written back at once -----

  /** Nothing is waiting to be written back, and what is not on its way is certain. */
  ghost predicate Settled(boot: Lines, t: seq<Event>, a: int) {
    && StateOf(t, a) != Dirty
    && (StateOf(t, a) != Pending ==> Survivors(boot, t, a) == {Read(ApplyAll(boot, t), a)})
  }

  /** The line holds, after any power failure, what it holds in memory. */
  ghost predicate Sure(boot: Lines, t: seq<Event>, a: int) {
    StateOf(t, a) in {Untouched, Durable} && Survivors(boot, t, a) == {Read(ApplyAll(boot, t), a)}
  }

  /** Before the first access every line is certain, so what follows applies from the start. */
  lemma NothingDone(boot: Lines, a: int)
    ensures Sure(boot, [], a)
  {
  }

  lemma SettledStep(boot: Lines, t: seq<Event>, e: Event, a: int)
    requires Settled(boot, t, a) && (e.NtStore? || e.Load? || e.Clwb?)
    ensures Settled(boot, t + [e], a)
  {
    assert (t + [e])[..|t|] == t;
  }

  lemma Elsewhere(boot: Lines, t: seq<Event>, e: Event, a: int)
    requires (e.Store? || e.Clwb?) && e.addr != a
    ensures StateOf(t + [e], a) == StateOf(t, a) && Survivors(boot, t + [e], a) == Survivors(boot, t, a)
    ensures Read(ApplyAll(boot, t + [e]), a) == Read(ApplyAll(boot, t), a)
  {
    assert (t + [e])[..|t|] == t;
  }

  lemma FlushedHere(t: seq<Event>, a: int, w: int)
    ensures StateOf(t + [Store(a, w)] + [Clwb(a)], a) == Pending
  {
    var u := t + [Store(a, w)];
    assert u[..|t|] == t && (u + [Clwb(a)])[..|u|] == u;
  }

  lemma SettledFlush(boot: Lines, t: seq<Event>, b: int, w: int, a: int)
    requires Settled(boot, t, a)
    ensures Settled(boot, t + [Store(b, w), Clwb(b)], a)
  {
    hide StateOf, Survivors, ApplyAll;
    var u := t + [Store(b, w)];
    assert t + [Store(b, w), Clwb(b)] == u + [Clwb(b)];
    if a == b {
      FlushedHere(t, a, w);
    } else {
      Elsewhere(boot, t, Store(b, w), a);
      Elsewhere(boot, u, Clwb(b), a);
    }
  }

  /** A fence makes every settled line sure. */
  lemma SettledFence(boot: Lines, t: seq<Event>, a: int)
    requires Settled(boot, t, a)
    ensures Sure(boot, t + [MFence], a)
  {
    assert (t + [MFence])[..|t|] == t;
  }
}
