/** The memory system the kernels drive: 64-byte lines of which the low 64-bit word is tracked, and
    the stream of line accesses, write-backs and fences a kernel issues.  A line is named by the
    byte address of its first byte.  */
module Memory {

  datatype Event =
    | Load(addr: int)                  // vmovntdqa
    | Store(addr: int, word: int)      // vmovdqa64
    | NtStore(addr: int, word: int)    // vmovntdq
    | Clwb(addr: int)
    | SFence
    | MFence
  {
    predicate Writes() { Store? || NtStore? }
    predicate Accesses() { Load? || Store? || NtStore? }
  }

  /** Low words of the lines written so far; persistent files start out zero-filled. */
  type Lines = map<int, int>

  /** Two regions, of `m` bytes at `a` and of `n` bytes at `b`, that do not overlap. */
  predicate Apart(a: int, m: int, b: int, n: int) {
    a + m <= b || b + n <= a
  }

  function Read(mem: Lines, addr: int): int {
    if addr in mem then mem[addr] else 0
  }

  function Apply(mem: Lines, e: Event): Lines {
    if e.Writes() then mem[e.addr := e.word] else mem
  }

  function ApplyAll(mem: Lines, t: seq<Event>): Lines {
    if t == [] then mem else Apply(ApplyAll(mem, t[..|t| - 1]), t[|t| - 1])
  }

  lemma {:induction false} ApplyConcat(mem: Lines, t: seq<Event>, u: seq<Event>)
    ensures ApplyAll(mem, t + u) == ApplyAll(ApplyAll(mem, t), u)
  {
    if u == [] {
      assert t + u == t;
    } else {
      ApplyConcat(mem, t, u[..|u| - 1]);
      assert (t + u)[..|t + u| - 1] == t + u[..|u| - 1];
    }
  }

  /** A trace without stores changes nothing. */
  lemma {:induction false} ReadOnly(mem: Lines, t: seq<Event>)
    requires forall e :: e in t ==> !e.Writes()
    ensures ApplyAll(mem, t) == mem
  {
    if t != [] {
      ReadOnly(mem, t[..|t| - 1]);
      assert t[|t| - 1] in t;
    }
  }

  lemma Regroup(t: seq<Event>, u: seq<Event>, v: seq<Event>, e: Event)
    ensures t + u + v + [e] == t + (u + v + [e])
  {
  }

  // ----- The lines accessed -----

  /** The lines a trace reads or writes, in order. */
  function Addresses(t: seq<Event>): seq<int> {
    if t == [] then []
    else
      var e := t[|t| - 1];
      Addresses(t[..|t| - 1]) +
      match e
      case Load(a) => [a]
      case Store(a, _) => [a]
      case NtStore(a, _) => [a]
      case _ => []
  }

  lemma {:induction false} AddressesConcat(t: seq<Event>, u: seq<Event>)
    ensures Addresses(t + u) == Addresses(t) + Addresses(u)
  {
    if u == [] {
      assert t + u == t;
    } else {
      AddressesConcat(t, u[..|u| - 1]);
      assert (t + u)[..|t + u| - 1] == t + u[..|u| - 1];
    }
  }

  lemma NoAddresses()
    ensures Addresses([]) == []
  {
  }

  /** Fences and write-backs access nothing. */
  lemma AddressesOfPass(t: seq<Event>, u: seq<Event>)
    ensures Addresses(t + u + [MFence]) == Addresses(t) + Addresses(u)
  {
    AddressesConcat(t, u);
    assert (t + u + [MFence])[..|t + u|] == t + u;
  }

  // ----- Traces whose stores agree -----

  /** No two stores put different words into one line. */
  ghost predicate Agree(t: seq<Event>) {
    forall e, f :: e in t && f in t && e.Writes() && f.Writes() && e.addr == f.addr ==> e.word == f.word
  }

  ghost predicate Written(t: seq<Event>, a: int) {
    exists e :: e in t && e.Writes() && e.addr == a
  }

  /** The memory an agreeing trace leaves behind is a function of the set of its events. */
  lemma {:induction false} AgreeingTrace(mem: Lines, t: seq<Event>)
    requires Agree(t)
    ensures forall a :: a in ApplyAll(mem, t) <==> a in mem || Written(t, a)
    ensures forall e :: e in t && e.Writes() ==> Read(ApplyAll(mem, t), e.addr) == e.word
    ensures forall a :: a in mem && !Written(t, a) ==> ApplyAll(mem, t)[a] == mem[a]
  {
    if t != [] {
      var s, x := t[..|t| - 1], t[|t| - 1];
      assert t == s + [x];
      AgreeingTrace(mem, s);
      forall a
        ensures Written(t, a) <==> Written(s, a) || (x.Writes() && x.addr == a)
      {
        if Written(s, a) {
          var e :| e in s && e.Writes() && e.addr == a;
          assert e in t;
        }
        if x.Writes() && x.addr == a {
          assert x in t;
        }
      }
      forall e | e in t && e.Writes()
        ensures Read(ApplyAll(mem, t), e.addr) == e.word
      {
        assert x in t;
        assert e in s || e == x;
        if e in s {
          assert Written(s, e.addr);
        }
      }
    }
  }

  /** Any reordering, and any repetition, of an agreeing trace leaves the same memory. */
  lemma SameEventsSameMemory(mem: Lines, t: seq<Event>, u: seq<Event>)
    requires Agree(t)
    requires forall e :: e in t <==> e in u
    ensures ApplyAll(mem, t) == ApplyAll(mem, u)
  {
    AgreeingTrace(mem, t);
    AgreeingTrace(mem, u);
    var p, q := ApplyAll(mem, t), ApplyAll(mem, u);
    forall a
      ensures a in p <==> a in q
      ensures a in p ==> p[a] == q[a]
    {
      assert Written(t, a) <==> Written(u, a);
      if Written(t, a) {
        var e :| e in t && e.Writes() && e.addr == a;
        assert Read(p, a) == e.word == Read(q, a);
      }
    }
  }

  // ----- The machine -----

  /** The memory together with the stream of everything issued to it. */
  class Machine {
    var mem: Lines
    ghost var boot: Lines
    ghost var trace: seq<Event>

    ghost predicate Valid()
      reads this
    {
      mem == ApplyAll(boot, trace)
    }

    constructor (image: Lines)
      ensures Valid() && trace == [] && mem == boot == image
    {
      mem, boot, trace := image, image, [];
    }

    method Issue(e: Event)
      requires Valid()
      modifies this
      ensures Valid() && boot == old(boot)
      ensures trace == old(trace) + [e] && mem == Apply(old(mem), e)
    {
      assert (trace + [e])[..|trace + [e]| - 1] == trace;
      if e.Writes() {
        mem := mem[e.addr := e.word];
      }
      trace := trace + [e];
    }
  }
}
