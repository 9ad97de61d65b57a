/** The bump allocator (OptaneStudy/src/fastalloc.cpp, fastalloc.h): one arena in persistent memory and
    one in DRAM, each served from its newest chunk; a request that does not fit opens a new chunk.
    Where the operating system places a chunk is a parameter of the call. */
module FastAlloc {

  const ALLOC_SIZE: nat := 0x1_0000_0000
  const CONCURRENCY_ALLOC_SIZE: nat := 0x4000_0000
  const TABLE: nat := 100
  const WORD: nat := 0x1_0000_0000_0000_0000

  // ----- One arena -----

  /** Chunk addresses in the order of opening, the capacity of the first chunk, and the cursor.  Later
      chunks hold ALLOC_SIZE bytes. */
  datatype Arena = Arena(first: nat, chunks: seq<nat>, curr: nat, left: nat) {

    function Capacity(i: nat): nat {
      if i == 0 then first else ALLOC_SIZE
    }

    function Last(): nat
      requires chunks != []
    {
      |chunks| - 1
    }
  }

  /** The size rounded up to lines, in 64-bit arithmetic. */
  function Rounded(size: nat): (r: nat) {
    (size / 64 * 64 + if size % 64 != 0 then 64 else 0) % WORD
  }

  function Open(a: Arena, base: nat): Arena {
    a.(chunks := a.chunks + [base], curr := base, left := ALLOC_SIZE)
  }

  function Bump(a: Arena, len: nat): Arena {
    a.(curr := a.curr + len, left := (a.left - len) % WORD)
  }

  /** A request: its size, and where a new chunk would be placed. */
  datatype Request = Request(size: nat, base: nat)

  predicate Opens(a: Arena, r: Request) {
    Rounded(r.size) > a.left
  }

  function Prepared(a: Arena, r: Request): Arena {
    if Opens(a, r) then Open(a, r.base) else a
  }

  /** The arena after the request; the address returned is the cursor of `Prepared`. */
  function Served(a: Arena, r: Request): Arena {
    Bump(Prepared(a, r), Rounded(r.size))
  }

  // ----- The class -----

  class FastAllocator {
    const dram: array<nat>
    var dramCurr: nat
    var dramLeft: nat
    var dramCnt: nat
    const nvm: array<nat>
    var nvmCurr: nat
    var nvmLeft: nat
    var nvmCnt: nat
    ghost var first: nat
    /** The chunks given back by `delete[]`, in order. */
    ghost var released: seq<nat>

    ghost predicate Valid()
      reads this, dram, nvm
    {
      dram.Length == nvm.Length == TABLE && dram != nvm && dramCnt <= TABLE && nvmCnt <= TABLE
    }

    ghost function Dram(): Arena
      requires Valid()
      reads this, dram, nvm
    {
      Arena(first, dram[..dramCnt], dramCurr, dramLeft)
    }

    ghost function Nvm(): Arena
      requires Valid()
      reads this, dram, nvm
    {
      Arena(first, nvm[..nvmCnt], nvmCurr, nvmLeft)
    }

    constructor ()
      ensures Valid() && dramCnt == nvmCnt == 0 && fresh(dram) && fresh(nvm) && released == []
    {
      dram, nvm := new nat[TABLE](_ => 0), new nat[TABLE](_ => 0);
      dramCurr, dramLeft, dramCnt := 0, 0, 0;
      nvmCurr, nvmLeft, nvmCnt := 0, 0, 0;
      released := [];
    }

    /** The first chunk of each arena. */
    method Start(capacity: nat, dramBase: nat, nvmBase: nat)
      requires Valid() && dramCnt == nvmCnt == 0
      modifies this, dram, nvm
      ensures Valid() && released == old(released) && dramCnt == nvmCnt == 1
      ensures Dram() == Arena(capacity, [dramBase], dramBase, capacity)
      ensures Nvm() == Arena(capacity, [nvmBase], nvmBase, capacity)
    {
      first := capacity;
      dram[dramCnt] := dramBase;
      dramCurr := dram[dramCnt];
      dramLeft := capacity;
      dramCnt := dramCnt + 1;
      nvm[nvmCnt] := nvmBase;
      nvmCurr := nvm[nvmCnt];
      nvmLeft := capacity;
      nvmCnt := nvmCnt + 1;
    }

    /** `fastalloc::init` */
    method Init(dramBase: nat, nvmBase: nat)
      requires Valid() && dramCnt == nvmCnt == 0
      modifies this, dram, nvm
      ensures Valid() && released == old(released) && dramCnt == nvmCnt == 1
      ensures Dram() == Arena(ALLOC_SIZE, [dramBase], dramBase, ALLOC_SIZE)
      ensures Nvm() == Arena(ALLOC_SIZE, [nvmBase], nvmBase, ALLOC_SIZE)
    {
      Start(ALLOC_SIZE, dramBase, nvmBase);
    }

    /** `concurrency_fastalloc::init` */
    method InitConcurrency(dramBase: nat, nvmBase: nat)
      requires Valid() && dramCnt == nvmCnt == 0
      modifies this, dram, nvm
      ensures Valid() && released == old(released) && dramCnt == nvmCnt == 1
      ensures Dram() == Arena(CONCURRENCY_ALLOC_SIZE, [dramBase], dramBase, CONCURRENCY_ALLOC_SIZE)
      ensures Nvm() == Arena(CONCURRENCY_ALLOC_SIZE, [nvmBase], nvmBase, CONCURRENCY_ALLOC_SIZE)
    {
      Start(CONCURRENCY_ALLOC_SIZE, dramBase, nvmBase);
    }

    /** `fastalloc::alloc`: needs a free table entry when it opens a chunk. */
    method Alloc(size: nat, onNvm: bool, base: nat) returns (tmp: nat)
      requires Valid()
      requires onNvm && Opens(Nvm(), Request(size, base)) ==> nvmCnt < TABLE
      requires !onNvm && Opens(Dram(), Request(size, base)) ==> dramCnt < TABLE
      modifies this, dram, nvm
      ensures Valid() && released == old(released)
      ensures onNvm ==> Nvm() == Served(old(Nvm()), Request(size, base)) && Dram() == old(Dram())
      ensures !onNvm ==> Dram() == Served(old(Dram()), Request(size, base)) && Nvm() == old(Nvm())
      ensures old(nvmCnt) <= nvmCnt <= old(nvmCnt) + 1 && old(dramCnt) <= dramCnt <= old(dramCnt) + 1
      ensures tmp == Prepared(old(if onNvm then Nvm() else Dram()), Request(size, base)).curr
    {
      var len := (size / 64 * 64 + if size % 64 != 0 then 64 else 0) % WORD;
      if onNvm {
        if len > nvmLeft {
          nvm[nvmCnt] := base;
          nvmCurr := nvm[nvmCnt];
          nvmLeft := ALLOC_SIZE;
          nvmCnt := nvmCnt + 1;
        }
        nvmLeft := (nvmLeft - len) % WORD;
        tmp := nvmCurr;
        nvmCurr := nvmCurr + len;
      } else {
        if len > dramLeft {
          dram[dramCnt] := base;
          dramCurr := dram[dramCnt];
          dramLeft := ALLOC_SIZE;
          dramCnt := dramCnt + 1;
        }
        dramLeft := (dramLeft - len) % WORD;
        tmp := dramCurr;
        dramCurr := dramCurr + len;
      }
    }

    /** `fastalloc::free`: every DRAM chunk is given back once, in the order of opening, and the cursor is
        cleared; the table and its count stay. */
    method Free()
      requires Valid()
      modifies this
      ensures Valid() && Nvm() == old(Nvm())
      ensures released == old(released) + old(Dram()).chunks
      ensures Dram() == old(Dram()).(curr := 0, left := 0)
    {
      dramLeft := 0;
      for i := 0 to dramCnt
        invariant Valid() && Nvm() == old(Nvm()) && dramCnt == old(dramCnt)
        invariant Dram() == old(Dram()).(left := 0)
        invariant released == old(released) + dram[..i]
      {
        assert dram[..i + 1] == dram[..i] + [dram[i]];
        released := released + [dram[i]];
      }
      dramCurr := 0;
    }
  }
}
