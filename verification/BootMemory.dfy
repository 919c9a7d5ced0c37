/** boot_alloc's chunks and the list page_init builds: no page that page_alloc ever hands out overlaps
    page 0, the I/O hole, the kernel image or a boot_alloc chunk. */
module BootMemory {
  import opened Wrappers
  import opened FreeLists
  import opened Bits
  import opened Mmu
  import opened VmState
  import opened VmInvariant
  import opened Lifetime
  import opened MicroSteps
  import opened Runs
  import opened BootMap

  const NENV: nat := 1024
  const IOPHYSMEM: nat := 0xA_0000
  const EXTPHYSMEM: nat := 0x10_0000

  class BootHeap {
    const end: Word        // the linker's symbol
    var nextfree: Word     // 0 until the first call

    constructor (end: Word)
      ensures this.end == end && nextfree == 0
    {
      this.end := end;
      nextfree := 0;
    }

    function Next(): Word
      reads this
    {
      if nextfree == 0 then RoundUp(end, PGSIZE) else nextfree
    }

    method BootAlloc(n: Word) returns (result: Word)
      modifies this
      ensures result == old(Next())
      ensures Next() == if n == 0 then old(Next())
                        else if nextfree == 0 then RoundUp(end, PGSIZE)
                        else RoundUp((result + n) % TWO32, PGSIZE)
      ensures n != 0 ==> nextfree == RoundUp((result + n) % TWO32, PGSIZE)
    {
      if nextfree == 0 {
        nextfree := RoundUp(end, PGSIZE);
      }
      if n != 0 {
        var next := nextfree;
        nextfree := RoundUp((nextfree + n) % TWO32, PGSIZE);
        return next;
      }
      return nextfree;
    }

    // The three chunks mem_init takes: kern_pgdir, pages[], envs[].  While they stay below 2^32 they
    // are page aligned, lie one after another above the kernel image, and end at the next free address.
    method Chunks(npages: nat, infoSize: nat, envSize: nat) returns (kernPgdir: Word, pages: Word, envs: Word)
      requires nextfree == 0 && KERNBASE + EXTPHYSMEM <= end && 0 < npages && 0 < infoSize && 0 < envSize
      requires end + PGSIZE + npages * infoSize + NENV * envSize + 4 * PGSIZE < TWO32
      modifies this
      ensures kernPgdir % PGSIZE == pages % PGSIZE == envs % PGSIZE == nextfree % PGSIZE == 0
      ensures end <= kernPgdir < end + PGSIZE && pages == kernPgdir + PGSIZE
      ensures pages + npages * infoSize <= envs < pages + npages * infoSize + PGSIZE
      ensures envs + NENV * envSize <= nextfree < envs + NENV * envSize + PGSIZE
    {
      hide RoundUp;
      RoundsUp(end);
      Positive(npages, infoSize);
      kernPgdir := Chunk(PGSIZE);
      pages := Chunk(npages * infoSize);
      envs := Chunk(NENV * envSize);
    }

    // One call with n > 0 while there is room.
    method Chunk(n: nat) returns (result: Word)
      requires n > 0 && Next() % PGSIZE == 0 && Next() + n + PGSIZE < TWO32
      modifies this
      ensures result == old(Next()) && Next() == nextfree
      ensures result + n <= nextfree < result + n + PGSIZE && nextfree % PGSIZE == 0
      ensures n % PGSIZE == 0 ==> nextfree == result + n
    {
      hide RoundUp;
      var a := Next();
      RoundsUp(a + n);
      result := BootAlloc(n);
    }
  }

  lemma Positive(a: nat, b: nat)
    requires a > 0 && b > 0
    ensures a * b > 0
  {}

  lemma RoundsUp(a: nat)
    requires a + PGSIZE < TWO32
    ensures a % TWO32 == a && a <= RoundUp(a, PGSIZE) < a + PGSIZE && RoundUp(a, PGSIZE) % PGSIZE == 0
    ensures a > 0 ==> RoundUp(a, PGSIZE) > 0
  {
    assert (a + PGSIZE - 1) % TWO32 == a + PGSIZE - 1;
  }

  // page_init's med, computed from envs, is the page of boot_alloc's next free address.
  lemma MedIsNextFree(envsEnd: Word)
    requires KERNBASE <= envsEnd && envsEnd + PGSIZE < TWO32
    ensures RoundUp(envsEnd - KERNBASE, PGSIZE) / PGSIZE == (RoundUp(envsEnd, PGSIZE) - KERNBASE) / PGSIZE
  {
    var a := envsEnd - KERNBASE;
    RoundsToPages(a);
    RoundsToPages(envsEnd);
    var b := a + PGSIZE - 1;
    DivModUnique(b + KERNBASE, PGSIZE, b / PGSIZE + 0xF_0000, b % PGSIZE);
    DivModUnique(b / PGSIZE * PGSIZE, PGSIZE, b / PGSIZE, 0);
  }

  lemma RoundsToPages(a: nat)
    requires a + PGSIZE < TWO32
    ensures RoundUp(a, PGSIZE) == (a + PGSIZE - 1) / PGSIZE * PGSIZE
  {
    assert (a + PGSIZE - 1) % TWO32 == a + PGSIZE - 1;
  }

  // -------------------------------------------------------------------------
  // page_init
  // -------------------------------------------------------------------------

  // hi - 1, ..., lo: the order in which pushing lo, ..., hi - 1 leaves them.
  function Down(lo: nat, hi: nat): seq<nat> {
    if hi <= lo then [] else [hi - 1] + Down(lo, hi - 1)
  }

  function InitList(basemem: nat, med: nat, npages: nat): seq<nat> {
    Down(med, npages) + Down(1, basemem)
  }

  lemma {:induction false} DownPages(lo: nat, hi: nat)
    ensures forall p :: p in Down(lo, hi) <==> lo <= p < hi
    ensures Distinct(Down(lo, hi))
  {
    if lo < hi {
      DownPages(lo, hi - 1);
      var q, rest := Down(lo, hi), Down(lo, hi - 1);
      forall i, j | 0 <= i < j < |q| ensures q[i] != q[j] {
        assert q[j] == rest[j - 1] && rest[j - 1] in rest;
      }
    }
  }

  lemma DownEmpty(lo: nat, hi: nat)
    ensures hi <= lo ==> Down(lo, hi) == []
  {}

  lemma DownStep(lo: nat, hi: nat)
    requires lo <= hi
    ensures Down(lo, hi + 1) == [hi] + Down(lo, hi)
  {}

  lemma NotYetListed(basemem: nat, med: nat, i: nat)
    requires basemem <= med <= i
    ensures i !in Down(med, i) + Down(1, basemem)
  {
    DownPages(med, i);
    DownPages(1, basemem);
  }

  lemma InitListIs(basemem: nat, med: nat, npages: nat)
    ensures InitList(basemem, med, npages) == Down(med, npages) + Down(1, basemem)
  {}

  // Exactly the counts of the pages of q have been set to 0.
  ghost predicate ZeroedOn(was: seq<int>, now: seq<int>, q: seq<nat>) {
    |now| == |was| && forall p :: 0 <= p < |was| ==> now[p] == if p in q then 0 else was[p]
  }

  lemma ZeroedNone(was: seq<int>)
    ensures ZeroedOn(was, was, [])
  {}

  lemma ZeroedStep(was: seq<int>, now: seq<int>, q: seq<nat>, i: nat)
    requires ZeroedOn(was, now, q) && i < |now|
    ensures ZeroedOn(was, now[i := 0], [i] + q)
  {}

  lemma ZeroedMeans(was: seq<int>, now: seq<int>, q: seq<nat>)
    requires ZeroedOn(was, now, q)
    ensures |now| == |was| && forall p :: 0 <= p < |was| ==> now[p] == if p in q then 0 else was[p]
  {}

  // The list holds each of the pages [1, basemem) and [med, npages) once and nothing else.
  lemma InitListPages(basemem: nat, med: nat, npages: nat)
    requires basemem <= med
    ensures forall p :: p in InitList(basemem, med, npages) <==> 1 <= p < basemem || med <= p < npages
    ensures Distinct(InitList(basemem, med, npages))
  {
    DownPages(med, npages);
    DownPages(1, basemem);
    var a, b := Down(med, npages), Down(1, basemem);
    var q := a + b;
    forall i, j | 0 <= i < j < |q| ensures q[i] != q[j] {
      if i < |a| <= j {
        assert q[i] in a && q[j] in b;
      }
    }
  }

  predicate Falls(q: seq<nat>) { forall i, j :: 0 <= i < j < |q| ==> q[i] > q[j] }

  // Each page was pushed in front of the pages below it.
  lemma InitListFalls(basemem: nat, med: nat, npages: nat)
    requires basemem <= med
    ensures Falls(InitList(basemem, med, npages))
  {
    DownFalls(med, npages);
    DownFalls(1, basemem);
    DownPages(med, npages);
    DownPages(1, basemem);
    FallsTogether(Down(med, npages), Down(1, basemem), med);
  }

  lemma FallsTogether(a: seq<nat>, b: seq<nat>, m: nat)
    requires Falls(a) && Falls(b) && (forall p :: p in a ==> p >= m) && (forall p :: p in b ==> p < m)
    ensures Falls(a + b)
  {
    var q := a + b;
    forall i, j | 0 <= i < j < |q| ensures q[i] > q[j] {
      if i < |a| <= j {
        assert a[i] in a && b[j - |a|] in b;
      }
    }
  }

  lemma {:induction false} DownFalls(lo: nat, hi: nat)
    ensures Falls(Down(lo, hi))
  {
    if lo < hi {
      DownFalls(lo, hi - 1);
      DownPages(lo, hi - 1);
      FallsTogether([hi - 1], Down(lo, hi - 1), hi - 1);
    }
  }

  lemma {:induction false} DownLength(lo: nat, hi: nat)
    ensures |Down(lo, hi)| == if lo < hi then hi - lo else 0
  {
    if lo < hi {
      DownLength(lo, hi - 1);
    }
  }

  lemma InitLength(basemem: nat, med: nat, npages: nat)
    ensures |InitList(basemem, med, npages)| ==
            (if med < npages then npages - med else 0) + if 1 < basemem then basemem - 1 else 0
  {
    DownLength(med, npages);
    DownLength(1, basemem);
  }

  // Physical bytes of page p.
  ghost predicate Overlaps(p: nat, from: nat, to: nat) {
    p * PGSIZE < to && from < (p + 1) * PGSIZE
  }

  lemma ListedPagesSafe(basemem: nat, nextfree: Word, npages: nat, p: nat)
    requires basemem <= IOPHYSMEM / PGSIZE && KERNBASE + EXTPHYSMEM <= nextfree && nextfree % PGSIZE == 0
    requires p in InitList(basemem, (nextfree - KERNBASE) / PGSIZE, npages)
    ensures p != 0 && !Overlaps(p, IOPHYSMEM, EXTPHYSMEM) && !Overlaps(p, EXTPHYSMEM, nextfree - KERNBASE)
  {
    InitListPages(basemem, (nextfree - KERNBASE) / PGSIZE, npages);
  }

  // -------------------------------------------------------------------------
  // The first state of every run
  // -------------------------------------------------------------------------

  // After page_init: everything on the list and nothing mapped but kern_pgdir's self-map.
  ghost predicate Booted(s: Vm) {
    && s.kern < |s.refs| && s.kern !in s.free && Distinct(s.free)
    && s.pool == (set p | p in s.free)
    && (forall p :: p in s.free ==> p < |s.refs| && Ref(s, p) == 0)
    && s.dirs == {} && s.tables == {} && s.ktables == {} && s.cr3 == s.kern && s.tlb == map[]
    && (forall sl :: sl in s.ents ==> sl.frame < |s.refs| && sl.idx < NPTENTRIES)
    && OnlySelfMap(s) && Slot(s.kern, UVPT_PDE) in s.ents && s.ents[Slot(s.kern, UVPT_PDE)] == Ent(s.kern, SELF_FLAGS)
  }

  lemma BootedInv(s: Vm)
    requires Booted(s)
    ensures Booting(s) && OnlySelfMap(s) && Coherent(s)
  {
    forall p | p in s.pool ensures Ref(s, p) == Owed(s, p, None) {
      assert RefSlots(s, p) == {};
    }
  }

  lemma {:induction false} InterleavedPool(s: Vm, ms: seq<Micro>, fills: seq<set<nat>>)
    ensures Interleaved(s, ms, fills).pool == s.pool
    decreases |ms|
  {
    if ms != [] {
      var s1 := if fills == [] then s else Fill(s, fills[0]);
      InterleavedPool(Exec(s1, ms[0]), ms[1..], if fills == [] then [] else fills[1..]);
    }
  }

  lemma {:induction false} RunPool(s: Vm, moves: seq<Move>)
    ensures Run(s, moves).pool == s.pool
    decreases |moves|
  {
    if moves != [] {
      InterleavedPool(s, Ops(s, moves[0].step), moves[0].fills);
      RunPool(Runs.Next(s, moves[0]), moves[1..]);
    }
  }

  lemma {:induction false} BootMapPool(s: Vm, vpn: nat, k: nat, page: nat, flags: nat)
    ensures var r := BootMapRegion(s, vpn, k, page, flags); r.Some? ==> r.value.pool == s.pool && r.value.tlb == s.tlb
    decreases k
  {
    if k > 0 {
      var (s1, slot) := Walk(s, s.kern, vpn, true);
      if slot.Some? {
        BootMapPool(Mapped(s1, slot.value, page, flags), vpn + 1, k - 1, page + 1, flags);
      }
    }
  }

  lemma MemInitPool(s: Vm, pages: nat, envs: nat, stack: nat)
    requires MemInit(s, pages, envs, stack).Some?
    ensures var s' := MemInit(s, pages, envs, stack).value; s'.pool == s.pool && s'.tlb == s.tlb
  {
    hide BootMapRegion;
    var s1 := MapPages(s, pages).value;
    var s2 := MapEnvs(s1, envs).value;
    var s3 := MapStack(s2, stack).value;
    BootMapPool(s, UPAGES_VPN, 1024, pages, USER_RO);
    BootMapPool(s1, UENVS_VPN, 1024, envs, USER_RO);
    BootMapPool(s2, STACK_VPN, 8, stack, KERNEL_RW);
    BootMapPool(s3, KERNBASE_VPN, 65536, 0, KERNEL_RW);
  }

  // From boot through any run: the next page page_alloc hands out was put on the list by page_init, so
  // it is not page 0, not in the I/O hole, and not in the kernel image or a boot_alloc chunk.  The list
  // may have been reordered since.
  lemma EveryAllocatedPageSafe(s0: Vm, pages: nat, envs: nat, stack: nat, moves: seq<Move>, zero: bool,
                               basemem: nat, nextfree: Word)
    requires Booted(s0) && MemInit(s0, pages, envs, stack).Some?
    requires basemem <= IOPHYSMEM / PGSIZE && KERNBASE + EXTPHYSMEM <= nextfree && nextfree % PGSIZE == 0
    requires forall p :: p in s0.free ==> p in InitList(basemem, (nextfree - KERNBASE) / PGSIZE, |s0.refs|)
    requires AllEnabled(MemInit(s0, pages, envs, stack).value, moves)
    ensures var s := Run(MemInit(s0, pages, envs, stack).value, moves);
      var p := PageAlloc(s, zero).1;
      p.Some? ==> p.value != 0 && !Overlaps(p.value, IOPHYSMEM, EXTPHYSMEM)
                  && !Overlaps(p.value, EXTPHYSMEM, nextfree - KERNBASE)
  {
    hide MemInit, Inv, Booting, Run, AllEnabled, InitList, Overlaps, CheckKernPgdir;
    var s1 := MemInit(s0, pages, envs, stack).value;
    BootedInv(s0);
    MemInitPool(s0, pages, envs, stack);
    MemInitChecks(s0, pages, envs, stack, 0, 0, 0);
    BootingIsInv(s1);
    NothingCached(s1);
    RunKeepsInvariant(s1, moves);
    RunPool(s1, moves);
    var s := Run(s1, moves);
    if s.free != [] {
      FreeInPool(s);
      assert s.free[0] in s0.free;
      ListedPagesSafe(basemem, nextfree, |s0.refs|, s.free[0]);
    }
  }

  lemma NothingCached(s: Vm)
    requires s.tlb == map[]
    ensures Coherent(s)
  {}

  lemma BootingIsInv(s: Vm)
    requires Booting(s)
    ensures Inv(s)
  {}
}
