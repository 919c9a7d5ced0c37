/** mem_init from the linker's end symbol on: boot_alloc's three chunks, page_init behind them, the page
    tables, and what page_alloc can hand out ever after. */
module KernelBoot {
  import opened Bits
  import opened Mmu
  import opened VmState
  import opened VmInvariant
  import opened Lifetime
  import opened MicroSteps
  import opened Runs
  import opened BootMap
  import opened BootMemory
  import opened Isolation
  import opened FreeListCheck
  import opened Machine

  // Page p lies outside page 0, the I/O hole, the kernel image and the chunks boot_alloc returned.
  ghost predicate Clear(p: nat, end: Word, kernPgdir: Word, pages: Word, pagesSize: nat, envs: Word, envsSize: nat)
    requires KERNBASE <= end <= kernPgdir && KERNBASE <= pages && KERNBASE <= envs
  {
    && p != 0 && !Overlaps(p, IOPHYSMEM, EXTPHYSMEM) && !Overlaps(p, EXTPHYSMEM, end - KERNBASE)
    && !Overlaps(p, kernPgdir - KERNBASE, kernPgdir - KERNBASE + PGSIZE)
    && !Overlaps(p, pages - KERNBASE, pages - KERNBASE + pagesSize)
    && !Overlaps(p, envs - KERNBASE, envs - KERNBASE + envsSize)
  }

  // What is safe up to nextfree is clear of everything below it.
  lemma SafeIsClear(p: nat, end: Word, kernPgdir: Word, pages: Word, pagesSize: nat, envs: Word, envsSize: nat,
      nextfree: Word)
    requires KERNBASE + EXTPHYSMEM <= end <= kernPgdir && kernPgdir + PGSIZE <= pages && pages + pagesSize <= envs
    requires envs + envsSize <= nextfree
    requires p != 0 && !Overlaps(p, IOPHYSMEM, EXTPHYSMEM) && !Overlaps(p, EXTPHYSMEM, nextfree - KERNBASE)
    ensures Clear(p, end, kernPgdir, pages, pagesSize, envs, envsSize)
  {}

  // page_alloc takes pages from the pool only.
  lemma AllocatedFromPool(s: Vm, moves: seq<Move>, zero: bool)
    requires Inv(s) && Coherent(s) && AllEnabled(s, moves)
    ensures var r := PageAlloc(Run(s, moves), zero).1; r.Some? ==> r.value in s.pool
  {
    RunKeepsInvariant(s, moves);
    RunPool(s, moves);
    hide Inv, Coherent, Run;
    if Run(s, moves).free != [] {
      FreeInPool(Run(s, moves));
    }
  }

  lemma AllClear(q: seq<nat>, basemem: nat, npages: nat, end: Word, kernPgdir: Word, pages: Word, pagesSize: nat,
                 envs: Word, envsSize: nat, nextfree: Word)
    requires KERNBASE + EXTPHYSMEM <= end <= kernPgdir && kernPgdir + PGSIZE <= pages && pages + pagesSize <= envs
    requires envs + envsSize <= nextfree && nextfree % PGSIZE == 0 && basemem <= IOPHYSMEM / PGSIZE
    requires q == InitList(basemem, (nextfree - KERNBASE) / PGSIZE, npages)
    ensures forall p :: p in q ==> Clear(p, end, kernPgdir, pages, pagesSize, envs, envsSize)
  {
    forall p | p in q ensures Clear(p, end, kernPgdir, pages, pagesSize, envs, envsSize) {
      ListedPagesSafe(basemem, nextfree, npages, p);
      SafeIsClear(p, end, kernPgdir, pages, pagesSize, envs, envsSize, nextfree);
    }
  }

  lemma NextFreePage(envs: Word, envsSize: nat, nextfree: Word)
    requires KERNBASE <= envs && envs + envsSize + PGSIZE < TWO32
    requires nextfree % PGSIZE == 0 && envs + envsSize <= nextfree < envs + envsSize + PGSIZE
    ensures RoundUp(envs + envsSize - KERNBASE, PGSIZE) / PGSIZE == (nextfree - KERNBASE) / PGSIZE
  {
    MedIsNextFree(envs + envsSize);
    RoundsToPages(envs + envsSize);
    DivModUnique(envs + envsSize + PGSIZE - 1, PGSIZE, nextfree / PGSIZE, envs + envsSize + PGSIZE - 1 - nextfree);
  }

  // The chunks are page aligned, and physical memory has room for them.
  lemma ChunkPages(kernPgdir: Word, nextfree: Word, npages: nat, basemem: nat)
    requires KERNBASE + EXTPHYSMEM <= kernPgdir && kernPgdir + PGSIZE <= nextfree && basemem <= IOPHYSMEM / PGSIZE
    requires kernPgdir % PGSIZE == nextfree % PGSIZE == 0 && nextfree - KERNBASE <= npages * PGSIZE
    ensures basemem <= (kernPgdir - KERNBASE) / PGSIZE < (nextfree - KERNBASE) / PGSIZE <= npages
  {}

  function Bytes(n: nat, size: nat): nat { n * size }

  lemma BytesAre(n: nat, size: nat)
    ensures Bytes(n, size) == n * size
  {}

  // boot_alloc's three chunks, and the first page page_init may list after them.
  method Layout(end: Word, npages: nat, basemem: nat, infoSize: nat, envSize: nat)
    returns (kernPgdir: Word, pages: Word, envs: Word, firstFree: Word, med: nat)
    requires KERNBASE + EXTPHYSMEM <= end && 0 < infoSize && 0 < envSize && basemem <= IOPHYSMEM / PGSIZE
    requires end - KERNBASE + Bytes(npages, infoSize) + Bytes(NENV, envSize) + 5 * PGSIZE < npages * PGSIZE
    requires npages * PGSIZE <= TWO32 - KERNBASE
    ensures KERNBASE <= end <= kernPgdir && KERNBASE <= pages && KERNBASE <= envs
    ensures kernPgdir % PGSIZE == pages % PGSIZE == envs % PGSIZE == 0
    ensures basemem <= (kernPgdir - KERNBASE) / PGSIZE < med <= npages
    ensures KERNBASE + EXTPHYSMEM < firstFree && firstFree % PGSIZE == 0 && med == (firstFree - KERNBASE) / PGSIZE
    ensures forall p :: p in InitList(basemem, med, npages) ==>
              Clear(p, end, kernPgdir, pages, Bytes(npages, infoSize), envs, Bytes(NENV, envSize))
  {
    hide RoundUp, Clear, InitList;
    assert Bytes(npages, infoSize) == npages * infoSize && Bytes(NENV, envSize) == NENV * envSize;
    ghost var pagesSize, envsSize := Bytes(npages, infoSize), Bytes(NENV, envSize);
    var heap := new BootHeap(end);
    kernPgdir, pages, envs := heap.Chunks(npages, infoSize, envSize);
    firstFree := heap.BootAlloc(0);
    NextFreePage(envs, envsSize, firstFree);
    ChunkPages(kernPgdir, firstFree, npages, basemem);
    med := RoundUp(envs + Bytes(NENV, envSize) - KERNBASE, PGSIZE) / PGSIZE;
    AllClear(InitList(basemem, med, npages), basemem, npages, end, kernPgdir, pages, pagesSize, envs, envsSize,
             firstFree);
  }

  // mem_init on memory with arbitrary contents, up to check_kern_pgdir; false is the panic of
  // check_page_free_list(1) or of boot_map_region.  It returns exactly when there is a page of base memory
  // beside page 0, one behind the chunks, and 67 in all.  Then the kernel state is sound, and no run from
  // there ever makes page_alloc hand out a page of the kernel's own.
  method MemInit(end: Word, stack: Word, npages: nat, basemem: nat, infoSize: nat, envSize: nat)
    returns (ok: bool, m: Machine, kernPgdir: Word, pages: Word, envs: Word, med: nat)
    requires KERNBASE + EXTPHYSMEM <= end && 0 < infoSize && 0 < envSize && basemem <= IOPHYSMEM / PGSIZE
    requires end - KERNBASE + Bytes(npages, infoSize) + Bytes(NENV, envSize) + 5 * PGSIZE < npages * PGSIZE
    requires npages * PGSIZE <= TWO32 - KERNBASE
    requires KERNBASE <= stack && stack % PGSIZE == 0 && stack + KSTKSIZE <= end
    ensures KERNBASE <= end <= kernPgdir && KERNBASE <= pages && KERNBASE <= envs && m.Valid()
    ensures ok <==> basemem > 1 && med < npages && basemem - 1 + npages - med >= 67
    ensures ok ==> Kernel(m.View()) && m.CacheOk()
    ensures ok && Bytes(npages, infoSize) <= PTSIZE && Bytes(NENV, envSize) <= PTSIZE ==>
              CheckKernPgdir(m.View(), PGNUM(pages - KERNBASE), PGNUM(envs - KERNBASE), PGNUM(stack - KERNBASE),
                             npages, infoSize, envSize)
    ensures ok ==> NeverOwn(m.View(), end, kernPgdir, pages, Bytes(npages, infoSize), envs, Bytes(NENV, envSize))
  {
    hide PGNUM, CheckKernPgdir, CheckPasses, Kernel, Clear, InitList, NeverOwn, CoherentBut, Bytes;
    BytesAre(npages, infoSize);
    BytesAre(NENV, envSize);
    var firstFree;
    kernPgdir, pages, envs, firstFree, med := Layout(end, npages, basemem, infoSize, envSize);
    ghost var pagesSize, envsSize := Bytes(npages, infoSize), Bytes(NENV, envSize);
    m := new Machine(npages, (kernPgdir - KERNBASE) / PGSIZE);
    PhysicalAligned(pages);
    PhysicalAligned(envs);
    PhysicalAligned(stack);
    InitPassesIff(basemem, firstFree, npages);
    InitLength(basemem, med, npages);
    ok := m.MemInit(basemem, med, firstFree, pages - KERNBASE, envs - KERNBASE, stack - KERNBASE, infoSize, envSize);
    if ok {
      PoolClear(m.View(), end, kernPgdir, pages, pagesSize, envs, envsSize);
    }
  }

  // After no run does page_alloc hand out a page that is not clear.
  ghost predicate NeverOwn(s: Vm, end: Word, kernPgdir: Word, pages: Word, pagesSize: nat, envs: Word, envsSize: nat)
    requires KERNBASE <= end <= kernPgdir && KERNBASE <= pages && KERNBASE <= envs
  {
    forall moves, zero :: AllEnabled(s, moves) ==>
      var r := PageAlloc(Run(s, moves), zero).1;
      r.Some? ==> Clear(r.value, end, kernPgdir, pages, pagesSize, envs, envsSize)
  }

  lemma PoolClear(s: Vm, end: Word, kernPgdir: Word, pages: Word, pagesSize: nat, envs: Word, envsSize: nat)
    requires KERNBASE <= end <= kernPgdir && KERNBASE <= pages && KERNBASE <= envs
    requires Kernel(s) && s.tlb == map[]
    requires forall p :: p in s.pool ==> Clear(p, end, kernPgdir, pages, pagesSize, envs, envsSize)
    ensures NeverOwn(s, end, kernPgdir, pages, pagesSize, envs, envsSize)
  {
    hide Clear, AllEnabled, Run, Inv;
    KernelParts(s);
    forall moves, zero | AllEnabled(s, moves)
      ensures var r := PageAlloc(Run(s, moves), zero).1;
        r.Some? ==> Clear(r.value, end, kernPgdir, pages, pagesSize, envs, envsSize)
    {
      AllocatedFromPool(s, moves, zero);
    }
  }

  lemma PhysicalAligned(a: Word)
    requires KERNBASE <= a && a % PGSIZE == 0
    ensures (a - KERNBASE) % PGSIZE == 0 && a - KERNBASE + PTSIZE <= TWO32
  {}

  lemma KernelParts(s: Vm)
    requires Kernel(s) && s.tlb == map[]
    ensures Inv(s) && Coherent(s)
  {}
}
