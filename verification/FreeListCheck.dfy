/** The assertions of check_page_free_list, and when page_init's list passes them. */
module FreeListCheck {
  import opened Bits
  import opened Mmu
  import opened BootMemory

  const HOLE_PAGE: nat := 160       // IOPHYSMEM / PGSIZE
  const EXT_PAGE: nat := 256        // EXTPHYSMEM / PGSIZE

  // What is asserted of page p; firstFree is boot_alloc(0).
  predicate ListedOk(p: nat, firstFree: Word) {
    && p != 0 && p != HOLE_PAGE && p != EXT_PAGE - 1 && p != EXT_PAGE
    && (p < EXT_PAGE || (p * PGSIZE + KERNBASE) % TWO32 >= firstFree)
  }

  // In addresses, as it is written in the source.
  lemma ListedOkIs(p: nat, firstFree: Word)
    requires p < 0x10_0000
    ensures var pa := p * PGSIZE;
      ListedOk(p, firstFree) <==>
        pa != 0 && pa != IOPHYSMEM && pa != EXTPHYSMEM - PGSIZE && pa != EXTPHYSMEM
        && (pa < EXTPHYSMEM || (pa + KERNBASE) % TWO32 >= firstFree)
  {}

  // The list is not empty, every page on it is in order, and both base and extended memory are on it.
  ghost predicate CheckPasses(q: seq<nat>, firstFree: Word) {
    && (forall p :: p in q ==> ListedOk(p, firstFree))
    && (exists p :: p in q && p < EXT_PAGE) && (exists p :: p in q && p >= EXT_PAGE)
  }

  // Only the set of pages matters.
  lemma SamePagesPass(q: seq<nat>, q': seq<nat>, firstFree: Word)
    requires forall p :: p in q' <==> p in q
    ensures CheckPasses(q', firstFree) <==> CheckPasses(q, firstFree)
  {}

  // On page_init's list every assertion about an address holds; the check passes exactly when the machine
  // has a page of base memory beside page 0 and one of extended memory behind boot_alloc's chunks.
  lemma InitPassesIff(basemem: nat, firstFree: Word, npages: nat)
    requires basemem <= HOLE_PAGE && KERNBASE + EXTPHYSMEM < firstFree && firstFree % PGSIZE == 0
    requires npages <= 0x1_0000
    ensures var med := (firstFree - KERNBASE) / PGSIZE;
      && (forall p :: p in InitList(basemem, med, npages) ==> ListedOk(p, firstFree))
      && (CheckPasses(InitList(basemem, med, npages), firstFree) <==> basemem > 1 && med < npages)
  {
    var med := (firstFree - KERNBASE) / PGSIZE;
    assert med > EXT_PAGE;
    InitListPages(basemem, med, npages);
    hide InitList;
    var q := InitList(basemem, med, npages);
    forall p | p in q ensures ListedOk(p, firstFree) {
      if p >= med {
        assert p * PGSIZE + KERNBASE < TWO32;
      }
    }
    assert basemem > 1 ==> 1 in q;
    assert med < npages ==> med in q;
  }

  // What is left of a list that passed, after its first pages have been taken, passes exactly when both
  // kinds of memory are still on it.
  lemma RestPassesIff(q: seq<nat>, n: nat, firstFree: Word)
    requires n <= |q| && forall p :: p in q ==> ListedOk(p, firstFree)
    ensures CheckPasses(q[n..], firstFree) <==>
            (exists p :: p in q[n..] && p < EXT_PAGE) && (exists p :: p in q[n..] && p >= EXT_PAGE)
  {}
}
