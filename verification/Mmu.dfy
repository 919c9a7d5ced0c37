/** The address arithmetic of inc/mmu.h, inc/types.h and pmap.h on 32-bit words. */
module Mmu {
  import opened Wrappers
  import opened Bits

  const PGSIZE: nat := 4096
  const PTSIZE: nat := 4096 * 1024
  const PTE_P: nat := 1
  const PTE_W: nat := 2
  const PTE_U: nat := 4
  const KERNBASE: nat := 0xF000_0000
  const ULIM: nat := 0xEF80_0000
  const UPAGES: nat := 0xEF00_0000
  const UENVS: nat := 0xEEC0_0000
  const UTOP: nat := 0xEEC0_0000
  const KSTKSIZE: nat := 8 * 4096
  const TWO32: nat := 0x1_0000_0000

  function PGNUM(la: nat): nat { Shr(la, 12) }

  function PDX(la: Word): nat { And(Shr(la, 22), 0x3FF) }

  function PTX(la: Word): nat { And(Shr(la, 12), 0x3FF) }

  function PGOFF(la: Word): nat { And(la, 0xFFF) }

  function PGADDR(d: nat, t: nat, o: nat): nat { Or(Or(Shl(d, 22), Shl(t, 12)), o) }

  // ~0xFFF on 32 bits.
  function PTE_ADDR(pte: Word): nat { And(pte, 0xFFFF_F000) }

  lemma Powers()
    ensures Pow2(10) == 0x400 && Pow2(12) == 0x1000 && Pow2(20) == 0x10_0000 && Pow2(22) == 0x40_0000
  {
    assert Pow2(5) == 32;
    assert Pow2(10) == 0x400;
    assert Pow2(15) == 0x8000;
    assert Pow2(20) == 0x10_0000;
  }

  // The macros cut a linear address into directory index, table index and offset ...
  lemma Fields(la: Word)
    ensures PGNUM(la) == la / 0x1000 < 0x10_0000
    ensures PDX(la) == la / 0x40_0000 == PGNUM(la) / 1024 < 1024
    ensures PTX(la) == (la / 0x1000) % 1024 == PGNUM(la) % 1024
    ensures PGOFF(la) == la % 0x1000
    ensures PTE_ADDR(la) == la - la % 0x1000
  {
    hide And, Shr, Shl;
    Powers();
    ShrIsQuotient(la, 12);
    ShrIsQuotient(la, 22);
    AndMask(Shr(la, 22), 10);
    AndMask(Shr(la, 12), 10);
    AndMask(la, 12);
    AndMask(Shr(la, 12), 20);
    AndHigh(la, 0xF_FFFF, 12);
    ShlIsProduct(0xF_FFFF, 12);
    ShlIsProduct(Shr(la, 12), 12);
  }

  // ... and PGADDR puts them together again, both ways.
  lemma Recompose(d: nat, t: nat, o: nat)
    requires d < 1024 && t < 1024 && o < 0x1000
    ensures PGADDR(d, t, o) == d * 0x40_0000 + t * 0x1000 + o < TWO32
    ensures PDX(PGADDR(d, t, o)) == d && PTX(PGADDR(d, t, o)) == t && PGOFF(PGADDR(d, t, o)) == o
  {
    hide And, Or, Shl, Shr;
    Powers();
    ShlIsProduct(d, 22);
    ShlIsProduct(t, 12);
    OrDisjoint(d, Shl(t, 12), 22);
    ShlIsProduct(d * 1024 + t, 12);
    OrDisjoint(d * 1024 + t, o, 12);
    Fields(d * 0x40_0000 + t * 0x1000 + o);
  }

  lemma Decompose(la: Word)
    ensures PGADDR(PDX(la), PTX(la), PGOFF(la)) == la
  {
    Fields(la);
    Recompose(PDX(la), PTX(la), PGOFF(la));
  }

  // -------------------------------------------------------------------------
  // Page-table entries
  // -------------------------------------------------------------------------

  predicate IsPresent(w: nat) { And(w, PTE_P) != 0 }

  // page2pa(pp) | perm | PTE_P
  function MakePte(page: nat, perm: nat): nat { Or(Or(Shl(page, 12), perm), PTE_P) }

  function Flags(perm: nat): nat { Or(perm, PTE_P) }

  lemma FlagsRange(perm: nat)
    requires perm < 0x1000
    ensures perm <= Flags(perm) < 0x1000 && Flags(perm) % 2 == 1
    ensures Flags(perm) == if perm % 2 == 1 then perm else perm + 1
  {
    if perm > 0 {
      assert Or(perm / 2, 0) == perm / 2;
    }
  }

  lemma OrOne(x: nat)
    ensures Or(x, 1) == if x % 2 == 1 then x else x + 1
  {
    if x > 0 {
      assert Or(x / 2, 0) == x / 2;
    }
  }

  lemma AndOne(x: nat)
    ensures And(x, 1) == x % 2
  {
    if x > 0 {
      assert And(x / 2, 0) == 0;
    }
  }

  lemma MakePteIs(page: nat, perm: nat)
    requires page < 0x10_0000 && perm < 0x1000
    ensures MakePte(page, perm) == page * 0x1000 + Flags(perm)
  {
    hide Or, Shl, Flags;
    ShiftedPlus(page, perm);
    OrOne(page * 0x1000 + perm);
    FlagsRange(perm);
  }

  lemma ShiftedPlus(page: nat, perm: nat)
    requires perm < 0x1000
    ensures Or(Shl(page, 12), perm) == page * 0x1000 + perm
  {
    hide Or, Shl;
    Powers();
    ShlIsProduct(page, 12);
    OrDisjoint(page, perm, 12);
  }

  // The word page_insert and pgdir_walk store names the page, is present and carries perm | PTE_P.
  lemma PteRoundTrip(page: nat, perm: nat)
    requires page < 0x10_0000 && perm < 0x1000
    ensures MakePte(page, perm) == page * 0x1000 + Flags(perm) < TWO32
    ensures IsPresent(MakePte(page, perm))
    ensures PGNUM(PTE_ADDR(MakePte(page, perm))) == page
    ensures PGOFF(MakePte(page, perm)) == Flags(perm)
  {
    hide And, Or, Shl, Shr, MakePte, Flags;
    MakePteIs(page, perm);
    FlagsRange(perm);
    var w := page * 0x1000 + Flags(perm);
    AndOne(w);
    Fields(w);
    Fields(PTE_ADDR(w));
  }

  // -------------------------------------------------------------------------
  // Rounding (inc/types.h) and physical addresses (pmap.h)
  // -------------------------------------------------------------------------

  function RoundDown(a: Word, n: nat): Word
    requires n > 0
  {
    a - a % n
  }

  // uint32_t arithmetic: a + n - 1 wraps.
  function RoundUp(a: Word, n: nat): Word
    requires 0 < n
  {
    RoundDown((a + n - 1) % TWO32, n)
  }

  // RoundUp is the least multiple of the page size not below a, exactly when a + 4095 does not wrap.
  lemma RoundUpCorrect(a: Word)
    ensures RoundUp(a, PGSIZE) % PGSIZE == 0
    ensures a <= RoundUp(a, PGSIZE) < a + PGSIZE <==> a + PGSIZE - 1 < TWO32
  {
    if a + PGSIZE - 1 >= TWO32 {
      assert (a + PGSIZE - 1) % TWO32 == a + PGSIZE - 1 - TWO32;
    }
  }

  // None is the panic of KADDR.
  function KADDR(pa: Word, npages: nat): Option<Word> {
    if PGNUM(pa) >= npages then None else Some((pa + KERNBASE) % TWO32)
  }

  // None is the panic of PADDR.
  function PADDR(kva: Word): Option<Word> {
    if kva < KERNBASE then None else Some(kva - KERNBASE)
  }

  function Page2pa(p: nat): nat { Shl(p, 12) }

  // None is the panic of pa2page.
  function Pa2page(pa: Word, npages: nat): Option<nat> {
    if PGNUM(pa) >= npages then None else Some(PGNUM(pa))
  }

  lemma PagesRoundTrip(p: nat, npages: nat)
    requires p < npages <= 0x10_0000
    ensures Page2pa(p) == p * PGSIZE < TWO32 && Pa2page(Page2pa(p), npages) == Some(p)
  {
    Powers();
    ShlIsProduct(p, 12);
    Fields(p * 0x1000);
  }

  // PADDR undoes KADDR exactly for the 256 MB that are mapped at KERNBASE; beyond them the sum wraps
  // and PADDR panics on the result.
  lemma KernelAddressRoundTrip(pa: Word, npages: nat)
    ensures KADDR(pa, npages).Some? <==> pa / PGSIZE < npages
    ensures KADDR(pa, npages).Some? ==>
              && (PADDR(KADDR(pa, npages).value) == Some(pa) <==> pa < TWO32 - KERNBASE)
              && (pa < TWO32 - KERNBASE ==> KADDR(pa, npages).value == 0xF000_0000 + pa)
  {
    hide PDX, PTX, PGOFF, PTE_ADDR, Shr, And;
    Fields(pa);
  }
}
