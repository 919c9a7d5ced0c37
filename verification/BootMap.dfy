/** boot_map_region and the kernel half of the address space that mem_init builds. */
module BootMap {
  import opened Wrappers
  import opened Bits
  import opened Mmu
  import opened VmState
  import opened VmInvariant
  import opened AddressSpace
  import opened Translation

  // Before the first environment exists.
  ghost predicate Booting(s: Vm) { Inv(s) && s.dirs == {} }

  ghost predicate KernelVpn(v: nat) {
    USER_VPNS <= v < NVPNS && Pdx(v) != UVPT_PDE
  }

  // The loop of boot_map_region over k pages; None is its panic.  The mapped pages are not counted.
  function BootMapRegion(s: Vm, vpn: nat, k: nat, page: nat, flags: nat): Option<Vm>
    decreases k
  {
    if k == 0 then Some(s)
    else
      var (s1, slot) := Walk(s, s.kern, vpn, true);
      match slot
      case None => None
      case Some(sl) => BootMapRegion(Mapped(s1, sl, page, flags), vpn + 1, k - 1, page + 1, flags)
  }

  lemma StaticCounts(s: Vm, sl: Slot, page: nat, flags: nat)
    requires Inv(s) && sl.frame in s.ktables
    ensures Counts(Mapped(s, sl, page, flags), None)
  {
    var s' := Mapped(s, sl, page, flags);
    forall q | q in s.pool ensures Ref(s', q) == Owed(s', q, None) {
      SameLiveRefs(s, s', q);
      assert Ref(s, q) == Owed(s, q, None);
    }
  }

  lemma StaticLayers(s: Vm, sl: Slot, page: nat, flags: nat)
    requires Roles(s) && FreeList(s) && Layered(s) && KernelHalf(s) && sl.frame in s.ktables && sl.idx < NPTENTRIES
    ensures var s' := Mapped(s, sl, page, flags); Roles(s') && FreeList(s') && Layered(s') && KernelHalf(s')
  {}

  // An entry of a kernel page table holds no reference, so writing one keeps the invariant.
  lemma StaticInv(s: Vm, sl: Slot, page: nat, flags: nat)
    requires Inv(s) && sl.frame in s.ktables && sl.idx < NPTENTRIES
    ensures Inv(Mapped(s, sl, page, flags))
  {
    StaticCounts(s, sl, page, flags);
    StaticLayers(s, sl, page, flags);
    hide Roles, FreeList, Layered, KernelHalf, Counts;
  }

  lemma KernelSlotInjective(s: Vm, v1: nat, v2: nat)
    requires Booting(s) && KernelVpn(v1) && v2 < NVPNS
    requires LeafSlot(s, s.kern, v1).Some? && LeafSlot(s, s.kern, v2) == LeafSlot(s, s.kern, v1)
    ensures v1 == v2
  {
    var a, b := Slot(s.kern, Pdx(v1)), Slot(s.kern, Pdx(v2));
    PdeTarget(s, None, s.kern, Pdx(v1));
    PdeTarget(s, None, s.kern, Pdx(v2));
    RootsApart(s);
    OneParent(s, None, a, b);
    assert v1 == Pdx(v1) * 1024 + Ptx(v1) && v2 == Pdx(v2) * 1024 + Ptx(v2);
  }

  ghost predicate SamePages(s: Vm, s': Vm) {
    && s'.kern == s.kern && s'.pool == s.pool && s'.dirs == s.dirs && s'.tables == s.tables && s.ktables <= s'.ktables
    && (forall p :: p in s.pool && !(p in s'.ktables && p !in s.ktables) ==> Ref(s', p) == Ref(s, p))
  }

  // Some page of [lo, hi) hangs from directory entry d.
  ghost predicate Touches(lo: nat, hi: nat, d: nat) {
    exists v: nat :: lo <= v < hi && Pdx(v) == d
  }

  lemma TouchesIff(lo: nat, hi: nat, d: nat)
    requires lo < hi
    ensures Touches(lo, hi, d) <==> Pdx(lo) <= d <= Pdx(hi - 1)
  {
    if Pdx(lo) < d <= Pdx(hi - 1) {
      assert Pdx(1024 * d) == d;
    }
    assert Pdx(lo) == d ==> Touches(lo, hi, d);
  }

  // Directory entries present afterwards: the old ones, and one for each 4 MB touched.
  ghost predicate PdesGrow(s: Vm, s': Vm, lo: nat, hi: nat) {
    forall d: nat :: d < NPTENTRIES ==>
      (Slot(s.kern, d) in s'.ents <==> Slot(s.kern, d) in s.ents || Touches(lo, hi, d))
      && (Slot(s.kern, d) in s.ents ==> s'.ents[Slot(s.kern, d)] == s.ents[Slot(s.kern, d)])
      && (Slot(s.kern, d) in s'.ents && Slot(s.kern, d) !in s.ents ==> s'.ents[Slot(s.kern, d)].flags == TABLE_FLAGS)
  }

  ghost predicate Region(s: Vm, s': Vm, vpn: nat, k: nat, page: nat, flags: nat) {
    && SamePages(s, s') && PdesGrow(s, s', vpn, vpn + k)
    && (forall v: nat :: vpn <= v < vpn + k ==> Leaf(s', s.kern, v) == Some(Ent(page + (v - vpn), flags)))
    && (forall v: nat :: v < NVPNS && Pdx(v) != UVPT_PDE && !(vpn <= v < vpn + k) ==>
       Leaf(s', s.kern, v) == Leaf(s, s.kern, v))
  }

  // One page.
  lemma WalkKernel(s: Vm, vpn: nat)
    requires Booting(s) && KernelVpn(vpn)
    ensures var (s1, slot) := Walk(s, s.kern, vpn, true);
      && Booting(s1) && SamePages(s, s1)
      && (slot.Some? ==> PdesGrow(s, s1, vpn, vpn + 1) && LeafSlot(s1, s.kern, vpn) == slot
                         && slot.value.frame in s1.ktables && slot.value.idx < NPTENTRIES)
  {
    WalkInv(s, s.kern, vpn, true);
    WalkSame(s, vpn);
    hide InvPinned, PdesGrow, SamePages;
    var (s1, slot) := Walk(s, s.kern, vpn, true);
    if slot.Some? {
      PdeTarget(s1, None, s.kern, Pdx(vpn));
      WalkPdes(s, vpn);
    }
  }

  lemma WalkSame(s: Vm, vpn: nat)
    requires Booting(s) && KernelVpn(vpn)
    ensures SamePages(s, Walk(s, s.kern, vpn, true).0) && (s.free == [] || s.free[0] != s.kern)
  {
    if s.free != [] {
      assert s.free[0] in s.free;
    }
    hide Layered, Counts, KernelHalf;
  }

  lemma WalkPdes(s: Vm, vpn: nat)
    requires s.free == [] || s.free[0] != s.kern
    requires Walk(s, s.kern, vpn, true).1.Some?
    ensures PdesGrow(s, Walk(s, s.kern, vpn, true).0, vpn, vpn + 1)
  {
    var s1 := Walk(s, s.kern, vpn, true).0;
    forall d: nat | d < NPTENTRIES && Slot(s.kern, d) in s1.ents && Slot(s.kern, d) !in s.ents
      ensures Touches(vpn, vpn + 1, d)
    {
      assert Pdx(vpn) == d;
    }
  }

  lemma OnePage(s: Vm, vpn: nat, page: nat, flags: nat)
    requires Booting(s) && KernelVpn(vpn) && Walk(s, s.kern, vpn, true).1.Some?
    ensures var (s1, slot) := Walk(s, s.kern, vpn, true);
      var s2 := Mapped(s1, slot.value, page, flags);
      Booting(s2) && Region(s, s2, vpn, 1, page, flags)
  {
    hide Inv, Leaf, Walk, PdesGrow;
    var (s1, slot) := Walk(s, s.kern, vpn, true);
    var sl := slot.value;
    var s2 := Mapped(s1, sl, page, flags);
    WalkKernel(s, vpn);
    StaticInv(s1, sl, page, flags);
    forall v: nat | v < NVPNS && Pdx(v) != UVPT_PDE
      ensures Leaf(s2, s.kern, v) == if v == vpn then Some(Ent(page, flags)) else Leaf(s, s.kern, v)
    {
      WalkSameLeaf(s, vpn, v);
      StaticLeaf(s1, vpn, sl, page, flags, v);
    }
    KernNotTable(s1);
    StaticPdes(s, s1, sl, page, flags, vpn);
  }

  lemma WalkSameLeaf(s: Vm, vpn: nat, v: nat)
    requires Booting(s) && v < NVPNS && Pdx(v) != UVPT_PDE
    ensures Leaf(Walk(s, s.kern, vpn, true).0, s.kern, v) == Leaf(s, s.kern, v)
  {
    WalkLeaf(s, s.kern, vpn, s.kern, v);
    hide Inv, Walk;
  }

  lemma StaticPdes(s: Vm, s1: Vm, sl: Slot, page: nat, flags: nat, vpn: nat)
    requires PdesGrow(s, s1, vpn, vpn + 1) && sl.frame != s.kern && s1.kern == s.kern
    ensures PdesGrow(s, Mapped(s1, sl, page, flags), vpn, vpn + 1)
  {}

  lemma KernNotTable(s: Vm)
    requires Booting(s)
    ensures s.kern !in s.ktables
  {}

  lemma StaticLeaf(s: Vm, vpn: nat, sl: Slot, page: nat, flags: nat, v: nat)
    requires Booting(s) && KernelVpn(vpn) && v < NVPNS
    requires LeafSlot(s, s.kern, vpn) == Some(sl) && sl.frame in s.ktables
    ensures Leaf(Mapped(s, sl, page, flags), s.kern, v) ==
            if v == vpn then Some(Ent(page, flags)) else Leaf(s, s.kern, v)
  {
    KernNotTable(s);
    if LeafSlot(s, s.kern, v) == Some(sl) {
      KernelSlotInjective(s, vpn, v);
    }
    hide Inv;
  }

  lemma RegionJoin(s: Vm, s1: Vm, s2: Vm, vpn: nat, k: nat, page: nat, flags: nat)
    requires Region(s, s1, vpn, 1, page, flags) && Region(s1, s2, vpn + 1, k, page + 1, flags)
    requires KernelVpn(vpn) && (forall v: nat :: vpn <= v < vpn + 1 + k ==> KernelVpn(v))
    ensures Region(s, s2, vpn, k + 1, page, flags)
  {
    PdesJoin(s, s1, s2, vpn, vpn + 1, vpn + 1 + k);
  }

  lemma PdesJoin(s: Vm, s1: Vm, s2: Vm, lo: nat, mid: nat, hi: nat)
    requires s1.kern == s.kern && lo <= mid <= hi && PdesGrow(s, s1, lo, mid) && PdesGrow(s1, s2, mid, hi)
    ensures PdesGrow(s, s2, lo, hi)
  {}

  // boot_map_region, when it returns, maps page vpn + i to page + i with the given flags, and changes
  // no other translation and no count of a page it maps.
  lemma {:induction false} BootMapEffect(s: Vm, vpn: nat, k: nat, page: nat, flags: nat)
    requires Booting(s) && BootMapRegion(s, vpn, k, page, flags).Some?
    requires forall v: nat :: vpn <= v < vpn + k ==> KernelVpn(v)
    ensures var s' := BootMapRegion(s, vpn, k, page, flags).value;
      Booting(s') && Region(s, s', vpn, k, page, flags)
    decreases k
  {
    hide Inv, Booting, Region, Walk, Mapped, KernelVpn;
    if k == 0 {
      RegionEmpty(s, vpn, page, flags);
    } else {
      var (s1, slot) := Walk(s, s.kern, vpn, true);
      var s2 := Mapped(s1, slot.value, page, flags);
      assert KernelVpn(vpn);
      OnePage(s, vpn, page, flags);
      RegionKern(s, s2, vpn, page, flags);
      BootMapEffect(s2, vpn + 1, k - 1, page + 1, flags);
      RegionJoin(s, s2, BootMapRegion(s2, vpn + 1, k - 1, page + 1, flags).value, vpn, k - 1, page, flags);
    }
  }

  lemma RegionKern(s: Vm, s': Vm, vpn: nat, page: nat, flags: nat)
    requires Region(s, s', vpn, 1, page, flags)
    ensures s'.kern == s.kern
  {}

  lemma RegionEmpty(s: Vm, vpn: nat, page: nat, flags: nat)
    ensures Region(s, s, vpn, 0, page, flags)
  {}

  // -------------------------------------------------------------------------
  // mem_init
  // -------------------------------------------------------------------------

  const UPAGES_VPN: nat := 0xEF000
  const UENVS_VPN: nat := 0xEEC00
  const STACK_VPN: nat := 0xEFFF8       // (KSTACKTOP - KSTKSIZE) / PGSIZE
  const GUARD_VPN: nat := 0xEFC00       // (KSTACKTOP - PTSIZE) / PGSIZE
  const KERNBASE_VPN: nat := 0xF0000
  const USER_RO: nat := 5               // PTE_U | PTE_P
  const KERNEL_RW: nat := 3             // PTE_W | PTE_P

  // What mem_init asks boot_map_region for, given the page numbers of the three arrays.
  function MapPages(s: Vm, pages: nat): Option<Vm> { BootMapRegion(s, UPAGES_VPN, 1024, pages, USER_RO) }

  function MapEnvs(s: Vm, envs: nat): Option<Vm> { BootMapRegion(s, UENVS_VPN, 1024, envs, USER_RO) }

  function MapStack(s: Vm, stack: nat): Option<Vm> { BootMapRegion(s, STACK_VPN, 8, stack, KERNEL_RW) }

  function MapMemory(s: Vm): Option<Vm> { BootMapRegion(s, KERNBASE_VPN, 65536, 0, KERNEL_RW) }

  function MemInit(s: Vm, pages: nat, envs: nat, stack: nat): Option<Vm> {
    var s1 := MapPages(s, pages);
    if s1.None? then None else
    var s2 := MapEnvs(s1.value, envs);
    if s2.None? then None else
    var s3 := MapStack(s2.value, stack);
    if s3.None? then None else MapMemory(s3.value)
  }

  // kern_pgdir as mem_init leaves it before the four calls: only the self-map.
  ghost predicate OnlySelfMap(s: Vm) {
    forall sl :: sl in s.ents && sl.frame == s.kern ==> sl.idx == UVPT_PDE
  }

  function PagesFor(bytes: nat): nat { (bytes + 4095) / 4096 }

  // The assertions of check_kern_pgdir.
  ghost predicate CheckKernPgdir(s: Vm, pages: nat, envs: nat, stack: nat, npages: nat, infoSize: nat, envSize: nat) {
    && (forall i: nat :: i < PagesFor(npages * infoSize) ==> MapsTo(s, UPAGES_VPN, i, pages))
    && (forall i: nat :: i < PagesFor(1024 * envSize) ==> MapsTo(s, UENVS_VPN, i, envs))
    && (forall i: nat :: i < npages ==> MapsTo(s, KERNBASE_VPN, i, 0))
    && (forall i: nat :: i < 8 ==> MapsTo(s, STACK_VPN, i, stack))
    && Leaf(s, s.kern, GUARD_VPN) == None
    && (forall d: nat :: d < NPTENTRIES ==>
          if d == UVPT_PDE || d == 955 || d == 956 || d == 959 then Slot(s.kern, d) in s.ents
          else if d >= 960 then Slot(s.kern, d) in s.ents && And(s.ents[Slot(s.kern, d)].flags, PTE_W) != 0
          else Slot(s.kern, d) !in s.ents)
  }

  ghost predicate MapsTo(s: Vm, base: nat, i: nat, page: nat) {
    var e := Leaf(s, s.kern, base + i); e.Some? && e.value.page == page + i
  }

  // If the four calls return, the checks pass and the kernel directory's user half is empty.
  lemma MemInitChecks(s0: Vm, pages: nat, envs: nat, stack: nat, npages: nat, infoSize: nat, envSize: nat)
    requires Booting(s0) && OnlySelfMap(s0) && MemInit(s0, pages, envs, stack).Some?
    requires npages <= 65536 && npages * infoSize <= PTSIZE && 1024 * envSize <= PTSIZE
    ensures var s := MemInit(s0, pages, envs, stack).value;
      Booting(s) && CheckKernPgdir(s, pages, envs, stack, npages, infoSize, envSize) && KernUserEmpty(s)
          && SamePages(s0, s)
  {
    hide BootMapRegion, Inv, Leaf, Region, MapPages, MapEnvs, MapStack, MapMemory, PdesGrow;
    var s1 := MapPages(s0, pages).value;
    var s2 := MapEnvs(s1, envs).value;
    var s3 := MapStack(s2, stack).value;
    var s := MapMemory(s3).value;
    FourCalls(s0, s1, s2, s3, s, pages, envs, stack);
    FourRegions(s0, s1, s2, s3, s, pages, envs, stack);
    RegionParts(s0, s1, UPAGES_VPN, 1024, pages, USER_RO);
    RegionParts(s1, s2, UENVS_VPN, 1024, envs, USER_RO);
    RegionParts(s2, s3, STACK_VPN, 8, stack, KERNEL_RW);
    RegionParts(s3, s, KERNBASE_VPN, 65536, 0, KERNEL_RW);
    BootingParts(s0);
    FourPdes(s0, s1, s2, s3, s);
    GuardUnmapped(s0);
    SevenHasW();
    UserHalfEmpty(s);
    assert PagesFor(npages * infoSize) <= 1024 && PagesFor(1024 * envSize) <= 1024;
  }

  lemma BootingParts(s: Vm)
    requires Booting(s)
    ensures KernelHalf(s)
  {}

  lemma RegionParts(s: Vm, s': Vm, vpn: nat, k: nat, page: nat, flags: nat)
    requires Region(s, s', vpn, k, page, flags)
    ensures s'.kern == s.kern && PdesGrow(s, s', vpn, vpn + k)
  {}

  lemma FourCalls(s0: Vm, s1: Vm, s2: Vm, s3: Vm, s: Vm, pages: nat, envs: nat, stack: nat)
    requires Booting(s0)
    requires MapPages(s0, pages) == Some(s1) && MapEnvs(s1, envs) == Some(s2)
    requires MapStack(s2, stack) == Some(s3) && MapMemory(s3) == Some(s)
    ensures Region(s0, s1, UPAGES_VPN, 1024, pages, USER_RO) && Region(s1, s2, UENVS_VPN, 1024, envs, USER_RO)
    ensures Region(s2, s3, STACK_VPN, 8, stack, KERNEL_RW) && Region(s3, s, KERNBASE_VPN, 65536, 0, KERNEL_RW)
    ensures Booting(s)
  {
    hide BootMapRegion, Booting, Region;
    BootMapEffect(s0, UPAGES_VPN, 1024, pages, USER_RO);
    BootMapEffect(s1, UENVS_VPN, 1024, envs, USER_RO);
    BootMapEffect(s2, STACK_VPN, 8, stack, KERNEL_RW);
    BootMapEffect(s3, KERNBASE_VPN, 65536, 0, KERNEL_RW);
  }

  lemma SevenHasW()
    ensures And(TABLE_FLAGS, PTE_W) != 0
  {}

  lemma GuardUnmapped(s: Vm)
    requires OnlySelfMap(s)
    ensures Leaf(s, s.kern, GUARD_VPN) == None
  {}

  lemma UserHalfEmpty(s: Vm)
    requires forall d: nat :: d < 955 ==> Slot(s.kern, d) !in s.ents
    ensures KernUserEmpty(s)
  {
    forall sl | sl in s.ents && sl.frame == s.kern ensures sl.idx >= USER_PDES {
      assert sl == Slot(s.kern, sl.idx);
    }
  }

  lemma FourRegions(s0: Vm, s1: Vm, s2: Vm, s3: Vm, s: Vm, pages: nat, envs: nat, stack: nat)
    requires Region(s0, s1, UPAGES_VPN, 1024, pages, USER_RO) && Region(s1, s2, UENVS_VPN, 1024, envs, USER_RO)
    requires Region(s2, s3, STACK_VPN, 8, stack, KERNEL_RW) && Region(s3, s, KERNBASE_VPN, 65536, 0, KERNEL_RW)
    ensures forall i: nat :: i < 1024 ==> MapsTo(s, UPAGES_VPN, i, pages)
    ensures forall i: nat :: i < 1024 ==> MapsTo(s, UENVS_VPN, i, envs)
    ensures forall i: nat :: i < 8 ==> MapsTo(s, STACK_VPN, i, stack)
    ensures forall i: nat :: i < 65536 ==> MapsTo(s, KERNBASE_VPN, i, 0)
    ensures Leaf(s, s.kern, GUARD_VPN) == Leaf(s0, s0.kern, GUARD_VPN)
    ensures SamePages(s0, s)
  {
    hide Leaf;
  }

  lemma FourPdes(s0: Vm, s1: Vm, s2: Vm, s3: Vm, s: Vm)
    requires OnlySelfMap(s0) && KernelHalf(s0)
    requires s1.kern == s0.kern && s2.kern == s0.kern && s3.kern == s0.kern && s.kern == s0.kern
    requires PdesGrow(s0, s1, UPAGES_VPN, UPAGES_VPN + 1024) && PdesGrow(s1, s2, UENVS_VPN, UENVS_VPN + 1024)
    requires PdesGrow(s2, s3, STACK_VPN, STACK_VPN + 8) && PdesGrow(s3, s, KERNBASE_VPN, KERNBASE_VPN + 65536)
    ensures forall d: nat :: d < NPTENTRIES ==>
      (Slot(s.kern, d) in s.ents <==> d == UVPT_PDE || d == 955 || d == 956 || d == 959 || d >= 960)
      && (Slot(s.kern, d) in s.ents && d != UVPT_PDE ==> s.ents[Slot(s.kern, d)].flags == TABLE_FLAGS)
  {
    assert Slot(s0.kern, UVPT_PDE) in s0.ents;
    forall d: nat | d < NPTENTRIES
      ensures Slot(s.kern, d) in s.ents <==> d == UVPT_PDE || d == 955 || d == 956 || d == 959 || d >= 960
      ensures Slot(s.kern, d) in s.ents && d != UVPT_PDE ==> s.ents[Slot(s.kern, d)].flags == TABLE_FLAGS
    {
      TouchesIff(UPAGES_VPN, UPAGES_VPN + 1024, d);
      TouchesIff(UENVS_VPN, UENVS_VPN + 1024, d);
      TouchesIff(STACK_VPN, STACK_VPN + 8, d);
      TouchesIff(KERNBASE_VPN, KERNBASE_VPN + 65536, d);
      hide Touches;
    }
  }
}
