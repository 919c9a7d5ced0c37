/** What user programs can write: over every run the kernel half of each address space stays as mem_init
    made it, and a page that the tables let a user write is a page of user data. */
module Isolation {
  import opened Wrappers
  import opened Bits
  import opened Mmu
  import opened VmState
  import opened VmInvariant
  import opened AddressSpace
  import opened Translation
  import opened Lifetime
  import opened MicroSteps
  import opened Runs
  import opened BootMap

  // The directory entries mem_init makes above UTOP.
  predicate KernelEntry(d: nat) { d == 955 || d == 956 || d == UVPT_PDE || 959 <= d < NPTENTRIES }

  // What mem_init maps at a page above UTOP, outside the UVPT window.
  ghost predicate AsMapped(v: nat, e: Option<Ent>) {
    if Pdx(v) == 955 || Pdx(v) == 956 then e.Some? && e.value.flags == USER_RO
    else if v >= KERNBASE_VPN then e.Some? && e.value.flags == KERNEL_RW
    else e.Some? ==> e.value.flags == KERNEL_RW
  }

  ghost predicate KernelMaps(s: Vm) {
    && (forall d: nat :: USER_PDES <= d ==> (Slot(s.kern, d) in s.ents <==> KernelEntry(d)))
    && (forall d: nat :: USER_PDES <= d && d != UVPT_PDE && Slot(s.kern, d) in s.ents ==>
       s.ents[Slot(s.kern, d)].flags == TABLE_FLAGS)
    && (forall v: nat :: KernelVpn(v) ==> AsMapped(v, Leaf(s, s.kern, v)))
  }

  ghost predicate UserTables(s: Vm) {
    forall sl :: sl in s.ents && sl.frame in Roots(s) && sl.idx < USER_PDES ==> s.ents[sl].flags == TABLE_FLAGS
  }

  ghost predicate Shaped(s: Vm) { KernelMaps(s) && UserTables(s) }

  // -------------------------------------------------------------------------
  // What no operation after boot touches
  // -------------------------------------------------------------------------

  // kern_pgdir's kernel half and the kernel's page tables are as before, and directory entries below UTOP
  // are old ones or those of pgdir_walk.
  ghost predicate KeepsShape(s: Vm, s': Vm) {
    && s'.kern == s.kern && s'.ktables == s.ktables
    && (forall sl: Slot :: (sl.frame == s.kern && sl.idx >= USER_PDES) || sl.frame in s.ktables ==>
          (sl in s'.ents <==> sl in s.ents) && (sl in s.ents ==> s'.ents[sl] == s.ents[sl]))
    && (forall sl :: sl in s'.ents && sl.frame in Roots(s') && sl.idx < USER_PDES ==>
          s'.ents[sl].flags == TABLE_FLAGS || (sl.frame in Roots(s) && sl in s.ents && s'.ents[sl] == s.ents[sl]))
  }

  lemma KeepsTrans(a: Vm, b: Vm, c: Vm)
    requires KeepsShape(a, b) && KeepsShape(b, c)
    ensures KeepsShape(a, c)
  {}

  lemma KeepsRefl(s: Vm)
    ensures KeepsShape(s, s)
  {}

  // Nothing changes but words of frames that are neither directories nor kernel tables.
  lemma KeepsOutside(s: Vm, s': Vm, p: nat)
    requires s'.kern == s.kern && s'.ktables == s.ktables && Roots(s') == Roots(s) && p !in Roots(s)
        && p !in s.ktables
    requires forall sl: Slot :: sl.frame != p ==>
          (sl in s'.ents <==> sl in s.ents) && (sl in s.ents ==> s'.ents[sl] == s.ents[sl])
    ensures KeepsShape(s, s')
  {}

  lemma ShapeKept(s: Vm, s': Vm)
    requires Inv(s) && Shaped(s) && KeepsShape(s, s')
    ensures Shaped(s')
  {
    forall v: nat | KernelVpn(v) ensures Leaf(s', s.kern, v) == Leaf(s, s.kern, v) {
      KernelPath(s, v);
      hide Inv;
    }
    hide Inv, Leaf, KernelVpn, AsMapped;
  }

  lemma KernelPath(s: Vm, v: nat)
    requires Inv(s) && KernelVpn(v)
    ensures LeafSlot(s, s.kern, v).Some? ==> LeafSlot(s, s.kern, v).value.frame in s.ktables
    ensures Pdx(v) >= USER_PDES
  {
    if LeafSlot(s, s.kern, v).Some? {
      PdeTarget(s, None, s.kern, Pdx(v));
    }
  }

  lemma AllocKeeps(s: Vm, zero: bool)
    requires Inv(s)
    ensures KeepsShape(s, PageAlloc(s, zero).0)
  {
    if s.free != [] {
      assert s.free[0] in s.free;
      DataApart(s, s.free[0]);
      hide Inv;
      KeepsOutside(s, PageAlloc(s, zero).0, s.free[0]);
    }
  }

  lemma DataApart(s: Vm, p: nat)
    requires Inv(s) && IsData(s, p)
    ensures p !in Roots(s) && p !in s.ktables && p !in s.tables
  {}

  lemma WalkKeepsShape(s: Vm, dir: nat, vpn: nat)
    requires Inv(s) && dir in Roots(s) && vpn < USER_VPNS
    ensures KeepsShape(s, Walked(s, dir, vpn))
  {
    AllocKeeps(s, true);
    if Slot(dir, Pdx(vpn)) !in s.ents && s.free != [] {
      AllocInv(s, true);
      var s1 := PageAlloc(s, true).0;
      DirApart(s1, dir);
      hide Inv;
      HookKeeps(s1, dir, Pdx(vpn), s.free[0]);
      KeepsTrans(s, s1, Walked(s, dir, vpn));
    }
  }

  lemma DirApart(s: Vm, dir: nat)
    requires Inv(s) && dir in Roots(s)
    ensures dir !in s.ktables
  {}

  lemma HookKeeps(s: Vm, dir: nat, d: nat, p: nat)
    requires d < USER_PDES && dir !in s.ktables
    ensures KeepsShape(s, NewTable(s, dir, d, p))
  {}

  lemma TableApart(s: Vm, pin: Option<nat>, t: nat)
    requires InvPinned(s, pin) && t in s.tables
    ensures t !in Roots(s) && t !in s.ktables
  {}

  lemma RemoveKeeps(s: Vm, pin: Option<nat>, dir: nat, vpn: nat)
    requires InvPinned(s, pin) && dir in Roots(s) && vpn < USER_VPNS
    ensures KeepsShape(s, Remove(s, dir, vpn))
  {
    LookupUser(s, dir, vpn);
    if Lookup(s, dir, vpn).Some? {
      var sl := Lookup(s, dir, vpn).value;
      TableApart(s, pin, sl.frame);
      hide InvPinned, Lookup;
      KeepsOutside(s, Remove(s, dir, vpn), sl.frame);
    } else {
      KeepsRefl(s);
    }
  }

  lemma MappedKeeps(s: Vm, pin: Option<nat>, sl: Slot, p: nat, flags: nat)
    requires InvPinned(s, pin) && sl.frame in s.tables
    ensures KeepsShape(s, Mapped(s, sl, p, flags))
  {
    TableApart(s, pin, sl.frame);
    hide InvPinned;
    KeepsOutside(s, Mapped(s, sl, p, flags), sl.frame);
  }

  lemma PinKeeps(s: Vm, p: nat)
    ensures KeepsShape(s, AddRef(s, p, 1))
  {}

  lemma InsertKeeps(s: Vm, dir: nat, p: nat, vpn: nat, flags: nat)
    requires CanInsert(s, dir, p, vpn)
    ensures KeepsShape(s, Insert(s, dir, p, vpn, flags).0)
  {
    InsertStages(s, dir, p, vpn, flags);
    InsertFrame(s, dir, p, vpn, flags);
    hide Inv, InvPinned, CanInsert, KeepsShape, Insert, Mapped;
    if Insert(s, dir, p, vpn, flags).1 {
      var s1, s2, s3 := Walked(s, dir, vpn), Pinned(s, dir, p, vpn), Opened(s, dir, p, vpn);
      PinKeeps(s1, p);
      KeepsTrans(s, s1, s2);
      RemoveKeeps(s2, Some(p), dir, vpn);
      KeepsRefl(s2);
      KeepsTrans(s, s2, s3);
      MappedKeeps(s3, Some(p), LeafSlot(s2, dir, vpn).value, p, flags);
      KeepsTrans(s, s3, Insert(s, dir, p, vpn, flags).0);
    } else {
      KeepsRefl(s);
    }
  }

  lemma InsertFrame(s: Vm, dir: nat, p: nat, vpn: nat, flags: nat)
    requires CanInsert(s, dir, p, vpn)
    ensures KeepsShape(s, Walked(s, dir, vpn)) && vpn < USER_VPNS
    ensures Insert(s, dir, p, vpn, flags).1 ==>
              var s2, s3 := Pinned(s, dir, p, vpn), Opened(s, dir, p, vpn);
              dir in Roots(s2) && LeafSlot(s2, dir, vpn).Some? && LeafSlot(s2, dir, vpn).value.frame in s3.tables
  {
    WalkKeepsShape(s, dir, vpn);
    InsertStages(s, dir, p, vpn, flags);
    WalkedRoots(s, dir, vpn);
    if Insert(s, dir, p, vpn, flags).1 {
      var s3 := Opened(s, dir, p, vpn);
      hide KeepsShape;
      LeafTable(s3, Some(p), dir, vpn);
    }
  }

  lemma LeafTable(s: Vm, pin: Option<nat>, dir: nat, vpn: nat)
    requires InvPinned(s, pin) && dir in Roots(s) && vpn < USER_VPNS && LeafSlot(s, dir, vpn).Some?
    ensures LeafSlot(s, dir, vpn).value.frame in s.tables
  {
    PdeTarget(s, pin, dir, Pdx(vpn));
  }

  lemma SetupKeeps(s: Vm)
    requires Inv(s) && KernUserEmpty(s)
    ensures KeepsShape(s, EnvSetup(s).0)
  {
    AllocKeeps(s, true);
    if s.free != [] {
      AllocInv(s, true);
      var s1, p := PageAlloc(s, true).0, s.free[0];
      InstalledCopied(s1, p);
      DataApart(s1, p);
      assert EnvSetup(s).0 == Installed(s1, p);
      hide Inv, Installed, EnvSetup;
      CopyKeeps(s1, Installed(s1, p), p);
      KeepsTrans(s, s1, Installed(s1, p));
    }
  }

  lemma CopyKeeps(s: Vm, s': Vm, p: nat)
    requires CopiedTo(s, s', p) && p !in Roots(s) && p !in s.ktables
    ensures KeepsShape(s, s')
  {}

  lemma FreeKeeps(s: Vm, dir: nat, current: bool)
    requires Inv(s) && CanFree(s, dir, current)
    ensures KeepsShape(s, EnvFree(s, dir, current))
  {
    EnvFreeEffect(s, dir, current);
    TablesBelow(s, dir);
    hide Inv, EnvFree, TablesFrom, CanFree;
    TornKeeps(s, EnvFree(s, dir, current), dir);
  }

  lemma TablesBelow(s: Vm, dir: nat)
    requires Inv(s) && dir in s.dirs
    ensures TablesOf(s, dir) <= s.tables && s.tables !! s.ktables && dir != s.kern && dir !in s.ktables
    ensures s.kern !in s.tables
  {}

  lemma TornKeeps(s: Vm, s': Vm, dir: nat)
    requires s'.kern == s.kern && s'.ktables == s.ktables && s'.dirs == s.dirs - {dir}
    requires s'.ents == Torn(s, dir, 0)
    requires TablesOf(s, dir) <= s.tables && s.tables !! s.ktables && dir != s.kern && dir !in s.ktables
        && s.kern !in s.tables
    ensures KeepsShape(s, s')
  {
    hide TablesFrom;
  }

  lemma StoreKeeps(s: Vm, sl: Slot, word: Option<Ent>)
    requires Inv(s) && IsData(s, sl.frame)
    ensures KeepsShape(s, After(s, StoreWord(sl, word)))
  {
    DataApart(s, sl.frame);
    hide Inv;
    KeepsOutside(s, After(s, StoreWord(sl, word)), sl.frame);
  }

  lemma StepKeepsShape(s: Vm, step: Step)
    requires Inv(s) && Enabled(s, step)
    ensures KeepsShape(s, After(s, step))
  {
    hide InvPinned, KernUserEmpty, CanFree, IsData, KeepsShape;
    match step
    case AllocPage(zero) => AllocKeeps(s, zero);
    case FreePage(p) => FreePageKeeps(s, p);
    case WalkCreate(dir, vpn) => WalkKeepsShape(s, dir, vpn);
    case MapPage(dir, p, vpn, flags) => InsertKeeps(s, dir, p, vpn, flags);
    case UnmapPage(dir, vpn) => RemoveKeeps(s, None, dir, vpn);
    case SetupEnv => SetupKeeps(s);
    case FreeEnv(dir, current) => FreeKeeps(s, dir, current);
    case LoadCr3(dir) => LoadKeeps(s, dir);
    case StoreWord(sl, word) => StoreKeeps(s, sl, word);
  }

  lemma FreePageKeeps(s: Vm, p: nat)
    ensures KeepsShape(s, PageFree(s, p))
  {}

  lemma LoadKeeps(s: Vm, dir: nat)
    ensures KeepsShape(s, Lcr3(s, dir))
  {}

  // -------------------------------------------------------------------------
  // kern_pgdir's user half stays empty
  // -------------------------------------------------------------------------

  lemma OnlyDirKern(s: Vm, s': Vm, dir: nat)
    requires Inv(s) && Inv(s') && dir in s.dirs && OnlyDir(s, s', dir) && KernUserEmpty(s)
    ensures KernUserEmpty(s')
  {
    forall sl | sl in s'.ents && sl.frame == s'.kern && sl.idx != UVPT_PDE ensures sl.idx >= USER_PDES {
      assert Live(s', sl);
      assert sl.frame != dir && sl.frame !in s'.tables;
      TablesInTables(s', dir);
      assert sl in Foreign(s', dir);
      assert sl in Foreign(s, dir);
    }
  }

  lemma TablesInTables(s: Vm, dir: nat)
    requires Inv(s) && dir in s.dirs
    ensures TablesOf(s, dir) <= s.tables
  {}

  lemma RemoveOnlyDir(s: Vm, dir: nat, vpn: nat)
    requires Inv(s) && dir in s.dirs && vpn < USER_VPNS
    ensures OnlyDir(s, Remove(s, dir, vpn), dir)
  {
    if Lookup(s, dir, vpn).Some? {
      LeafSlotOwn(s, None, dir, vpn);
      hide Inv, OnlyDir;
      EntryOnlyDir(s, Remove(s, dir, vpn), dir, LeafSlot(s, dir, vpn).value.frame);
    } else {
      OnlyDirRefl(s, dir);
    }
  }

  lemma SetupKern(s: Vm)
    requires Inv(s) && KernUserEmpty(s)
    ensures KernUserEmpty(EnvSetup(s).0)
  {
    if s.free != [] {
      AllocInv(s, true);
      var s1, p := PageAlloc(s, true).0, s.free[0];
      InstalledEnts(s1, p);
      assert EnvSetup(s).0 == Installed(s1, p);
      assert p != s.kern;
      hide Inv, CopyFrame;
    }
  }

  lemma FreeKern(s: Vm, dir: nat, current: bool)
    requires Inv(s) && CanFree(s, dir, current) && KernUserEmpty(s)
    ensures KernUserEmpty(EnvFree(s, dir, current))
  {
    EnvFreeEffect(s, dir, current);
    hide Inv, EnvFree;
  }

  // The operation maps and unmaps in environments' directories only.
  ghost predicate Usual(s: Vm, step: Step) {
    && Enabled(s, step)
    && (step.WalkCreate? ==> step.dir in s.dirs)
    && (step.MapPage? ==> step.dir in s.dirs)
    && (step.UnmapPage? ==> step.dir in s.dirs)
  }

  lemma UsualKern(s: Vm, step: Step)
    requires Inv(s) && KernUserEmpty(s) && Usual(s, step)
    ensures KernUserEmpty(After(s, step))
  {
    StepInv(s, step);
    match step
    case AllocPage(zero) => hide Inv;
    case FreePage(p) => hide Inv;
    case WalkCreate(dir, vpn) => { WalkOnlyDir(s, dir, vpn); OnlyDirKern(s, After(s, step), dir); }
    case MapPage(dir, p, vpn, flags) => { InsertOnlyDir(s, dir, p, vpn, flags); OnlyDirKern(s, After(s, step), dir); }
    case UnmapPage(dir, vpn) => { RemoveOnlyDir(s, dir, vpn); OnlyDirKern(s, After(s, step), dir); }
    case SetupEnv => SetupKern(s);
    case FreeEnv(dir, current) => FreeKern(s, dir, current);
    case LoadCr3(dir) => hide Inv;
    case StoreWord(sl, word) => StoreKern(s, sl, word);
  }

  lemma StoreKern(s: Vm, sl: Slot, word: Option<Ent>)
    requires Inv(s) && KernUserEmpty(s) && Enabled(s, StoreWord(sl, word))
    ensures KernUserEmpty(After(s, StoreWord(sl, word)))
  {
    assert sl.frame != s.kern;
    hide Inv;
  }

  // A state after boot.
  ghost predicate Kernel(s: Vm) { Inv(s) && Shaped(s) && KernUserEmpty(s) }

  lemma StepKernel(s: Vm, step: Step)
    requires Kernel(s) && Usual(s, step)
    ensures Kernel(After(s, step))
  {
    hide Inv, Shaped, KernUserEmpty, After, Enabled;
    StepInv(s, step);
    StepKeepsShape(s, step);
    ShapeKept(s, After(s, step));
    UsualKern(s, step);
  }

  lemma ShapeSame(s: Vm, t: Vm)
    requires Shaped(s) && SameMemory(s, t)
    ensures Shaped(t)
  {
    assert forall v: nat :: Leaf(t, t.kern, v) == Leaf(s, s.kern, v);
    hide Leaf, KernelVpn, AsMapped;
  }

  // -------------------------------------------------------------------------
  // Runs
  // -------------------------------------------------------------------------

  lemma {:induction false} RunKeepsShape(s: Vm, moves: seq<Move>)
    requires Inv(s) && Coherent(s) && Shaped(s) && AllEnabled(s, moves)
    ensures Inv(Run(s, moves)) && Coherent(Run(s, moves)) && Shaped(Run(s, moves))
    decreases |moves|
  {
    hide Inv, Coherent, Enabled, Next, Shaped, After;
    if moves != [] {
      MoveKeeps(s, moves[0]);
      StepCoherent(s, moves[0]);
      StepInv(s, moves[0].step);
      StepKeepsShape(s, moves[0].step);
      ShapeKept(s, After(s, moves[0].step));
      ShapeSame(After(s, moves[0].step), Next(s, moves[0]));
      RunKeepsShape(Next(s, moves[0]), moves[1..]);
    }
  }

  // The processor lets a user write through a translation when both levels have PTE_U and PTE_W.
  ghost predicate UserWritable(x: Xlate) {
    HasBitsOf(x.pde.flags, PTE_U + PTE_W) && HasBitsOf(x.pte.flags, PTE_U + PTE_W)
  }

  lemma FlagBits()
    ensures !HasBitsOf(SELF_FLAGS, PTE_U + PTE_W) && !HasBitsOf(USER_RO, PTE_U + PTE_W)
        && !HasBitsOf(KERNEL_RW, PTE_U + PTE_W)
  {
    assert Bit(6, 1) && !Bit(5, 1);
    assert Bit(6, 2) && !Bit(3, 2);
  }

  lemma WritableIsData(s: Vm, d: nat, v: nat)
    requires Inv(s) && Shaped(s) && d in Roots(s) && v < NVPNS && Translate(s, d, v).Some?
    ensures UserWritable(Translate(s, d, v).value) ==> IsData(s, Translate(s, d, v).value.pte.page)
  {
    FlagBits();
    PdeTarget(s, None, d, Pdx(v));
    if Pdx(v) >= USER_PDES && Pdx(v) != UVPT_PDE {
      SharedLeaf(s, d, v);
      hide Inv, UserWritable, HasBitsOf, Leaf;
      assert KernelVpn(v);
      assert AsMapped(v, Leaf(s, s.kern, v));
      assert Leaf(s, d, v) == Some(Translate(s, d, v).value.pte) by { LeafIsPte(s, d, v); }
      assert !HasBitsOf(Translate(s, d, v).value.pte.flags, PTE_U + PTE_W);
      assert !UserWritable(Translate(s, d, v).value) by { NotWritable(Translate(s, d, v).value); }
    }
  }

  lemma NotWritable(x: Xlate)
    requires !HasBitsOf(x.pte.flags, PTE_U + PTE_W)
    ensures !UserWritable(x)
  {
    hide HasBitsOf;
  }

  lemma LeafIsPte(s: Vm, d: nat, v: nat)
    requires Translate(s, d, v).Some?
    ensures Leaf(s, d, v) == Some(Translate(s, d, v).value.pte)
  {}

  // Above UTOP every directory translates as kern_pgdir does.
  lemma SharedLeaf(s: Vm, d: nat, v: nat)
    requires Inv(s) && d in Roots(s) && Pdx(v) >= USER_PDES && Pdx(v) != UVPT_PDE
    ensures Translate(s, d, v) == Translate(s, s.kern, v)
  {
    assert d != s.kern ==> d in s.dirs;
    assert KernelHalf(s);
    hide Counts, Layered, FreeList;
  }

  // Over every run: what a user can write, through the tables of any address space or through a cached
  // translation, is user data; no page table, no directory, no kernel memory.
  lemma UserWritesOnlyData(s: Vm, moves: seq<Move>, d: nat, v: nat)
    requires Inv(s) && Coherent(s) && Shaped(s) && AllEnabled(s, moves)
    ensures var s' := Run(s, moves);
      && (d in Roots(s') && v < NVPNS && Translate(s', d, v).Some? && UserWritable(Translate(s', d, v).value) ==>
            IsData(s', Translate(s', d, v).value.pte.page))
      && (v in s'.tlb && UserWritable(s'.tlb[v]) ==> IsData(s', s'.tlb[v].pte.page))
  {
    RunKeepsShape(s, moves);
    var s' := Run(s, moves);
    if d in Roots(s') && v < NVPNS && Translate(s', d, v).Some? {
      WritableIsData(s', d, v);
    }
    if v in s'.tlb {
      CurrentRoot(s');
      WritableIsData(s', s'.cr3, v);
    }
    hide Inv, Shaped, UserWritable;
  }

  lemma CurrentRoot(s: Vm)
    requires Inv(s)
    ensures s.cr3 in Roots(s)
  {}

  // -------------------------------------------------------------------------
  // The start
  // -------------------------------------------------------------------------

  lemma MemInitShaped(s0: Vm, pages: nat, envs: nat, stack: nat)
    requires Booting(s0) && OnlySelfMap(s0) && MemInit(s0, pages, envs, stack).Some?
    ensures Shaped(MemInit(s0, pages, envs, stack).value)
  {
    hide BootMapRegion, Inv, Leaf, Region, MapPages, MapEnvs, MapStack, MapMemory, PdesGrow;
    var s1 := MapPages(s0, pages).value;
    var s2 := MapEnvs(s1, envs).value;
    var s3 := MapStack(s2, stack).value;
    var s := MapMemory(s3).value;
    FourCalls(s0, s1, s2, s3, s, pages, envs, stack);
    RegionParts(s0, s1, UPAGES_VPN, 1024, pages, USER_RO);
    RegionParts(s1, s2, UENVS_VPN, 1024, envs, USER_RO);
    RegionParts(s2, s3, STACK_VPN, 8, stack, KERNEL_RW);
    RegionParts(s3, s, KERNBASE_VPN, 65536, 0, KERNEL_RW);
    BootingParts(s0);
    FourPdes(s0, s1, s2, s3, s);
    NothingAbove(s0);
    FourLeaves(s0, s1, s2, s3, s, pages, envs, stack);
    NoUserEntries(s);
    BoundedEntries(s);
  }

  lemma BoundedEntries(s: Vm)
    requires Booting(s)
    ensures Roots(s) == {s.kern} && forall sl :: sl in s.ents ==> sl.idx < NPTENTRIES
  {}

  lemma NoUserEntries(s: Vm)
    requires forall d: nat :: d < USER_PDES ==> Slot(s.kern, d) !in s.ents
    requires Booting(s)
    ensures UserTables(s)
  {
    BoundedEntries(s);
    hide Booting;
    forall sl: Slot | sl.frame == s.kern && sl.idx < USER_PDES ensures sl !in s.ents {
      assert sl == Slot(s.kern, sl.idx);
    }
  }

  lemma NothingAbove(s: Vm)
    requires OnlySelfMap(s)
    ensures forall v: nat :: KernelVpn(v) ==> Leaf(s, s.kern, v) == None
  {}

  lemma FourLeaves(s0: Vm, s1: Vm, s2: Vm, s3: Vm, s: Vm, pages: nat, envs: nat, stack: nat)
    requires Region(s0, s1, UPAGES_VPN, 1024, pages, USER_RO) && Region(s1, s2, UENVS_VPN, 1024, envs, USER_RO)
    requires Region(s2, s3, STACK_VPN, 8, stack, KERNEL_RW) && Region(s3, s, KERNBASE_VPN, 65536, 0, KERNEL_RW)
    requires forall v: nat :: KernelVpn(v) ==> Leaf(s0, s0.kern, v) == None
    ensures forall v: nat :: KernelVpn(v) ==> AsMapped(v, Leaf(s, s.kern, v))
  {
    hide Leaf, PdesGrow;
  }
}
