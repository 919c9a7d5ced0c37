/** Every run of the virtual-memory operations keeps the invariant, and no stale translation is ever left
    in the translation cache, whenever within an operation the processor chooses to fill it. */
module Runs {
  import opened Wrappers
  import opened VmState
  import opened VmInvariant
  import opened AddressSpace
  import opened Translation
  import opened Teardown
  import opened MicroSteps

  datatype Step =
    | AllocPage(zero: bool)                               // page_alloc
    | FreePage(p: nat)                                    // page_free of a page nothing refers to
    | WalkCreate(dir: nat, vpn: nat)                      // pgdir_walk with create
    | MapPage(dir: nat, p: nat, vpn: nat, flags: nat)     // page_insert
    | UnmapPage(dir: nat, vpn: nat)                       // page_remove
    | SetupEnv                                            // env_setup_vm
    | FreeEnv(dir: nat, current: bool)                    // env_free
    | LoadCr3(dir: nat)                                   // lcr3 in env_run and load_icode
    | StoreWord(sl: Slot, word: Option<Ent>)              // any write into a page of user data

  // One operation, and what the processor caches before each of its accesses and after the last.
  datatype Move = Move(step: Step, fills: seq<set<nat>>)

  // What the callers of each operation have to respect.
  ghost predicate Enabled(s: Vm, step: Step) {
    match step
    case AllocPage(_) => true
    case FreePage(p) => IsData(s, p) && Ref(s, p) == 0 && p !in s.free
    case WalkCreate(dir, vpn) => dir in Roots(s) && vpn < USER_VPNS
    case MapPage(dir, p, vpn, _) => dir in Roots(s) && vpn < USER_VPNS && IsData(s, p) && p !in s.free
    case UnmapPage(dir, vpn) => dir in Roots(s) && vpn < USER_VPNS
    case SetupEnv => KernUserEmpty(s)
    case FreeEnv(dir, current) => CanFree(s, dir, current)
    case LoadCr3(dir) => dir in Roots(s)
    case StoreWord(sl, _) => IsData(s, sl.frame) && sl.idx < NPTENTRIES
  }

  // What the operation does to memory, and the accesses it does it by.
  function After(s: Vm, step: Step): Vm {
    match step
    case AllocPage(zero) => PageAlloc(s, zero).0
    case FreePage(p) => PageFree(s, p)
    case WalkCreate(dir, vpn) => Walk(s, dir, vpn, true).0
    case MapPage(dir, p, vpn, flags) => Insert(s, dir, p, vpn, flags).0
    case UnmapPage(dir, vpn) => Remove(s, dir, vpn)
    case SetupEnv => EnvSetup(s).0
    case FreeEnv(dir, current) => EnvFree(s, dir, current)
    case LoadCr3(dir) => Lcr3(s, dir)
    case StoreWord(sl, word) => Exec(s, Write(sl, word))
  }

  function Ops(s: Vm, step: Step): seq<Micro> {
    match step
    case AllocPage(zero) => AllocOps(s, zero)
    case FreePage(p) => [SetFree([p] + s.free)]
    case WalkCreate(dir, vpn) => WalkOps(s, dir, vpn)
    case MapPage(dir, p, vpn, flags) => InsertOps(s, dir, p, vpn, flags)
    case UnmapPage(dir, vpn) => RemoveOps(s, dir, vpn)
    case SetupEnv => SetupOps(s)
    case FreeEnv(dir, current) => EnvFreeOps(s, dir, current)
    case LoadCr3(dir) => [Load(dir)]
    case StoreWord(sl, word) => [Write(sl, word)]
  }

  ghost function Next(s: Vm, move: Move): Vm {
    Interleaved(s, Ops(s, move.step), move.fills)
  }

  // -------------------------------------------------------------------------
  // The invariant
  // -------------------------------------------------------------------------

  // The invariant does not speak of the cache.
  lemma InvSame(s: Vm, t: Vm)
    requires Inv(s) && SameMemory(s, t)
    ensures Inv(t)
  {
    CountsSame(s, t);
    LayersSame(s, t);
    hide Roles, FreeList, Layered, KernelHalf, Counts;
  }

  lemma LayersSame(s: Vm, t: Vm)
    requires Roles(s) && FreeList(s) && Layered(s) && KernelHalf(s) && SameMemory(s, t)
    ensures Roles(t) && FreeList(t) && Layered(t) && KernelHalf(t)
  {}

  lemma CountsSame(s: Vm, t: Vm)
    requires Counts(s, None) && SameMemory(s, t)
    ensures Counts(t, None)
  {
    forall q | q in s.pool ensures Ref(t, q) == Owed(t, q, None) {
      SameLiveRefs(s, t, q);
      assert Ref(s, q) == Owed(s, q, None);
    }
  }

  lemma FreePageInv(s: Vm, p: nat)
    requires Inv(s) && IsData(s, p) && Ref(s, p) == 0 && p !in s.free
    ensures Inv(PageFree(s, p))
  {
    FreePageCounts(s, p);
    FreePageLayers(s, p);
    hide Roles, FreeList, Layered, KernelHalf, Counts;
  }

  lemma FreePageCounts(s: Vm, p: nat)
    requires Counts(s, None)
    ensures Counts(PageFree(s, p), None)
  {
    var s' := PageFree(s, p);
    forall q | q in s.pool ensures Ref(s', q) == Owed(s', q, None) {
      SameLiveRefs(s, s', q);
      assert Ref(s, q) == Owed(s, q, None);
    }
  }

  lemma FreePageLayers(s: Vm, p: nat)
    requires Roles(s) && FreeList(s) && Layered(s) && KernelHalf(s)
    requires IsData(s, p) && Ref(s, p) == 0 && p !in s.free
    ensures var s' := PageFree(s, p); Roles(s') && FreeList(s') && Layered(s') && KernelHalf(s')
  {}

  lemma StoredCounts(s: Vm, sl: Slot, word: Option<Ent>)
    requires Inv(s) && Enabled(s, StoreWord(sl, word))
    ensures Counts(After(s, StoreWord(sl, word)), None)
  {
    var s' := After(s, StoreWord(sl, word));
    assert sl.frame != s.kern;
    forall q | q in s.pool ensures Ref(s', q) == Owed(s', q, None) {
      SameLiveRefs(s, s', q);
      assert Ref(s, q) == Owed(s, q, None);
    }
  }

  lemma StoredInv(s: Vm, sl: Slot, word: Option<Ent>)
    requires Inv(s) && Enabled(s, StoreWord(sl, word))
    ensures Inv(After(s, StoreWord(sl, word)))
  {
    hide Counts, Layered, KernelHalf, FreeList, Roles;
    StoredCounts(s, sl, word);
    StoredLayers(s, sl, word);
  }

  lemma StoredLayers(s: Vm, sl: Slot, word: Option<Ent>)
    requires Roles(s) && FreeList(s) && Layered(s) && KernelHalf(s) && IsData(s, sl.frame) && sl.idx < NPTENTRIES
    ensures var s' := After(s, StoreWord(sl, word)); Roles(s') && FreeList(s') && Layered(s') && KernelHalf(s')
  {
    assert sl.frame != s.kern && sl.frame < |s.refs|;
  }

  lemma UnmapInv(s: Vm, dir: nat, vpn: nat)
    requires Inv(s) && dir in Roots(s) && vpn < USER_VPNS
    ensures Inv(Remove(s, dir, vpn))
  {
    RemoveInv(s, None, dir, vpn);
    hide InvPinned, Remove;
  }

  lemma StepInv(s: Vm, step: Step)
    requires Inv(s) && Enabled(s, step)
    ensures Inv(After(s, step))
  {
    hide Inv, KernUserEmpty, CanFree, IsData;
    match step
    case AllocPage(zero) => AllocInv(s, zero);
    case FreePage(p) => FreePageInv(s, p);
    case WalkCreate(dir, vpn) => WalkInv(s, dir, vpn, true);
    case MapPage(dir, p, vpn, flags) => InsertInv(s, dir, p, vpn, flags);
    case UnmapPage(dir, vpn) => UnmapInv(s, dir, vpn);
    case SetupEnv => EnvSetupInv(s);
    case FreeEnv(dir, current) => EnvFreeEffect(s, dir, current);
    case LoadCr3(dir) => Lcr3Inv(s, dir);
    case StoreWord(sl, word) => StoredInv(s, sl, word);
  }

  // -------------------------------------------------------------------------
  // The translation cache
  // -------------------------------------------------------------------------

  lemma StoredQuiet(s: Vm, sl: Slot, word: Option<Ent>)
    requires Inv(s) && Enabled(s, StoreWord(sl, word))
    ensures Quiet(s, [Write(sl, word)], After(s, StoreWord(sl, word)))
  {
    DataOff(s, None, sl.frame);
    hide Inv;
    OffFrameQuiet(s, sl, word);
  }

  lemma StepQuiet(s: Vm, step: Step)
    requires Inv(s) && Enabled(s, step)
    ensures Quiet(s, Ops(s, step), After(s, step))
  {
    hide Inv, KernUserEmpty, CanFree, IsData, Quiet;
    match step
    case AllocPage(zero) => AllocQuiet(s, zero);
    case FreePage(p) => BookkeepingQuiet(s, SetFree([p] + s.free));
    case WalkCreate(dir, vpn) => WalkQuiet(s, dir, vpn);
    case MapPage(dir, p, vpn, flags) => InsertQuiet(s, dir, p, vpn, flags);
    case UnmapPage(dir, vpn) => UnmapOpsQuiet(s, dir, vpn);
    case SetupEnv => SetupQuiet(s);
    case FreeEnv(dir, current) => EnvFreeQuiet(s, dir, current);
    case LoadCr3(dir) => QuietOne(s, Load(dir));
    case StoreWord(sl, word) => StoredQuiet(s, sl, word);
  }

  lemma UnmapOpsQuiet(s: Vm, dir: nat, vpn: nat)
    requires Inv(s) && dir in Roots(s) && vpn < USER_VPNS
    ensures Quiet(s, RemoveOps(s, dir, vpn), Remove(s, dir, vpn))
  {
    RemoveQuiet(s, None, dir, vpn);
    hide InvPinned, Quiet;
  }

  // Whatever the processor caches before, between and after the accesses of an operation, the cache is
  // coherent when the operation returns, and memory is what the operation makes it.
  lemma StepCoherent(s: Vm, move: Move)
    requires Inv(s) && Enabled(s, move.step) && Coherent(s)
    ensures Coherent(Next(s, move)) && SameMemory(After(s, move.step), Next(s, move))
  {
    StepQuiet(s, move.step);
    hide Quiet, Ops, After;
    QuietCoherent(s, Ops(s, move.step), After(s, move.step), move.fills);
  }

  lemma AtomicCoherent(s: Vm, step: Step)
    requires Inv(s) && Enabled(s, step) && Coherent(s)
    ensures Coherent(After(s, step))
  {
    StepQuiet(s, step);
    hide Quiet, Ops, After, Coherent;
    QuietNow(s, Ops(s, step), After(s, step));
  }

  lemma MoveKeeps(s: Vm, move: Move)
    requires Inv(s) && Enabled(s, move.step) && Coherent(s)
    ensures Inv(Next(s, move)) && Coherent(Next(s, move))
  {
    StepInv(s, move.step);
    StepCoherent(s, move);
    hide Inv, Coherent, Enabled, Next, After;
    InvSame(After(s, move.step), Next(s, move));
  }

  // -------------------------------------------------------------------------
  // Runs
  // -------------------------------------------------------------------------

  ghost function Run(s: Vm, moves: seq<Move>): Vm
    decreases |moves|
  {
    if moves == [] then s else Run(Next(s, moves[0]), moves[1..])
  }

  ghost predicate AllEnabled(s: Vm, moves: seq<Move>)
    decreases |moves|
  {
    moves == [] || (Enabled(s, moves[0].step) && AllEnabled(Next(s, moves[0]), moves[1..]))
  }

  // Over every sequence of operations and user stores, with the processor filling its cache at any point
  // within them: the counts, the free list and the page-table trees agree, and after each operation the
  // translation cache holds nothing stale.
  lemma {:induction false} RunKeepsInvariant(s: Vm, moves: seq<Move>)
    requires Inv(s) && Coherent(s) && AllEnabled(s, moves)
    ensures Inv(Run(s, moves)) && Coherent(Run(s, moves))
    decreases |moves|
  {
    hide Inv, Coherent, Enabled, Next;
    if moves != [] {
      MoveKeeps(s, moves[0]);
      RunKeepsInvariant(Next(s, moves[0]), moves[1..]);
    }
  }

  // What the invariant says about page p at the end of a run, in terms of translations alone: a page
  // on the free list has count zero and no address space maps it; a page that is neither a directory
  // nor a page table is referenced exactly as often as it is mapped below UTOP.
  lemma RunAccounts(s: Vm, moves: seq<Move>, p: nat)
    requires Inv(s) && Coherent(s) && AllEnabled(s, moves)
    ensures var s' := Run(s, moves);
      && (p in s'.free ==> Ref(s', p) == 0 && MappingsOf(s', p) == {})
      && (IsData(s', p) ==> Ref(s', p) == |MappingsOf(s', p)|)
      && (p in s'.dirs || p in s'.tables || p in s'.ktables ==> Ref(s', p) == 1 && MappingsOf(s', p) == {})
  {
    RunKeepsInvariant(s, moves);
    AccountsOf(Run(s, moves), p);
  }

  lemma AccountsOf(s: Vm, p: nat)
    requires Inv(s)
    ensures p in s.free ==> Ref(s, p) == 0 && MappingsOf(s, p) == {}
    ensures IsData(s, p) ==> Ref(s, p) == |MappingsOf(s, p)|
    ensures p in s.dirs || p in s.tables || p in s.ktables ==> Ref(s, p) == 1 && MappingsOf(s, p) == {}
  {
    if IsData(s, p) {
      RefCountsMappings(s, p);
    } else {
      forall a | a in MappingsOf(s, p) ensures false {
        LeafInPool(s, a.0, a.1);
      }
    }
    if p in s.dirs {
      DirUnnamed(s, p);
    }
    hide MappingsOf;
  }
}
