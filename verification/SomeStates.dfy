/** States the kernel can be in, to show that what the theorems speak of occurs. */
module SomeStates {
  import opened VmState
  import opened VmInvariant
  import opened AddressSpace
  import opened Translation
  import opened Lifetime
  import opened Runs
  import opened BootMap
  import opened BootMemory
  import opened BootCost
  import opened RegionCost
  import opened Isolation

  // Page 0 as kern_pgdir, and n free pages.
  ghost function Start(n: nat): Vm {
    var free := seq(n, i => i + 1);
    Vm(seq(n + 1, _ => 0), free, map[Slot(0, UVPT_PDE) := Ent(0, SELF_FLAGS)], 0, map[],
       set p | p in free, 0, {}, {}, {})
  }

  lemma StartBooted(n: nat)
    ensures Booted(Start(n))
  {
    assert Slot(0, UVPT_PDE) in Start(n).ents;
  }

  // A state after boot with one environment, that has no page table yet, and n pages left.
  lemma SomeKernel(n: nat) returns (s: Vm, dir: nat)
    ensures Kernel(s) && dir in s.dirs && |s.free| == n && forall d: nat :: d < USER_PDES ==> Slot(dir, d) !in s.ents
  {
    var s0 := Start(n + 68);
    StartBooted(n + 68);
    BootedInv(s0);
    MemInitReturnsIff(s0, 0, 0, 0);
    MemInitChecks(s0, 0, 0, 0, 0, 0, 0);
    MemInitShaped(s0, 0, 0, 0);
    var s1 := MemInit(s0, 0, 0, 0).value;
    hide MemInit, Inv, Shaped, CheckKernPgdir, KernUserEmpty, Booted, OnlySelfMap;
    BootingIsInv(s1);
    s, dir := EnvSetup(s1).0, s1.free[0];
    SetupFree(s1);
    EnvSetupInv(s1);
    SetupKeeps(s1);
    ShapeKept(s1, s);
    SetupKern(s1);
    SetupBare(s1);
  }

  // One with the first k page tables.
  lemma {:induction false} SomeTables(n: nat, k: nat) returns (s: Vm, dir: nat)
    requires k <= USER_PDES
    ensures Kernel(s) && dir in s.dirs && |s.free| >= n && forall d: nat :: d < k ==> Slot(dir, d) in s.ents
    decreases k
  {
    hide Kernel;
    if k == 0 {
      s, dir := SomeKernel(n);
    } else {
      var s1;
      s1, dir := SomeTables(n + 1, k - 1);
      s := OneMoreTable(s1, dir, k - 1);
    }
  }

  lemma OneMoreTable(s: Vm, dir: nat, d: nat) returns (s': Vm)
    requires Kernel(s) && dir in s.dirs && s.free != [] && d < USER_PDES
    ensures Kernel(s') && dir in s'.dirs && |s'.free| >= |s.free| - 1
    ensures Slot(dir, d) in s'.ents && forall i: nat :: Slot(dir, i) in s.ents ==> Slot(dir, i) in s'.ents
  {
    var vpn := d * 1024;
    assert Pdx(vpn) == d;
    StepKernel(s, WalkCreate(dir, vpn));
    WalkedRoots(s, dir, vpn);
    s' := Walked(s, dir, vpn);
    WalkTables(s, dir, vpn);
    hide Kernel;
  }

  lemma SetupBare(s: Vm)
    requires Inv(s) && KernUserEmpty(s) && s.free != []
    ensures forall d: nat :: d < USER_PDES ==> Slot(s.free[0], d) !in EnvSetup(s).0.ents
  {
    SetupAdds(s);
    TablesNamed(EnvSetup(s).0, s.free[0]);
    hide Inv, EnvSetup;
  }

  lemma HeadIsData(s: Vm)
    requires Inv(s) && s.free != []
    ensures var s1 := PageAlloc(s, false).0; Inv(s1) && IsData(s1, s.free[0]) && s.free[0] !in s1.free
  {
    AllocInv(s, false);
  }

  // A state in which region_alloc loses a page, for every address.
  lemma SomeLoss(v: nat) returns (s: Vm, dir: nat)
    requires v < USER_VPNS
    ensures Kernel(s) && dir in s.dirs && s.free != [] && RegionAlloc(s, dir, v, v + 1).Some?
    ensures RegionLeaks(s, dir, v, v + 1) == {s.free[0]}
  {
    s, dir := SomeKernel(1);
    hide Shaped, KernUserEmpty, RegionAlloc, RegionLeaks;
    LosesThePage(s, dir, v);
  }
}
