/** How many free pages mem_init needs for its page tables. */
module BootCost {
  import opened Sets
  import opened VmState
  import opened VmInvariant
  import opened BootMap
  import opened RegionCost

  lemma OnePageTable(s: Vm, vpn: nat, page: nat, flags: nat)
    requires Booting(s) && KernelVpn(vpn)
    ensures var missing := Slot(s.kern, Pdx(vpn)) !in s.ents;
      var (s1, slot) := Walk(s, s.kern, vpn, true);
      && (slot.Some? <==> !missing || s.free != [])
      && (slot.Some? ==>
            var s2 := Mapped(s1, slot.value, page, flags);
            && Booting(s2) && s2.kern == s.kern
            && (missing ==> s.free != []) && s2.free == s.free[if missing then 1 else 0..]
            && TablesAdded(s, s2, s.kern, vpn, vpn + 1))
  {
    var (s1, slot) := Walk(s, s.kern, vpn, true);
    if slot.Some? {
      OnePage(s, vpn, page, flags);
      WalkKernel(s, vpn);
      KernNotTable(s1);
      hide Inv;
      var s2 := Mapped(s1, slot.value, page, flags);
      assert forall d: nat :: Slot(s.kern, d) in s2.ents <==> Slot(s.kern, d) in s1.ents;
      WalkHooks(s, vpn);
    }
  }

  lemma WalkHooks(s: Vm, vpn: nat)
    requires Booting(s) && Walk(s, s.kern, vpn, true).1.Some?
    ensures var s1 := Walk(s, s.kern, vpn, true).0;
      && TablesAdded(s, s1, s.kern, vpn, vpn + 1)
      && (Slot(s.kern, Pdx(vpn)) !in s.ents ==> s.free != [])
      && s1.free == s.free[if Slot(s.kern, Pdx(vpn)) in s.ents then 0 else 1..]
  {
    if s.free != [] {
      assert s.free[0] in s.free;
    }
  }

  // boot_map_region returns exactly when there is a page for each missing page table.
  lemma {:induction false} BootMapReturnsIff(s: Vm, vpn: nat, k: nat, page: nat, flags: nat)
    requires Booting(s) && forall v: nat :: vpn <= v < vpn + k ==> KernelVpn(v)
    ensures var r := BootMapRegion(s, vpn, k, page, flags);
      var missing := |Missing(s, s.kern, vpn, vpn + k)|;
      && (r.Some? <==> |s.free| >= missing)
      && (r.Some? ==> Booting(r.value) && r.value.kern == s.kern && r.value.free == s.free[missing..]
                      && TablesAdded(s, r.value, s.kern, vpn, vpn + k))
    decreases k
  {
    hide Booting, Walk, Mapped, KernelVpn, Missing, TablesAdded;
    if k == 0 {
      MissingNone(s, s.kern, vpn, vpn);
      NoTablesAdded(s, s.kern, vpn);
    } else {
      assert KernelVpn(vpn);
      OnePageTable(s, vpn, page, flags);
      var (s1, slot) := Walk(s, s.kern, vpn, true);
      if slot.Some? {
        var s2 := Mapped(s1, slot.value, page, flags);
        MissingStep(s, s2, s.kern, vpn, vpn + k);
        BootMapReturnsIff(s2, vpn + 1, k - 1, page + 1, flags);
        var r := BootMapRegion(s2, vpn + 1, k - 1, page + 1, flags);
        if r.Some? {
          TablesJoin(s, s2, r.value, s.kern, vpn, vpn + k);
        }
      } else {
        MissingFirst(s, s.kern, vpn, vpn + k);
      }
    }
  }

  lemma NoTablesAdded(s: Vm, dir: nat, lo: nat)
    ensures TablesAdded(s, s, dir, lo, lo)
  {}

  // The directory entries of kern_pgdir that have page tables, beside the self-map.
  ghost predicate Tabled(s: Vm, ds: set<nat>) {
    forall d: nat :: Slot(s.kern, d) in s.ents <==> d == UVPT_PDE || d in ds
  }

  lemma MissingAll(s: Vm, lo: nat, hi: nat, ds: set<nat>)
    requires Tabled(s, ds) && lo < hi && UVPT_PDE < Pdx(lo)
    requires forall d :: d in ds ==> d < Pdx(lo) || d > Pdx(hi - 1)
    ensures |Missing(s, s.kern, lo, hi)| == Pdx(hi - 1) - Pdx(lo) + 1
  {
    var all := Range(Pdx(lo), Pdx(hi - 1));
    SameCard(Missing(s, s.kern, lo, hi), all);
  }

  lemma SameCard(a: set<nat>, b: set<int>)
    requires forall d :: d in b <==> d in a
    ensures |a| == |b|
  {
    if a != {} {
      var x :| x in a;
      SameCard(a - {x}, b - {x});
    } else {
      assert forall d :: d in b ==> d in a;
      assert b == {};
    }
  }

  lemma MissingOne(s: Vm, lo: nat, hi: nat, ds: set<nat>)
    requires Tabled(s, ds) && lo < hi && Pdx(lo) == Pdx(hi - 1) != UVPT_PDE && Pdx(lo) !in ds
    ensures |Missing(s, s.kern, lo, hi)| == 1
  {
    assert Missing(s, s.kern, lo, hi) == {Pdx(lo)};
  }

  lemma AddTabled(s: Vm, s': Vm, lo: nat, hi: nat, ds: set<nat>, ds': set<nat>)
    requires Tabled(s, ds) && s'.kern == s.kern && TablesAdded(s, s', s.kern, lo, hi) && lo < hi
    requires forall d: nat :: d in ds' <==> d in ds || Pdx(lo) <= d <= Pdx(hi - 1)
    ensures Tabled(s', ds')
  {}

  // mem_init returns exactly when 67 pages are free: three page tables for UPAGES, UENVS and the stack,
  // and 64 for the memory at KERNBASE.
  lemma MemInitReturnsIff(s0: Vm, pages: nat, envs: nat, stack: nat)
    requires Booting(s0) && OnlySelfMap(s0)
    ensures var r := MemInit(s0, pages, envs, stack);
      && (r.Some? <==> |s0.free| >= 67)
      && (r.Some? ==> r.value.free == s0.free[67..])
  {
    hide Booting, BootMapRegion, Missing, TablesAdded, Tabled;
    OnlySelfTabled(s0);
    BootMapReturnsIff(s0, UPAGES_VPN, 1024, pages, USER_RO);
    MissingOne(s0, UPAGES_VPN, UPAGES_VPN + 1024, {});
    if MapPages(s0, pages).Some? {
      var s1 := MapPages(s0, pages).value;
      AddTabled(s0, s1, UPAGES_VPN, UPAGES_VPN + 1024, {}, {956});
      BootMapReturnsIff(s1, UENVS_VPN, 1024, envs, USER_RO);
      MissingOne(s1, UENVS_VPN, UENVS_VPN + 1024, {956});
      if MapEnvs(s1, envs).Some? {
        var s2 := MapEnvs(s1, envs).value;
        AddTabled(s1, s2, UENVS_VPN, UENVS_VPN + 1024, {956}, {955, 956});
        BootMapReturnsIff(s2, STACK_VPN, 8, stack, KERNEL_RW);
        MissingOne(s2, STACK_VPN, STACK_VPN + 8, {955, 956});
        if MapStack(s2, stack).Some? {
          var s3 := MapStack(s2, stack).value;
          AddTabled(s2, s3, STACK_VPN, STACK_VPN + 8, {955, 956}, {955, 956, 959});
          BootMapReturnsIff(s3, KERNBASE_VPN, 65536, 0, KERNEL_RW);
          MissingAll(s3, KERNBASE_VPN, KERNBASE_VPN + 65536, {955, 956, 959});
        }
      }
    }
  }

  lemma OnlySelfTabled(s: Vm)
    requires Booting(s) && OnlySelfMap(s)
    ensures Tabled(s, {})
  {}
}
