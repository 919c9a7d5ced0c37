/** From env_setup_vm over any region_alloc calls to env_free: the free pages come back, all but the
    pages that region_alloc lost because it ignored a failing page_insert. */
module Lifetime {
  import opened Wrappers
  import opened VmState
  import opened VmInvariant
  import opened AddressSpace
  import opened Translation
  import opened Teardown

  // Entries that hold references.
  ghost function LiveEnts(s: Vm): map<Slot, Ent> {
    map sl | sl in s.ents && Live(s, sl) :: s.ents[sl]
  }

  // ... and those that do not belong to dir's address space.
  ghost function Foreign(s: Vm, dir: nat): map<Slot, Ent> {
    map sl | sl in s.ents && Live(s, sl) && sl.frame != dir && sl.frame !in TablesOf(s, dir) :: s.ents[sl]
  }

  // Pages handed out by page_alloc that nothing refers to (yet, or any more).
  ghost function Held(s: Vm): set<nat> {
    set p | p in s.pool && Ref(s, p) == 0 && p !in s.free
  }

  // Only dir's own address space differs between s and s'.
  ghost predicate OnlyDir(s: Vm, s': Vm, dir: nat) {
    && s'.pool == s.pool && s'.kern == s.kern && s'.dirs == s.dirs && s'.ktables == s.ktables
    && |s'.refs| == |s.refs| && s'.cr3 == s.cr3
    && s'.tables - TablesOf(s', dir) == s.tables - TablesOf(s, dir)
    && Foreign(s', dir) == Foreign(s, dir)
  }

  lemma AllocOnlyDir(s: Vm, zero: bool, dir: nat)
    requires Inv(s) && dir in s.dirs
    ensures OnlyDir(s, PageAlloc(s, zero).0, dir)
  {
    if s.free != [] {
      var p, s' := s.free[0], PageAlloc(s, zero).0;
      assert p in s.free;
      assert p != dir && forall sl :: sl in s.ents && Live(s, sl) ==> sl.frame != p;
      hide Inv;
      assert TablesOf(s', dir) == TablesOf(s, dir) by { AllocTables(s, zero, dir); }
      hide TablesFrom;
      assert Foreign(s', dir) == Foreign(s, dir);
    }
  }

  lemma AllocTables(s: Vm, zero: bool, dir: nat)
    requires s.free != [] ==> s.free[0] != dir
    ensures TablesOf(PageAlloc(s, zero).0, dir) == TablesOf(s, dir)
  {
    var s' := PageAlloc(s, zero).0;
    assert forall sl: Slot :: sl.frame == dir ==>
          (sl in s.ents <==> sl in s'.ents) && (sl in s.ents ==> s'.ents[sl] == s.ents[sl]);
  }

  lemma NewTableOnlyDir(s: Vm, dir: nat, d: nat, p: nat)
    requires dir in s.dirs && dir !in s.tables && d < USER_PDES && Slot(dir, d) !in s.ents
    requires p !in s.tables && p != dir && forall sl :: sl in s.ents ==> sl.frame != p
    ensures OnlyDir(s, NewTable(s, dir, d, p), dir)
  {
    var s' := NewTable(s, dir, d, p);
    assert TablesOf(s', dir) == TablesOf(s, dir) + {p} by {
      assert Slot(dir, d) in s'.ents;
      assert forall sl :: sl in s.ents ==> sl in s'.ents && s'.ents[sl] == s.ents[sl];
    }
    hide TablesFrom;
    assert Foreign(s', dir) == Foreign(s, dir);
  }

  lemma WalkOnlyDir(s: Vm, dir: nat, vpn: nat)
    requires Inv(s) && dir in s.dirs && vpn < USER_VPNS
    ensures OnlyDir(s, Walked(s, dir, vpn), dir)
  {
    AllocOnlyDir(s, true, dir);
    if Slot(dir, Pdx(vpn)) !in s.ents && s.free != [] {
      AllocInv(s, true);
      assert s.free[0] in s.free;
      NewTableOnlyDir(PageAlloc(s, true).0, dir, Pdx(vpn), s.free[0]);
      hide Inv, NewTable, Foreign, TablesFrom;
    }
  }

  // Changing one entry of one of dir's own tables.
  lemma EntryOnlyDir(s: Vm, s': Vm, dir: nat, t: nat)
    requires dir !in s.tables && t in s.tables && t in TablesOf(s, dir)
    requires s'.pool == s.pool && s'.kern == s.kern && s'.dirs == s.dirs && s'.ktables == s.ktables
    requires s'.tables == s.tables && |s'.refs| == |s.refs| && s'.cr3 == s.cr3
    requires forall sl: Slot :: sl.frame != t ==>
          (sl in s'.ents <==> sl in s.ents) && (sl in s.ents ==> s'.ents[sl] == s.ents[sl])
    ensures OnlyDir(s, s', dir)
  {
    assert TablesOf(s', dir) == TablesOf(s, dir);
    hide TablesFrom;
    assert Foreign(s', dir) == Foreign(s, dir);
  }

  lemma LeafSlotOwn(s: Vm, pin: Option<nat>, dir: nat, vpn: nat)
    requires InvPinned(s, pin) && dir in Roots(s) && vpn < USER_VPNS && LeafSlot(s, dir, vpn).Some?
    ensures LeafSlot(s, dir, vpn).value.frame in TablesOf(s, dir)
    ensures LeafSlot(s, dir, vpn).value.frame in s.tables && dir !in s.tables
  {
    assert Slot(dir, Pdx(vpn)) in s.ents;
    PdeTarget(s, pin, dir, Pdx(vpn));
    RootsApart(s);
  }

  lemma InsertOnlyDir(s: Vm, dir: nat, p: nat, vpn: nat, flags: nat)
    requires CanInsert(s, dir, p, vpn) && dir in s.dirs
    ensures OnlyDir(s, Insert(s, dir, p, vpn, flags).0, dir)
  {
    hide CanInsert, Mapped, Inv, InvPinned, OnlyDir, Opened, Insert;
    var (s', ok) := Insert(s, dir, p, vpn, flags);
    InsertStages(s, dir, p, vpn, flags);
    OnlyDirRefl(s, dir);
    if ok {
      InsertWalk(s, dir, p, vpn);
      var s2, s3 := Pinned(s, dir, p, vpn), Opened(s, dir, p, vpn);
      assert OnlyDir(s, s2, dir) by {
        PinOnlyDir(Walked(s, dir, vpn), p, dir);
        OnlyDirTrans(s, Walked(s, dir, vpn), s2, dir);
      }
      OpenOnlyDir(s, dir, p, vpn);
      MappedOnlyDir(s3, Some(p), dir, vpn, p, flags);
      OnlyDirTrans(s, s2, s3, dir);
      OnlyDirTrans(s, s3, s', dir);
    }
  }

  lemma InsertWalk(s: Vm, dir: nat, p: nat, vpn: nat)
    requires CanInsert(s, dir, p, vpn) && dir in s.dirs
    ensures OnlyDir(s, Walked(s, dir, vpn), dir) && Roots(Walked(s, dir, vpn)) == Roots(s)
    ensures dir in Roots(s) && vpn < USER_VPNS
  {
    WalkOnlyDir(s, dir, vpn);
  }

  lemma OnlyDirRefl(s: Vm, dir: nat)
    ensures OnlyDir(s, s, dir)
  {}

  lemma OnlyDirTrans(a: Vm, b: Vm, c: Vm, dir: nat)
    requires OnlyDir(a, b, dir) && OnlyDir(b, c, dir)
    ensures OnlyDir(a, c, dir)
  {}

  lemma PinOnlyDir(s: Vm, p: nat, dir: nat)
    ensures OnlyDir(s, AddRef(s, p, 1), dir)
  {
    var s' := AddRef(s, p, 1);
    assert TablesOf(s', dir) == TablesOf(s, dir);
    assert forall sl :: Live(s', sl) <==> Live(s, sl);
  }

  lemma OpenOnlyDir(s: Vm, dir: nat, p: nat, vpn: nat)
    requires InvPinned(Pinned(s, dir, p, vpn), Some(p)) && dir in Roots(Pinned(s, dir, p, vpn)) && vpn < USER_VPNS
    ensures OnlyDir(Pinned(s, dir, p, vpn), Opened(s, dir, p, vpn), dir)
    ensures Roots(Opened(s, dir, p, vpn)) == Roots(Pinned(s, dir, p, vpn))
  {
    var s2 := Pinned(s, dir, p, vpn);
    if Lookup(s2, dir, vpn).Some? {
      LeafSlotOwn(s2, Some(p), dir, vpn);
      hide InvPinned, OnlyDir, Pinned;
      EntryOnlyDir(s2, Remove(s2, dir, vpn), dir, LeafSlot(s2, dir, vpn).value.frame);
    } else {
      OnlyDirRefl(s2, dir);
    }
  }

  lemma MappedOnlyDir(s: Vm, pin: Option<nat>, dir: nat, vpn: nat, p: nat, flags: nat)
    requires InvPinned(s, pin) && dir in Roots(s) && vpn < USER_VPNS && LeafSlot(s, dir, vpn).Some?
    ensures OnlyDir(s, Mapped(s, LeafSlot(s, dir, vpn).value, p, flags), dir)
  {
    LeafSlotOwn(s, pin, dir, vpn);
    hide InvPinned, OnlyDir;
    var sl := LeafSlot(s, dir, vpn).value;
    EntryOnlyDir(s, Mapped(s, sl, p, flags), dir, sl.frame);
  }

  // -------------------------------------------------------------------------
  // region_alloc
  // -------------------------------------------------------------------------

  lemma AllocHeld(s: Vm, zero: bool)
    requires Inv(s)
    ensures var (s', r) := PageAlloc(s, zero);
      Held(s') == Held(s) + if r.Some? then {r.value} else {}
    ensures s.free != [] ==> s.free[0] !in Held(s)
  {
    if s.free != [] {
      AllocFree(s, zero);
      assert s.free[0] in s.free;
      assert s.free == [s.free[0]] + s.free[1..];
      hide Counts, Layered, KernelHalf;
    }
  }

  lemma InsertHeld(s: Vm, dir: nat, p: nat, vpn: nat, flags: nat)
    requires CanInsert(s, dir, p, vpn) && dir in s.dirs
    ensures var (s', ok) := Insert(s, dir, p, vpn, flags); Held(s') == if ok then Held(s) - {p} else Held(s)
  {
    InsertStages(s, dir, p, vpn, flags);
    InsertOnlyDir(s, dir, p, vpn, flags);
    var (s', ok) := Insert(s, dir, p, vpn, flags);
    RefNonNegative(s, None);
    if ok {
      InsertCounts(s, dir, p, vpn, flags);
      MappedIsReferenced(s, dir, vpn);
      LeafInPool(s, dir, vpn);
      CountedHeld(s, s', dir, p, vpn);
    }
  }

  lemma CountedHeld(s: Vm, s': Vm, dir: nat, p: nat, vpn: nat)
    requires InsertCounted(s, s', dir, p, vpn) && s'.pool == s.pool
    requires forall q :: q in s.pool ==> 0 <= Ref(s, q)
    requires Leaf(s, dir, vpn).Some? ==> Ref(s, Leaf(s, dir, vpn).value.page) > 0
    requires p in s.pool && p !in s.free
    ensures Held(s') == Held(s) - {p}
  {
    hide Leaf;
    if Slot(dir, Pdx(vpn)) !in s.ents {
      assert s.free == [s.free[0]] + s.free[1..];
    }
  }

  // The pages region_alloc takes from the free list but fails to map.
  ghost function RegionLeaks(s: Vm, dir: nat, vpn: nat, end: nat): set<nat>
    decreases end - vpn
  {
    if vpn >= end || s.free == [] then {}
    else
      var s1 := PageAlloc(s, false).0;
      var (s2, ok) := Insert(s1, dir, s.free[0], vpn, TABLE_FLAGS);
      RegionLeaks(s2, dir, vpn + 1, end) + if ok then {} else {s.free[0]}
  }

  // What region_alloc does for one page.
  lemma RegionStep(s: Vm, dir: nat, vpn: nat)
    requires Inv(s) && dir in s.dirs && vpn < USER_VPNS && s.free != []
    ensures var s1 := PageAlloc(s, false).0;
      var (s2, ok) := Insert(s1, dir, s.free[0], vpn, TABLE_FLAGS);
      && CanInsert(s1, dir, s.free[0], vpn) && dir in s1.dirs
      && Inv(s2) && OnlyDir(s, s2, dir)
      && Held(s2) == Held(s) + if ok then {} else {s.free[0]}
  {
    var p, s1 := s.free[0], PageAlloc(s, false).0;
    AllocInv(s, false);
    AllocOnlyDir(s, false, dir);
    AllocHeld(s, false);
    hide Inv, OnlyDir, Insert;
    assert s1.dirs == s.dirs;
    InsertInv(s1, dir, p, vpn, TABLE_FLAGS);
    InsertOnlyDir(s1, dir, p, vpn, TABLE_FLAGS);
    InsertHeld(s1, dir, p, vpn, TABLE_FLAGS);
    OnlyDirTrans(s, s1, Insert(s1, dir, p, vpn, TABLE_FLAGS).0, dir);
  }

  lemma OnlyDirDirs(s: Vm, s': Vm, dir: nat)
    requires OnlyDir(s, s', dir)
    ensures s'.dirs == s.dirs
  {}

  lemma {:induction false} RegionEffect(s: Vm, dir: nat, vpn: nat, end: nat)
    requires Inv(s) && dir in s.dirs && end <= USER_VPNS && RegionAlloc(s, dir, vpn, end).Some?
    ensures var s' := RegionAlloc(s, dir, vpn, end).value;
      && Inv(s') && OnlyDir(s, s', dir)
      && Held(s') == Held(s) + RegionLeaks(s, dir, vpn, end)
    decreases end - vpn
  {
    hide Inv, OnlyDir, Insert, Held;
    if vpn >= end {
      OnlyDirRefl(s, dir);
    } else {
      RegionStep(s, dir, vpn);
      var s1 := PageAlloc(s, false).0;
      var s2 := Insert(s1, dir, s.free[0], vpn, TABLE_FLAGS).0;
      OnlyDirDirs(s, s2, dir);
      RegionEffect(s2, dir, vpn + 1, end);
      OnlyDirTrans(s, s2, RegionAlloc(s2, dir, vpn + 1, end).value, dir);
    }
  }

  // Outside [lo, hi) of dir nothing is remapped; inside, everything is mapped writable for the user
  // from lo on, except the last page when it leaked.
  ghost predicate RegionMapped(s: Vm, s': Vm, dir: nat, lo: nat, hi: nat, leaked: bool) {
    && Roots(s') == Roots(s)
    && (forall d, v: nat :: d in Roots(s) && v < NVPNS && Pdx(v) != UVPT_PDE && !(d == dir && lo <= v < hi) ==>
          Leaf(s', d, v) == Leaf(s, d, v))
    && (forall v: nat :: lo <= v < hi && !(leaked && v == hi - 1) ==>
          Leaf(s', dir, v).Some? && Leaf(s', dir, v).value.flags == TABLE_FLAGS)
    && (leaked ==> lo < hi && Leaf(s', dir, hi - 1) == None && s'.free == [])
  }

  // region_alloc, when it does not panic, maps the whole region; the only thing that can be missing is
  // the last page, exactly when its page_insert failed, and then memory is exhausted.
  lemma {:induction false} RegionMaps(s: Vm, dir: nat, vpn: nat, end: nat)
    requires Inv(s) && dir in s.dirs && end <= USER_VPNS && RegionAlloc(s, dir, vpn, end).Some?
    ensures RegionMapped(s, RegionAlloc(s, dir, vpn, end).value, dir, vpn, end, RegionLeaks(s, dir, vpn, end) != {})
    decreases end - vpn
  {
    hide Inv, OnlyDir, Insert, Leaf, CanInsert, RegionMapped, ClearFrame, Held;
    if vpn >= end {
      RegionMapsNone(s, dir, vpn, end);
    } else {
      RegionStep(s, dir, vpn);
      var p, s1 := s.free[0], PageAlloc(s, false).0;
      var (s2, ok) := Insert(s1, dir, p, vpn, TABLE_FLAGS);
      OnlyDirDirs(s, s2, dir);
      AllocLeaves(s);
      InsertUpdatesMap(s1, dir, p, vpn, TABLE_FLAGS);
      if ok {
        RegionMaps(s2, dir, vpn + 1, end);
        RegionMapsJoin(s, s1, s2, RegionAlloc(s, dir, vpn, end).value, dir, p, vpn, end,
                       RegionLeaks(s, dir, vpn, end) != {});
      } else {
        assert s2.free == [];
        assert vpn + 1 == end;
        MissingTable(s, s1, dir, vpn);
      }
    }
  }

  lemma RegionMapsNone(s: Vm, dir: nat, vpn: nat, end: nat)
    requires vpn >= end
    ensures RegionMapped(s, s, dir, vpn, end, false)
  {}

  lemma AllocLeaves(s: Vm)
    requires Inv(s)
    ensures MapUpdated(s, PageAlloc(s, false).0, s.kern, USER_VPNS, Leaf(s, s.kern, USER_VPNS))
  {
    var s1 := PageAlloc(s, false).0;
    forall d, v: nat | d in Roots(s) && v < NVPNS && Pdx(v) != UVPT_PDE ensures Leaf(s1, d, v) == Leaf(s, d, v) {
      AllocLeaf(s, false, d, v);
    }
  }

  lemma MissingTable(s: Vm, s1: Vm, dir: nat, vpn: nat)
    requires MapUpdated(s, s1, s.kern, USER_VPNS, Leaf(s, s.kern, USER_VPNS)) && dir in Roots(s)
    requires Slot(dir, Pdx(vpn)) !in s1.ents && s1.free == [] && vpn < USER_VPNS
    ensures RegionMapped(s, s1, dir, vpn, vpn + 1, true)
  {
    assert Leaf(s1, dir, vpn) == None;
    hide Leaf;
  }

  lemma RegionMapsJoin(s: Vm, s1: Vm, s2: Vm, s3: Vm, dir: nat, p: nat, vpn: nat, end: nat, leaked: bool)
    requires MapUpdated(s, s1, s.kern, USER_VPNS, Leaf(s, s.kern, USER_VPNS)) && dir in Roots(s)
    requires MapUpdated(s1, s2, dir, vpn, Some(Ent(p, TABLE_FLAGS)))
    requires vpn < end <= USER_VPNS && RegionMapped(s2, s3, dir, vpn + 1, end, leaked)
    ensures RegionMapped(s, s3, dir, vpn, end, leaked)
  {
    hide Leaf;
  }

  // Any list of region_alloc calls, as half-open ranges of page numbers.
  function Regions(s: Vm, dir: nat, rs: seq<(nat, nat)>): Option<Vm>
    decreases |rs|
  {
    if rs == [] then Some(s)
    else match RegionAlloc(s, dir, rs[0].0, rs[0].1)
      case None => None
      case Some(s1) => Regions(s1, dir, rs[1..])
  }

  ghost function Leaks(s: Vm, dir: nat, rs: seq<(nat, nat)>): set<nat>
    decreases |rs|
  {
    if rs == [] then {}
    else
      var now := RegionLeaks(s, dir, rs[0].0, rs[0].1);
      match RegionAlloc(s, dir, rs[0].0, rs[0].1)
      case None => now
      case Some(s1) => now + Leaks(s1, dir, rs[1..])
  }

  lemma {:induction false} RegionsEffect(s: Vm, dir: nat, rs: seq<(nat, nat)>)
    requires Inv(s) && dir in s.dirs && Regions(s, dir, rs).Some?
    requires forall r :: r in rs ==> r.1 <= USER_VPNS
    ensures var s' := Regions(s, dir, rs).value;
      && Inv(s') && OnlyDir(s, s', dir)
      && Held(s') == Held(s) + Leaks(s, dir, rs)
    decreases |rs|
  {
    hide Inv, OnlyDir, Held;
    if rs == [] {
      OnlyDirRefl(s, dir);
    } else {
      assert rs[0] in rs;
      var s1 := RegionAlloc(s, dir, rs[0].0, rs[0].1).value;
      RegionEffect(s, dir, rs[0].0, rs[0].1);
      OnlyDirDirs(s, s1, dir);
      RegionsEffect(s1, dir, rs[1..]);
      OnlyDirTrans(s, s1, Regions(s1, dir, rs[1..]).value, dir);
    }
  }

  // A leaked page was on the free list before.
  lemma {:induction false} RegionLeaked(s: Vm, dir: nat, vpn: nat, end: nat)
    requires Inv(s) && dir in s.dirs && end <= USER_VPNS
    ensures RegionLeaks(s, dir, vpn, end) !! Held(s) && RegionLeaks(s, dir, vpn, end) <= s.pool
    decreases end - vpn
  {
    hide Inv, OnlyDir, Insert, Held;
    if vpn < end && s.free != [] {
      RegionStep(s, dir, vpn);
      AllocHeld(s, false);
      var s2 := Insert(PageAlloc(s, false).0, dir, s.free[0], vpn, TABLE_FLAGS).0;
      OnlyDirPool(s, s2, dir);
      FreeInPool(s);
      RegionLeaked(s2, dir, vpn + 1, end);
    }
  }

  lemma OnlyDirPool(s: Vm, s': Vm, dir: nat)
    requires OnlyDir(s, s', dir)
    ensures s'.dirs == s.dirs && s'.pool == s.pool
  {}

  lemma FreeInPool(s: Vm)
    requires Inv(s) && s.free != []
    ensures s.free[0] in s.pool
  {
    assert s.free[0] in s.free;
  }

  lemma {:induction false} Leaked(s: Vm, dir: nat, rs: seq<(nat, nat)>)
    requires Inv(s) && dir in s.dirs && Regions(s, dir, rs).Some?
    requires forall r :: r in rs ==> r.1 <= USER_VPNS
    ensures Leaks(s, dir, rs) !! Held(s) && Leaks(s, dir, rs) <= s.pool
    decreases |rs|
  {
    hide Inv, OnlyDir, Held;
    if rs != [] {
      assert rs[0] in rs;
      var s1 := RegionAlloc(s, dir, rs[0].0, rs[0].1).value;
      RegionEffect(s, dir, rs[0].0, rs[0].1);
      RegionLeaked(s, dir, rs[0].0, rs[0].1);
      OnlyDirPool(s, s1, dir);
      Leaked(s1, dir, rs[1..]);
    }
  }

  // -------------------------------------------------------------------------
  // The whole life
  // -------------------------------------------------------------------------

  lemma RefSlotsOfLive(s: Vm, p: nat)
    ensures RefSlots(s, p) == set sl | sl in LiveEnts(s) && LiveEnts(s)[sl].page == p
  {}

  lemma SetupAdds(s: Vm)
    requires Inv(s) && KernUserEmpty(s) && s.free != []
    ensures Added(s, EnvSetup(s).0, s.free[0])
  {
    var p := s.free[0];
    var s1 := PageAlloc(s, true).0;
    assert p in s.free && EnvSetup(s).0 == Installed(s1, p);
    AllocInv(s, true);
    AllocHeld(s, true);
    AllocLive(s);
    InstalledAdds(s1, p);
    hide Inv, LiveEnts, Foreign, TablesFrom;
  }

  // s' is s with a new directory p whose user half is empty.
  ghost predicate Added(s: Vm, s': Vm, p: nat) {
    && s'.pool == s.pool && s'.kern == s.kern && s'.tables == s.tables && s'.cr3 == s.cr3
    && s'.dirs == s.dirs + {p}
    && Foreign(s', p) == LiveEnts(s) && TablesOf(s', p) == {}
    && Held(s') == Held(s)
  }

  lemma AllocLive(s: Vm)
    requires Inv(s) && s.free != []
    ensures LiveEnts(PageAlloc(s, true).0) == LiveEnts(s)
  {
    assert s.free[0] in s.free;
  }

  lemma InstalledAdds(s: Vm, p: nat)
    requires Inv(s) && Blank(s, p) && KernUserEmpty(s)
    ensures var s' := Installed(s, p);
      Foreign(s', p) == LiveEnts(s) && TablesOf(s', p) == {} && Held(s') == Held(s) - {p}
  {
    InstalledEnts(s, p);
    SetupHeld(s, p);
    InstalledForeign(s, p);
    hide Inv, Installed, CopyFrame, Held;
  }

  lemma InstalledForeign(s: Vm, p: nat)
    requires p != s.kern && p !in s.dirs && p !in s.tables
    requires var s' := Installed(s, p);
      && (forall sl: Slot :: sl.frame != p ==>
          (sl in s'.ents <==> sl in s.ents) && (sl in s.ents ==> s'.ents[sl] == s.ents[sl]))
      && (forall sl :: sl in s'.ents && sl.frame == p ==> USER_PDES <= sl.idx < NPTENTRIES)
      && (forall sl :: sl in s.ents ==> sl.frame != p)
    ensures Foreign(Installed(s, p), p) == LiveEnts(s) && TablesOf(Installed(s, p), p) == {}
  {
    hide CopyFrame;
  }

  lemma SetupHeld(s: Vm, p: nat)
    requires Ref(s, p) == 0 && p < |s.refs|
    ensures Held(Installed(s, p)) == Held(s) - {p}
  {}

  lemma FreeTakes(s: Vm, dir: nat, current: bool)
    requires Inv(s) && CanFree(s, dir, current)
    ensures var s' := EnvFree(s, dir, current);
      && Inv(s') && s'.pool == s.pool && s'.dirs == s.dirs - {dir} && s'.tables == s.tables - TablesOf(s, dir)
      && LiveEnts(s') == Foreign(s, dir) && Held(s') == Held(s)
  {
    EnvFreeEffect(s, dir, current);
    TablesOfAreTables(s, dir);
    RootsApart(s);
    RefNonNegative(s, None);
    RefNonNegative(EnvFree(s, dir, current), None);
    assert Roles(s);
    hide Inv, EnvFree, Layered, KernelHalf, Counts, FreeList, TablesFrom;
    TornLive(s, EnvFree(s, dir, current), dir);
  }

  lemma TornLive(s: Vm, s': Vm, dir: nat)
    requires Roles(s) && dir in s.dirs && TablesOf(s, dir) <= s.tables && s'.kern == s.kern
    requires s'.ents == Torn(s, dir, 0) && s'.tables == s.tables - TablesOf(s, dir) && s'.dirs == s.dirs - {dir}
    ensures LiveEnts(s') == Foreign(s, dir)
  {
    hide TablesFrom;
  }

  // Counts and the free list are a function of the live entries, the directories and the held pages.
  lemma SameAccounts(s: Vm, s': Vm)
    requires Inv(s) && Inv(s') && s'.pool == s.pool && s'.dirs == s.dirs && LiveEnts(s') == LiveEnts(s)
    ensures forall p :: p in s.pool ==> Ref(s', p) == Ref(s, p)
    ensures forall p :: p in s'.free <==> p in s.pool && Ref(s, p) == 0 && p !in Held(s')
    ensures forall p :: p in s.free <==> p in s.pool && Ref(s, p) == 0 && p !in Held(s)
  {
    forall p | p in s.pool ensures Ref(s', p) == Ref(s, p) {
      RefSlotsOfLive(s, p);
      RefSlotsOfLive(s', p);
      Accounts(s, p);
      Accounts(s', p);
    }
    FreeAreUnheld(s);
    FreeAreUnheld(s');
    hide Inv;
  }

  lemma FreeAreUnheld(s: Vm)
    requires Inv(s)
    ensures forall p :: p in s.free <==> p in s.pool && Ref(s, p) == 0 && p !in Held(s)
  {}

  ghost predicate Lived(s0: Vm, rs: seq<(nat, nat)>, s3: Vm, current: bool) {
    && s0.free != []
    && Regions(EnvSetup(s0).0, s0.free[0], rs).Some?
    && var s2 := Regions(EnvSetup(s0).0, s0.free[0], rs).value;
       s3 == EnvFree(s2, s0.free[0], current)
  }

  // An environment's whole memory life: afterwards every reference count, every live table entry and
  // every directory is as before, and so is the set of free pages, short of exactly the pages whose
  // page_insert failed inside region_alloc.
  lemma LifetimeRoundTrip(s0: Vm, rs: seq<(nat, nat)>, s3: Vm, current: bool)
    requires Inv(s0) && KernUserEmpty(s0) && Lived(s0, rs, s3, current)
    requires forall r :: r in rs ==> r.1 <= USER_VPNS
    ensures var leaks := Leaks(EnvSetup(s0).0, s0.free[0], rs);
      && Inv(s3) && s3.dirs == s0.dirs && s3.tables == s0.tables && LiveEnts(s3) == LiveEnts(s0)
      && (forall p :: p in s0.pool ==> Ref(s3, p) == Ref(s0, p))
      && (forall p :: p in s3.free <==> p in s0.free && p !in leaks)
      && (forall p :: p in leaks ==> p in s0.free)
  {
    var p := s0.free[0];
    var s1 := EnvSetup(s0).0;
    var s2 := Regions(s1, p, rs).value;
    EnvSetupInv(s0);
    SetupAdds(s0);
    RegionsEffect(s1, p, rs);
    SetupFrame(s0, s1, s2, p, current);
    FreeTakes(s2, p, current);
    Leaked(s1, p, rs);
    RoundTripEnds(s0, s1, s2, s3, p, Leaks(s1, p, rs));
  }

  lemma SetupFrame(s0: Vm, s1: Vm, s2: Vm, p: nat, current: bool)
    requires Inv(s0) && p in s0.free && Added(s0, s1, p) && OnlyDir(s1, s2, p)
    ensures CanFree(s2, p, current) && s0.dirs == s2.dirs - {p}
  {}

  lemma RoundTripEnds(s0: Vm, s1: Vm, s2: Vm, s3: Vm, p: nat, leaks: set<nat>)
    requires Inv(s0) && Inv(s3) && Added(s0, s1, p) && OnlyDir(s1, s2, p)
    requires s3.pool == s2.pool && s3.dirs == s2.dirs - {p} && s3.tables == s2.tables - TablesOf(s2, p)
    requires LiveEnts(s3) == Foreign(s2, p) && Held(s3) == Held(s2) == Held(s1) + leaks
    requires s0.dirs == s2.dirs - {p}
    requires leaks !! Held(s1) && leaks <= s0.pool
    ensures LiveEnts(s3) == LiveEnts(s0) && s3.tables == s0.tables
    ensures forall q :: q in s0.pool ==> Ref(s3, q) == Ref(s0, q)
    ensures forall q :: q in s3.free <==> q in s0.free && q !in leaks
    ensures forall q :: q in leaks ==> q in s0.free
  {
    SameAccounts(s0, s3);
    forall q | q in leaks ensures Ref(s0, q) == 0 {
      assert q in Held(s3);
    }
    hide Inv, LiveEnts, Foreign, Held, TablesFrom;
  }
}
