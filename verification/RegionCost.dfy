/** How many free pages are enough for region_alloc, known before the call; RegionExact says how many are
    necessary. */
module RegionCost {
  import opened Wrappers
  import opened Sets
  import opened VmState
  import opened VmInvariant
  import opened AddressSpace
  import opened Translation
  import opened Lifetime

  // The directory entries of [lo, hi) that have no page table yet.
  ghost function Missing(s: Vm, dir: nat, lo: nat, hi: nat): set<nat> {
    if lo >= hi then {} else set d | Pdx(lo) <= d <= Pdx(hi - 1) && Slot(dir, d) !in s.ents
  }

  // A page for each page of the region and one for each missing table.
  ghost function Need(s: Vm, dir: nat, lo: nat, hi: nat): nat {
    (if lo < hi then hi - lo else 0) + |Missing(s, dir, lo, hi)|
  }

  // dir's tables in s' are those of s and those of [lo, hi).
  ghost predicate TablesAdded(s: Vm, s': Vm, dir: nat, lo: nat, hi: nat) {
    forall d: nat :: Slot(dir, d) in s'.ents <==> Slot(dir, d) in s.ents || (lo < hi && Pdx(lo) <= d <= Pdx(hi - 1))
  }

  // -------------------------------------------------------------------------
  // One page
  // -------------------------------------------------------------------------

  lemma InsertTables(s: Vm, dir: nat, p: nat, vpn: nat, flags: nat)
    requires CanInsert(s, dir, p, vpn) && dir in s.dirs && Insert(s, dir, p, vpn, flags).1
    ensures TablesAdded(s, Insert(s, dir, p, vpn, flags).0, dir, vpn, vpn + 1)
  {
    hide CanInsert, Inv, InvPinned, Walk, Lookup, Remove, Insert;
    InsertStages(s, dir, p, vpn, flags);
    var s1, s2, s3 := Walked(s, dir, vpn), Pinned(s, dir, p, vpn), Opened(s, dir, p, vpn);
    WalkedTables(s, dir, p, vpn, flags);
    OpenedRoots(s, dir, p, vpn);
    LeafSlotOwn(s3, Some(p), dir, vpn);
    OpenedTables(s2, Some(p), dir, vpn);
    assert s2.ents == s1.ents;
  }

  lemma WalkedTables(s: Vm, dir: nat, p: nat, vpn: nat, flags: nat)
    requires CanInsert(s, dir, p, vpn) && dir in s.dirs && Insert(s, dir, p, vpn, flags).1
    ensures TablesAdded(s, Walked(s, dir, vpn), dir, vpn, vpn + 1)
  {
    hide TablesAdded, Inv;
    assert Walk(s, dir, vpn, true).1.Some?;
    WalkTables(s, dir, vpn);
  }

  lemma OpenedRoots(s: Vm, dir: nat, p: nat, vpn: nat)
    requires CanInsert(s, dir, p, vpn)
    ensures dir in Roots(Opened(s, dir, p, vpn)) && dir in Roots(Pinned(s, dir, p, vpn)) && vpn < USER_VPNS
  {
    hide Inv;
    WalkedRoots(s, dir, vpn);
  }

  lemma OpenedTables(s: Vm, pin: Option<nat>, dir: nat, vpn: nat)
    requires InvPinned(s, pin) && dir in Roots(s) && vpn < USER_VPNS
    ensures Lookup(s, dir, vpn).Some? ==>
              forall d: nat :: Slot(dir, d) in Remove(s, dir, vpn).ents <==> Slot(dir, d) in s.ents
  {
    if Lookup(s, dir, vpn).Some? {
      LeafSlotOwn(s, pin, dir, vpn);
    }
  }

  lemma WalkTables(s: Vm, dir: nat, vpn: nat)
    requires Inv(s) && dir in s.dirs && Walk(s, dir, vpn, true).1.Some?
    ensures TablesAdded(s, Walked(s, dir, vpn), dir, vpn, vpn + 1)
  {
    if s.free != [] {
      assert s.free[0] in s.free;
    }
  }

  // The page mapped at vpn is referenced from there only.
  ghost predicate SoleMapping(s: Vm, dir: nat, vpn: nat) {
    Leaf(s, dir, vpn).Some? && Ref(s, Leaf(s, dir, vpn).value.page) == 1
  }

  // What region_alloc's round for page vpn takes from the free list.
  lemma RoundTakes(s: Vm, dir: nat, vpn: nat)
    requires Inv(s) && dir in s.dirs && vpn < USER_VPNS && s.free != []
    ensures var s1 := PageAlloc(s, false).0;
      var (s2, ok) := Insert(s1, dir, s.free[0], vpn, TABLE_FLAGS);
      var missing := Slot(dir, Pdx(vpn)) !in s.ents;
      && Inv(s2) && dir in s2.dirs
      && (ok <==> !missing || |s.free| >= 2)
      && (!ok ==> s2.free == [])
      && (ok ==> TablesAdded(s, s2, dir, vpn, vpn + 1))
      && (ok ==> |s2.free| == |s.free| - 1 - (if missing then 1 else 0) + if SoleMapping(s, dir, vpn) then 1 else 0)
      && (missing ==> Leaf(s, dir, vpn) == None)
  {
    hide CanInsert, Inv, Insert, OnlyDir, Held, Leaf, MapUpdated, TablesAdded;
    var s1 := PageAlloc(s, false).0;
    RegionStep(s, dir, vpn);
    AllocSameLeaf(s, dir, vpn);
    var p := s.free[0];
    var (s2, ok) := Insert(s1, dir, p, vpn, TABLE_FLAGS);
    OnlyDirDirs(s, s2, dir);
    InsertUpdatesMap(s1, dir, p, vpn, TABLE_FLAGS);
    TablesSame(s, s1, s2, dir, vpn);
    NoTableNoLeaf(s, dir, vpn);
    if ok {
      InsertCounts(s1, dir, p, vpn, TABLE_FLAGS);
      InsertTables(s1, dir, p, vpn, TABLE_FLAGS);
      FreshPage(s, dir, vpn);
      FreeLength(s, s1, s2, dir, p, vpn);
    }
  }

  // The page taken from the list is not the one mapped.
  lemma FreshPage(s: Vm, dir: nat, vpn: nat)
    requires Inv(s) && dir in Roots(s) && vpn < USER_VPNS && s.free != []
    ensures Leaf(s, dir, vpn).Some? ==> Leaf(s, dir, vpn).value.page != s.free[0]
  {
    MappedIsReferenced(s, dir, vpn);
    assert s.free[0] in s.free;
    hide Layered, KernelHalf, Counts, Roles;
  }

  lemma NoTableNoLeaf(s: Vm, dir: nat, vpn: nat)
    ensures Slot(dir, Pdx(vpn)) !in s.ents ==> Leaf(s, dir, vpn) == None
  {}

  lemma FreeLength(s: Vm, s1: Vm, s2: Vm, dir: nat, p: nat, vpn: nat)
    requires InsertCounted(s1, s2, dir, p, vpn) && s.free != []
    requires s1 == s.(free := s.free[1..]) && Leaf(s1, dir, vpn) == Leaf(s, dir, vpn)
    requires Leaf(s, dir, vpn).Some? ==> Leaf(s, dir, vpn).value.page != p
    requires Slot(dir, Pdx(vpn)) !in s.ents ==> Leaf(s, dir, vpn) == None
    ensures |s2.free| == |s.free| - 1 - (if Slot(dir, Pdx(vpn)) in s.ents then 0 else 1)
                         + if SoleMapping(s, dir, vpn) then 1 else 0
  {
    hide Leaf;
  }

  lemma AllocSameLeaf(s: Vm, dir: nat, vpn: nat)
    requires Inv(s) && dir in s.dirs && vpn < USER_VPNS
    ensures Leaf(PageAlloc(s, false).0, dir, vpn) == Leaf(s, dir, vpn)
  {
    AllocLeaf(s, false, dir, vpn);
    hide Inv;
  }

  lemma TablesSame(s: Vm, s1: Vm, s2: Vm, dir: nat, vpn: nat)
    requires s1.ents == s.ents
    ensures TablesAdded(s1, s2, dir, vpn, vpn + 1) <==> TablesAdded(s, s2, dir, vpn, vpn + 1)
  {}

  lemma MissingStep(s: Vm, s2: Vm, dir: nat, lo: nat, hi: nat)
    requires lo < hi && TablesAdded(s, s2, dir, lo, lo + 1)
    ensures Missing(s2, dir, lo + 1, hi) == Missing(s, dir, lo, hi) - {Pdx(lo)}
    ensures |Missing(s, dir, lo, hi)| ==
            |Missing(s2, dir, lo + 1, hi)| + if Slot(dir, Pdx(lo)) in s.ents then 0 else 1
  {
    if Slot(dir, Pdx(lo)) !in s.ents {
      assert Pdx(lo) in Missing(s, dir, lo, hi);
    }
  }

  lemma TablesJoin(s: Vm, s1: Vm, s2: Vm, dir: nat, lo: nat, hi: nat)
    requires lo < hi && TablesAdded(s, s1, dir, lo, lo + 1) && TablesAdded(s1, s2, dir, lo + 1, hi)
    ensures TablesAdded(s, s2, dir, lo, hi)
  {}

  ghost predicate NothingMapped(s: Vm, dir: nat, lo: nat, hi: nat) {
    forall v: nat :: lo <= v < hi ==> Leaf(s, dir, v) == None
  }

  // -------------------------------------------------------------------------
  // Enough pages
  // -------------------------------------------------------------------------

  // With Need pages free, region_alloc maps the whole region and loses nothing, whatever was mapped there.
  lemma {:induction false} EnoughPages(s: Vm, dir: nat, lo: nat, hi: nat)
    requires Inv(s) && dir in s.dirs && hi <= USER_VPNS && |s.free| >= Need(s, dir, lo, hi)
    ensures RegionAlloc(s, dir, lo, hi).Some? && RegionLeaks(s, dir, lo, hi) == {}
    ensures var s' := RegionAlloc(s, dir, lo, hi).value;
      && |s'.free| >= |s.free| - Need(s, dir, lo, hi) && TablesAdded(s, s', dir, lo, hi)
      && (NothingMapped(s, dir, lo, hi) ==> |s'.free| == |s.free| - Need(s, dir, lo, hi))
    decreases hi - lo
  {
    hide Inv, Insert, Missing, Leaf;
    if lo < hi {
      if NothingMapped(s, dir, lo, hi) {
        StaysUnmapped(s, dir, lo, hi);
      }
      RoundTakes(s, dir, lo);
      var s2 := Insert(PageAlloc(s, false).0, dir, s.free[0], lo, TABLE_FLAGS).0;
      if Slot(dir, Pdx(lo)) !in s.ents {
        MissingFirst(s, dir, lo, hi);
      }
      MissingStep(s, s2, dir, lo, hi);
      EnoughPages(s2, dir, lo + 1, hi);
      TablesJoin(s, s2, RegionAlloc(s2, dir, lo + 1, hi).value, dir, lo, hi);
    } else {
      MissingNone(s, dir, lo, hi);
    }
  }

  lemma MissingFirst(s: Vm, dir: nat, lo: nat, hi: nat)
    requires lo < hi && Slot(dir, Pdx(lo)) !in s.ents
    ensures |Missing(s, dir, lo, hi)| >= 1
  {
    assert Pdx(lo) in Missing(s, dir, lo, hi);
  }

  lemma StaysUnmapped(s: Vm, dir: nat, lo: nat, hi: nat)
    requires Inv(s) && dir in s.dirs && lo < hi <= USER_VPNS && s.free != [] && NothingMapped(s, dir, lo, hi)
    ensures Insert(PageAlloc(s, false).0, dir, s.free[0], lo, TABLE_FLAGS).1 ==>
            NothingMapped(Insert(PageAlloc(s, false).0, dir, s.free[0], lo, TABLE_FLAGS).0, dir, lo + 1, hi)
  {
    RegionStep(s, dir, lo);
    AllocLeaves(s);
    hide Inv, Insert, Leaf, CanInsert, OnlyDir;
    InsertUpdatesMap(PageAlloc(s, false).0, dir, s.free[0], lo, TABLE_FLAGS);
  }

  lemma MissingNone(s: Vm, dir: nat, lo: nat, hi: nat)
    requires lo >= hi
    ensures Missing(s, dir, lo, hi) == {}
  {}

  // A state that loses its last page: one page free and no page table for the address.
  lemma LosesThePage(s: Vm, dir: nat, v: nat)
    requires Inv(s) && dir in s.dirs && v < USER_VPNS && |s.free| == 1 && Slot(dir, Pdx(v)) !in s.ents
    ensures RegionAlloc(s, dir, v, v + 1).Some? && RegionLeaks(s, dir, v, v + 1) == {s.free[0]}
    ensures var s' := RegionAlloc(s, dir, v, v + 1).value;
      s'.free == [] && Ref(s', s.free[0]) == 0 && Leaf(s', dir, v) == None
  {
    assert s.free[0] in s.free && s.free[1..] == [];
    var s1 := PageAlloc(s, false).0;
    assert Insert(s1, dir, s.free[0], v, TABLE_FLAGS) == (s1, false);
    hide Inv, Insert;
    assert RegionAlloc(s1, dir, v + 1, v + 1) == Some(s1);
  }

  // -------------------------------------------------------------------------
  // Several regions, and a whole life
  // -------------------------------------------------------------------------

  function Pages(rs: seq<(nat, nat)>): nat {
    if rs == [] then 0 else (if rs[0].0 < rs[0].1 then rs[0].1 - rs[0].0 else 0) + Pages(rs[1..])
  }

  // The directory entries the regions touch.
  function Entries(rs: seq<(nat, nat)>): set<nat> {
    if rs == [] then {}
    else Entries(rs[1..]) + if rs[0].0 < rs[0].1 then Range(Pdx(rs[0].0), Pdx(rs[0].1 - 1)) else {}
  }

  ghost function Untabled(s: Vm, dir: nat, rs: seq<(nat, nat)>): set<nat> {
    set d | d in Entries(rs) && Slot(dir, d) !in s.ents
  }

  ghost predicate BelowUtop(rs: seq<(nat, nat)>) { forall r :: r in rs ==> r.1 <= USER_VPNS }

  lemma UntabledStep(s: Vm, s1: Vm, dir: nat, rs: seq<(nat, nat)>)
    requires rs != [] && TablesAdded(s, s1, dir, rs[0].0, rs[0].1)
    ensures |Untabled(s, dir, rs)| == |Untabled(s1, dir, rs[1..])| + |Missing(s, dir, rs[0].0, rs[0].1)|
  {
    var lo, hi := rs[0].0, rs[0].1;
    var a, b, c := Untabled(s, dir, rs), Missing(s, dir, lo, hi), Untabled(s1, dir, rs[1..]);
    hide Entries;
    forall d: nat ensures d in a <==> d in b || d in c {
      EntriesStep(rs, d);
    }
    assert b !! c;
    DisjointCard(a, b, c);
  }

  lemma DisjointCard(a: set<nat>, b: set<nat>, c: set<nat>)
    requires (forall d: nat :: d in a <==> d in b || d in c) && b !! c
    ensures |a| == |b| + |c|
  {
    assert a == b + c;
  }

  lemma EntriesStep(rs: seq<(nat, nat)>, d: nat)
    requires rs != []
    ensures d in Entries(rs) <==>
            d in Entries(rs[1..]) || (rs[0].0 < rs[0].1 && Pdx(rs[0].0) <= d <= Pdx(rs[0].1 - 1))
  {}

  lemma MissingUntabled(s: Vm, dir: nat, rs: seq<(nat, nat)>)
    requires rs != []
    ensures |Missing(s, dir, rs[0].0, rs[0].1)| <= |Untabled(s, dir, rs)|
  {
    CardMono(Missing(s, dir, rs[0].0, rs[0].1), Untabled(s, dir, rs));
  }

  // With a page for each page and one for each missing table, every call succeeds, overlaps included.
  lemma {:induction false} EnoughForAll(s: Vm, dir: nat, rs: seq<(nat, nat)>)
    requires Inv(s) && dir in s.dirs && BelowUtop(rs) && |s.free| >= Pages(rs) + |Untabled(s, dir, rs)|
    ensures Regions(s, dir, rs).Some? && Leaks(s, dir, rs) == {}
    decreases |rs|
  {
    hide Inv, OnlyDir, RegionAlloc, RegionLeaks, Missing, Untabled, TablesAdded, Held;
    if rs != [] {
      var lo, hi := rs[0].0, rs[0].1;
      assert rs[0] in rs && forall r :: r in rs[1..] ==> r in rs;
      MissingUntabled(s, dir, rs);
      EnoughPages(s, dir, lo, hi);
      RegionEffect(s, dir, lo, hi);
      var s1 := RegionAlloc(s, dir, lo, hi).value;
      OnlyDirDirs(s, s1, dir);
      UntabledStep(s, s1, dir, rs);
      EnoughForAll(s1, dir, rs[1..]);
    }
  }

  // A new directory has no tables below UTOP, and took one page.
  lemma NewDirectory(s: Vm, rs: seq<(nat, nat)>)
    requires Inv(s) && KernUserEmpty(s) && s.free != [] && BelowUtop(rs)
    ensures var s1, p := EnvSetup(s).0, s.free[0];
      && Inv(s1) && p in s1.dirs && |s1.free| == |s.free| - 1
      && Untabled(s1, p, rs) == Entries(rs) && forall v: nat :: v < USER_VPNS ==> Leaf(s1, p, v) == None
  {
    hide Inv, EnvSetup, Entries, KernUserEmpty, TablesFrom, Held, Foreign, LiveEnts;
    EnvSetupInv(s);
    SetupAdds(s);
    SetupFree(s);
    SetupTakesHead(s);
    var s1, p := EnvSetup(s).0, s.free[0];
    EntriesBelow(rs);
    TablesNamed(s1, p);
  }

  lemma SetupTakesHead(s: Vm)
    requires s.free != []
    ensures EnvSetup(s).1 == Some(s.free[0])
  {
    hide CopyFrame, ClearFrame;
  }

  lemma SetupFree(s: Vm)
    requires s.free != []
    ensures EnvSetup(s).0.free == s.free[1..]
  {
    hide CopyFrame, ClearFrame;
  }

  lemma TablesNamed(s: Vm, dir: nat)
    ensures forall d: nat :: d < USER_PDES && Slot(dir, d) in s.ents ==> s.ents[Slot(dir, d)].page in TablesOf(s, dir)
  {}

  lemma {:induction false} EntriesBelow(rs: seq<(nat, nat)>)
    requires BelowUtop(rs)
    ensures forall d :: d in Entries(rs) ==> d < USER_PDES
    decreases |rs|
  {
    if rs != [] {
      assert rs[0] in rs && forall r :: r in rs[1..] ==> r in rs;
      EntriesBelow(rs[1..]);
    }
  }

  // What an environment with these regions takes: its directory, a page for each page, a table for each
  // directory entry.
  function LifeNeeds(rs: seq<(nat, nat)>): nat { 1 + Pages(rs) + |Entries(rs)| }

  // With LifeNeeds pages free before, a whole life restores counts, entries and the free pages in full.
  lemma LifetimeRestores(s0: Vm, rs: seq<(nat, nat)>, current: bool)
    requires Inv(s0) && KernUserEmpty(s0) && BelowUtop(rs) && |s0.free| >= LifeNeeds(rs)
    ensures Regions(EnvSetup(s0).0, s0.free[0], rs).Some?
    ensures var s3 := EnvFree(Regions(EnvSetup(s0).0, s0.free[0], rs).value, s0.free[0], current);
      && Inv(s3) && s3.dirs == s0.dirs && s3.tables == s0.tables && LiveEnts(s3) == LiveEnts(s0)
      && (forall p :: p in s0.pool ==> Ref(s3, p) == Ref(s0, p))
      && (forall p :: p in s3.free <==> p in s0.free)
  {
    NewDirectory(s0, rs);
    hide Inv, EnvSetup, Regions, Leaks, LiveEnts, EnvFree;
    EnoughForAll(EnvSetup(s0).0, s0.free[0], rs);
    LifetimeRoundTrip(s0, rs, EnvFree(Regions(EnvSetup(s0).0, s0.free[0], rs).value, s0.free[0], current), current);
  }
}
