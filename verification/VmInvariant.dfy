/** Reference counts, the free list and the page-table trees agree: the invariant of the
    virtual-memory core, and its preservation by every operation. */
module VmInvariant {
  import opened Wrappers
  import opened FreeLists
  import opened Sets
  import opened VmState

  // A slot whose entry holds a counted reference: user PDEs of every directory, kernel-half PDEs
  // of kern_pgdir only (environments share them by memcpy), and PTEs below UTOP.
  ghost predicate Live(s: Vm, sl: Slot) {
    || (sl.frame == s.kern && sl.idx != UVPT_PDE)
    || (sl.frame in s.dirs && sl.idx < USER_PDES)
    || sl.frame in s.tables
  }

  ghost function RefSlots(s: Vm, p: nat): set<Slot> {
    set sl | sl in s.ents && Live(s, sl) && s.ents[sl].page == p
  }

  ghost predicate IsData(s: Vm, p: nat) {
    p in s.pool && p !in s.dirs && p !in s.tables && p !in s.ktables
  }

  ghost predicate Roles(s: Vm) {
    && s.kern < |s.refs|
    && s.kern !in s.pool
    && (forall p :: p in s.pool ==> p < |s.refs|)
    && s.dirs <= s.pool && s.tables <= s.pool && s.ktables <= s.pool
    && s.dirs !! s.tables && s.dirs !! s.ktables && s.tables !! s.ktables
    && s.cr3 in Roots(s)
  }

  ghost predicate FreeList(s: Vm) {
    && Distinct(s.free)
    && forall p :: p in s.free ==> IsData(s, p) && Ref(s, p) == 0
  }

  // What each live slot may name: the trees have exactly two levels.
  ghost predicate Layered(s: Vm) {
    && (forall sl :: sl in s.ents ==> sl.frame < |s.refs| && sl.idx < NPTENTRIES)
    && (forall sl :: sl in s.ents && sl.frame in Roots(s) && sl.idx < USER_PDES ==> s.ents[sl].page in s.tables)
    && (forall sl :: sl in s.ents && sl.frame == s.kern && USER_PDES <= sl.idx && sl.idx != UVPT_PDE ==>
       s.ents[sl].page in s.ktables)
    && (forall sl :: sl in s.ents && sl.frame in s.tables ==> IsData(s, s.ents[sl].page))
  }

  ghost predicate KernelHalf(s: Vm) {
    && (forall d :: d in Roots(s) ==> Slot(d, UVPT_PDE) in s.ents && s.ents[Slot(d, UVPT_PDE)] == Ent(d, SELF_FLAGS))
    && (forall d, i :: d in s.dirs && USER_PDES <= i && i != UVPT_PDE ==>
          (Slot(d, i) in s.ents <==> Slot(s.kern, i) in s.ents)
          && (Slot(d, i) in s.ents ==> s.ents[Slot(d, i)] == s.ents[Slot(s.kern, i)]))
  }

  // `pin` is a page holding one extra reference while page_insert is under way.
  ghost function Owed(s: Vm, p: nat, pin: Option<nat>): nat {
    |RefSlots(s, p)| + (if p in s.dirs then 1 else 0) + (if pin == Some(p) then 1 else 0)
  }

  ghost predicate Counts(s: Vm, pin: Option<nat>) {
    && (forall p :: p in s.pool ==> Ref(s, p) == Owed(s, p, pin))
    && (forall t :: t in s.tables || t in s.ktables ==> Ref(s, t) == 1)
  }

  ghost predicate InvPinned(s: Vm, pin: Option<nat>) {
    && Roles(s) && FreeList(s) && Layered(s) && KernelHalf(s) && Counts(s, pin)
    && (pin.Some? ==> IsData(s, pin.value) && pin.value !in s.free)
  }

  ghost predicate Inv(s: Vm) { InvPinned(s, None) }

  // -------------------------------------------------------------------------
  // Consequences
  // -------------------------------------------------------------------------

  ghost predicate SameRoles(s: Vm, s': Vm) {
    s'.kern == s.kern && s'.dirs == s.dirs && s'.tables == s.tables
  }

  // Entries outside live slots hold no reference.
  lemma SameLiveRefs(s: Vm, s': Vm, q: nat)
    requires SameRoles(s, s')
    requires forall sl :: sl in s.ents && Live(s, sl) ==> sl in s'.ents && s'.ents[sl] == s.ents[sl]
    requires forall sl :: sl in s'.ents && Live(s, sl) ==> sl in s.ents
    ensures RefSlots(s', q) == RefSlots(s, q)
  {
    forall sl ensures sl in RefSlots(s', q) <==> sl in RefSlots(s, q) {
    }
  }

  // Clearing or setting one live slot changes the set of references by that slot.
  lemma ClearSlotRefs(s: Vm, s': Vm, sl: Slot, q: nat)
    requires SameRoles(s, s') && s'.ents == s.ents - {sl} && sl in s.ents && Live(s, sl)
    ensures |RefSlots(s', q)| == |RefSlots(s, q)| - (if q == s.ents[sl].page then 1 else 0)
  {
    assert RefSlots(s', q) == RefSlots(s, q) - {sl};
  }

  lemma SetSlotRefs(s: Vm, s': Vm, sl: Slot, e: Ent, q: nat)
    requires SameRoles(s, s') && s'.ents == s.ents[sl := e] && sl !in s.ents && Live(s, sl)
    ensures |RefSlots(s', q)| == |RefSlots(s, q)| + (if q == e.page then 1 else 0)
  {
    assert RefSlots(s', q) == RefSlots(s, q) + if q == e.page then {sl} else {};
  }

  // A user page table hangs from exactly one directory entry.
  lemma OneParent(s: Vm, pin: Option<nat>, a: Slot, b: Slot)
    requires InvPinned(s, pin)
    requires a in s.ents && b in s.ents && Live(s, a) && Live(s, b)
    requires s.ents[a].page == s.ents[b].page && (s.ents[a].page in s.tables || s.ents[a].page in s.ktables)
    ensures a == b
  {
    var t := s.ents[a].page;
    assert Ref(s, t) == Owed(s, t, pin);
    assert |RefSlots(s, t)| == 1;
    CardMono({a, b}, RefSlots(s, t));
  }

  // A page on the free list is named by no live slot.
  lemma FreeUnnamed(s: Vm, pin: Option<nat>, p: nat)
    requires InvPinned(s, pin) && p in s.pool && Ref(s, p) == 0
    ensures RefSlots(s, p) == {} && p !in s.dirs && p !in s.tables && p !in s.ktables
    ensures forall sl :: sl in s.ents && Live(s, sl) ==> s.ents[sl].page != p
  {
    assert Owed(s, p, pin) == 0;
    forall sl | sl in s.ents && Live(s, sl) ensures s.ents[sl].page != p {
      assert sl !in RefSlots(s, p);
    }
  }

  // -------------------------------------------------------------------------
  // Preservation
  // -------------------------------------------------------------------------

  lemma AllocCounts(s: Vm, zero: bool)
    requires Inv(s)
    ensures Counts(PageAlloc(s, zero).0, None)
  {
    var s' := PageAlloc(s, zero).0;
    if s.free != [] {
      assert s.free[0] in s.free;
      forall q | q in s.pool ensures Ref(s', q) == Owed(s', q, None) {
        SameLiveRefs(s, s', q);
        assert Ref(s, q) == Owed(s, q, None);
      }
    }
  }

  lemma AllocFree(s: Vm, zero: bool)
    requires Inv(s)
    ensures FreeList(PageAlloc(s, zero).0)
    ensures s.free != [] ==> s.free[0] !in s.free[1..]
  {
    if s.free != [] {
      assert forall q :: q in s.free[1..] ==> q in s.free;
    }
  }

  lemma AllocLayers(s: Vm, zero: bool)
    requires Roles(s) && FreeList(s) && Layered(s) && KernelHalf(s)
    ensures var s' := PageAlloc(s, zero).0; Roles(s') && Layered(s') && KernelHalf(s')
  {
    if s.free != [] {
      assert s.free[0] in s.free;
    }
  }

  lemma AllocInv(s: Vm, zero: bool)
    requires Inv(s)
    ensures var (s', r) := PageAlloc(s, zero);
      && Inv(s')
      && (r.Some? ==> IsData(s', r.value) && r.value !in s'.free && Ref(s', r.value) == 0)
  {
    AllocCounts(s, zero);
    AllocFree(s, zero);
    AllocLayers(s, zero);
    if s.free != [] {
      assert s.free[0] in s.free;
    }
  }

  ghost predicate FreshTable(s: Vm, pin: Option<nat>, dir: nat, d: nat, p: nat) {
    && InvPinned(s, pin) && IsData(s, p) && p !in s.free && Ref(s, p) == 0
    && (forall sl :: sl in s.ents ==> sl.frame != p)
    && dir in Roots(s) && d < NPTENTRIES && d != UVPT_PDE && Slot(dir, d) !in s.ents
    && (d < USER_PDES || (dir == s.kern && s.dirs == {}))
  }

  // What matters about the new table: a zeroed page in no other use, and a free directory entry.
  ghost predicate Hookable(s: Vm, dir: nat, d: nat, p: nat) {
    && IsData(s, p) && p < |s.refs| && p != s.kern
    && (forall sl :: sl in s.ents ==> sl.frame != p)
    && (forall sl :: sl in s.ents && Live(s, sl) ==> s.ents[sl].page != p)
    && dir in Roots(s) && d < NPTENTRIES && d != UVPT_PDE && Slot(dir, d) !in s.ents
    && (d < USER_PDES || (dir == s.kern && s.dirs == {}))
  }

  lemma FreshHookable(s: Vm, pin: Option<nat>, dir: nat, d: nat, p: nat)
    requires FreshTable(s, pin, dir, d, p)
    ensures Hookable(s, dir, d, p) && RefSlots(s, p) == {} && Ref(s, p) == 0 && pin != Some(p)
    ensures Roles(s) && FreeList(s) && Layered(s) && KernelHalf(s) && Counts(s, pin) && p !in s.free
  {
    FreeUnnamed(s, pin, p);
    assert Ref(s, p) == Owed(s, p, pin);
  }

  lemma NewTableRefs(s: Vm, dir: nat, d: nat, p: nat, q: nat)
    requires Hookable(s, dir, d, p)
    ensures RefSlots(NewTable(s, dir, d, p), q) == if q == p then {Slot(dir, d)} else RefSlots(s, q)
  {
    var s' := NewTable(s, dir, d, p);
    forall sl | sl in s'.ents
      ensures sl in RefSlots(s', q) <==> sl in if q == p then {Slot(dir, d)} else RefSlots(s, q) {
    }
  }

  lemma NewTableLayered(s: Vm, dir: nat, d: nat, p: nat)
    requires Roles(s) && Layered(s) && Hookable(s, dir, d, p)
    ensures Layered(NewTable(s, dir, d, p))
  {
    var s' := NewTable(s, dir, d, p);
    forall sl | sl in s'.ents && sl.frame in s'.tables ensures IsData(s', s'.ents[sl].page) {
      assert sl.frame in s.tables;
      assert Live(s, sl);
    }
  }

  lemma NewTableKernelHalf(s: Vm, dir: nat, d: nat, p: nat)
    requires KernelHalf(s) && Hookable(s, dir, d, p)
    ensures KernelHalf(NewTable(s, dir, d, p))
  {}

  lemma NewTableCounts(s: Vm, pin: Option<nat>, dir: nat, d: nat, p: nat)
    requires Counts(s, pin) && Hookable(s, dir, d, p) && Ref(s, p) == 0 && pin != Some(p)
    ensures Counts(NewTable(s, dir, d, p), pin)
  {
    var s' := NewTable(s, dir, d, p);
    assert p !in s.dirs;
    forall q | q in s.pool ensures Ref(s', q) == Owed(s', q, pin) {
      NewTableRefs(s, dir, d, p, q);
      assert Ref(s, q) == Owed(s, q, pin);
      hide Hookable;
    }
  }

  lemma NewTableRoles(s: Vm, dir: nat, d: nat, p: nat)
    requires Roles(s) && FreeList(s) && Hookable(s, dir, d, p) && p !in s.free
    ensures Roles(NewTable(s, dir, d, p)) && FreeList(NewTable(s, dir, d, p))
  {}

  lemma NewTableInv(s: Vm, pin: Option<nat>, dir: nat, d: nat, p: nat)
    requires FreshTable(s, pin, dir, d, p)
    ensures InvPinned(NewTable(s, dir, d, p), pin)
  {
    FreshHookable(s, pin, dir, d, p);
    NewTableLayered(s, dir, d, p);
    NewTableKernelHalf(s, dir, d, p);
    NewTableCounts(s, pin, dir, d, p);
    NewTableRoles(s, dir, d, p);
    hide Roles, FreeList, Layered, KernelHalf, Counts, Hookable;
  }

  // pgdir_walk at any address, UVPT included.  A new table above UTOP is for boot only: it would not reach
  // the directories that exist already.
  lemma WalkInv(s: Vm, dir: nat, vpn: nat, create: bool)
    requires Inv(s) && dir in Roots(s) && vpn < NVPNS
    requires create && Slot(dir, Pdx(vpn)) !in s.ents ==> Pdx(vpn) < USER_PDES || (dir == s.kern && s.dirs == {})
    ensures var (s', r) := Walk(s, dir, vpn, create);
      && Inv(s')
      && (r.Some? ==> Slot(dir, Pdx(vpn)) in s'.ents && r.value == Slot(s'.ents[Slot(dir, Pdx(vpn))].page, Ptx(vpn)))
  {
    if Slot(dir, Pdx(vpn)) !in s.ents && create && s.free != [] {
      AllocInv(s, true);
      var s1 := PageAlloc(s, true).0;
      assert Slot(dir, Pdx(vpn)) !in s1.ents;
      NewTableInv(s1, None, dir, Pdx(vpn), s.free[0]);
    }
  }

  // What page_remove does to a mapped page, in one record update.
  function Unmapped(s: Vm, sl: Slot, vpn: nat): Vm
    requires sl in s.ents
  {
    Invlpg(PageDecref(s, s.ents[sl].page).(ents := s.ents - {sl}), vpn)
  }

  ghost predicate UserPte(s: Vm, pin: Option<nat>, sl: Slot) {
    InvPinned(s, pin) && sl in s.ents && sl.frame in s.tables
  }

  lemma UnmappedCounts(s: Vm, pin: Option<nat>, sl: Slot, vpn: nat)
    requires UserPte(s, pin, sl)
    ensures Counts(Unmapped(s, sl, vpn), pin)
  {
    var s' := Unmapped(s, sl, vpn);
    forall q | q in s.pool ensures Ref(s', q) == Owed(s', q, pin) {
      ClearSlotRefs(s, s', sl, q);
      assert Ref(s, q) == Owed(s, q, pin);
    }
  }

  lemma UnmappedFree(s: Vm, pin: Option<nat>, sl: Slot, vpn: nat)
    requires UserPte(s, pin, sl)
    ensures FreeList(Unmapped(s, sl, vpn))
    ensures pin.Some? ==> pin.value !in Unmapped(s, sl, vpn).free
  {
    assert sl in s.ents by { hide InvPinned; }
    hide InvPinned, UserPte;
    UserPteFacts(s, pin, sl);
    var p := s.ents[sl].page;
    assert Unmapped(s, sl, vpn).free == if Ref(s, p) == 1 then [p] + s.free else s.free;
    PushedFree(s, p);
  }

  lemma PushedFree(s: Vm, p: nat)
    requires FreeList(s) && IsData(s, p) && p < |s.refs| && p !in s.free
    ensures Ref(s, p) == 1 ==> Distinct([p] + s.free)
  {}

  // The page a user PTE names is in use, and its count says so.
  lemma UserPteFacts(s: Vm, pin: Option<nat>, sl: Slot)
    requires UserPte(s, pin, sl)
    ensures var p := s.ents[sl].page;
      IsData(s, p) && p < |s.refs| && Ref(s, p) >= 1 && p !in s.free && (pin == Some(p) ==> Ref(s, p) >= 2)
    ensures FreeList(s) && (pin.Some? ==> pin.value !in s.free)
  {
    var p := s.ents[sl].page;
    hide KernelHalf;
    assert Ref(s, p) == Owed(s, p, pin);
    assert sl in RefSlots(s, p);
    assert |RefSlots(s, p)| > 0;
  }

  lemma UnmappedLayers(s: Vm, sl: Slot, vpn: nat)
    requires Roles(s) && Layered(s) && KernelHalf(s) && sl in s.ents && sl.frame in s.tables
    ensures var s' := Unmapped(s, sl, vpn); Roles(s') && Layered(s') && KernelHalf(s')
  {}

  // Clearing one PTE below UTOP and dropping the reference it held.
  lemma UnmappedInv(s: Vm, pin: Option<nat>, sl: Slot, vpn: nat)
    requires UserPte(s, pin, sl)
    ensures InvPinned(Unmapped(s, sl, vpn), pin)
  {
    UnmappedCounts(s, pin, sl, vpn);
    UnmappedFree(s, pin, sl, vpn);
    UnmappedLayers(s, sl, vpn);
  }

  lemma LookupUser(s: Vm, dir: nat, vpn: nat)
    requires Layered(s) && dir in Roots(s) && vpn < USER_VPNS
    ensures var r := Lookup(s, dir, vpn);
      r.Some? ==> r.value in s.ents && r.value.frame in s.tables && Remove(s, dir, vpn) == Unmapped(s, r.value, vpn)
  {}

  lemma RemoveInv(s: Vm, pin: Option<nat>, dir: nat, vpn: nat)
    requires InvPinned(s, pin) && dir in Roots(s) && vpn < USER_VPNS
    ensures InvPinned(Remove(s, dir, vpn), pin)
  {
    LookupUser(s, dir, vpn);
    if Lookup(s, dir, vpn).Some? {
      UnmappedInv(s, pin, Lookup(s, dir, vpn).value, vpn);
    }
  }

  lemma PinCounts(s: Vm, p: nat)
    requires Roles(s) && Counts(s, None) && IsData(s, p)
    ensures Counts(AddRef(s, p, 1), Some(p))
  {
    var s' := AddRef(s, p, 1);
    forall q | q in s.pool ensures Ref(s', q) == Owed(s', q, Some(p)) {
      SameLiveRefs(s, s', q);
      assert Ref(s, q) == Owed(s, q, None);
    }
  }

  lemma PinLayers(s: Vm, p: nat)
    requires Roles(s) && FreeList(s) && Layered(s) && KernelHalf(s) && p !in s.free
    ensures var s' := AddRef(s, p, 1); Roles(s') && FreeList(s') && Layered(s') && KernelHalf(s')
  {}

  // page_insert holds an extra reference on pp while the old mapping is taken down ...
  lemma PinInv(s: Vm, p: nat)
    requires Inv(s) && IsData(s, p) && p !in s.free
    ensures InvPinned(AddRef(s, p, 1), Some(p))
  {
    PinCounts(s, p);
    PinLayers(s, p);
  }

  function Mapped(s: Vm, sl: Slot, p: nat, flags: nat): Vm {
    s.(ents := s.ents[sl := Ent(p, flags)])
  }

  // ... and the new entry then accounts for it.
  lemma MappedInv(s: Vm, p: nat, sl: Slot, flags: nat)
    requires InvPinned(s, Some(p)) && sl !in s.ents && sl.frame in s.tables && sl.idx < NPTENTRIES
    ensures Inv(Mapped(s, sl, p, flags))
  {
    var s' := Mapped(s, sl, p, flags);
    forall q | q in s.pool ensures Ref(s', q) == Owed(s', q, None) {
      SetSlotRefs(s, s', sl, Ent(p, flags), q);
      assert Ref(s, q) == Owed(s, q, Some(p));
    }
    MappedLayers(s, p, sl, flags);
  }

  lemma MappedLayers(s: Vm, p: nat, sl: Slot, flags: nat)
    requires Roles(s) && Layered(s) && KernelHalf(s) && IsData(s, p)
    requires sl.frame in s.tables && sl.idx < NPTENTRIES
    ensures var s' := Mapped(s, sl, p, flags); Roles(s') && Layered(s') && KernelHalf(s')
  {}

  lemma InsertInv(s: Vm, dir: nat, p: nat, vpn: nat, flags: nat)
    requires Inv(s) && dir in Roots(s) && vpn < USER_VPNS && IsData(s, p) && p !in s.free
    ensures Inv(Insert(s, dir, p, vpn, flags).0)
  {
    WalkInv(s, dir, vpn, true);
    WalkKeeps(s, dir, vpn, p);
    hide InvPinned;
    var (s1, slot) := Walk(s, dir, vpn, true);
    if slot.Some? {
      PinInv(s1, p);
      var s2 := AddRef(s1, p, 1);
      ReplaceInv(s2, dir, p, vpn, slot.value, flags);
    }
  }

  lemma ReplaceInv(s: Vm, dir: nat, p: nat, vpn: nat, sl: Slot, flags: nat)
    requires InvPinned(s, Some(p)) && dir in Roots(s) && vpn < USER_VPNS && Slot(dir, Pdx(vpn)) in s.ents
    requires sl == Slot(s.ents[Slot(dir, Pdx(vpn))].page, Ptx(vpn))
    ensures Inv(Mapped(if sl in s.ents then Remove(s, dir, vpn) else s, sl, p, flags))
  {
    hide InvPinned;
    SlotTable(s, Some(p), dir, vpn);
    RemoveInv(s, Some(p), dir, vpn);
    var s1 := if sl in s.ents then Remove(s, dir, vpn) else s;
    assert sl !in s1.ents && s1.tables == s.tables;
    MappedInv(s1, p, sl, flags);
  }

  lemma SlotTable(s: Vm, pin: Option<nat>, dir: nat, vpn: nat)
    requires InvPinned(s, pin) && dir in Roots(s) && vpn < USER_VPNS && Slot(dir, Pdx(vpn)) in s.ents
    ensures s.ents[Slot(dir, Pdx(vpn))].page in s.tables
  {}

  // A data page the caller holds is not the one a walk takes from the free list.
  lemma WalkKeeps(s: Vm, dir: nat, vpn: nat, p: nat)
    requires FreeList(s) && IsData(s, p) && p !in s.free
    ensures var s' := Walk(s, dir, vpn, true).0; IsData(s', p) && p !in s'.free
  {
    if s.free != [] {
      assert s.free[0] in s.free;
    }
  }
}
