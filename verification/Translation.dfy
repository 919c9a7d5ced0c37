/** What the page-table operations mean for address translation: page_insert and page_remove are
    updates of one entry of one directory's map, and env_free touches no other directory. */
module Translation {
  import opened Wrappers
  import opened VmState
  import opened VmInvariant
  import opened AddressSpace

  // The entry that maps page vpn in dir, as page_lookup and check_va2pa see it.
  function Leaf(s: Vm, dir: nat, vpn: nat): Option<Ent> {
    match Translate(s, dir, vpn)
    case None => None
    case Some(x) => Some(x.pte)
  }

  // The slot of that entry, when the page table exists.
  function LeafSlot(s: Vm, dir: nat, vpn: nat): Option<Slot> {
    Walk(s, dir, vpn, false).1
  }

  lemma PdeTarget(s: Vm, pin: Option<nat>, dir: nat, i: nat)
    requires InvPinned(s, pin) && dir in Roots(s) && Slot(dir, i) in s.ents
    ensures var p := s.ents[Slot(dir, i)].page;
      if i < USER_PDES then p in s.tables else if i == UVPT_PDE then p == dir else p in s.ktables
  {
    if i >= USER_PDES && i != UVPT_PDE && dir in s.dirs {
      assert Slot(s.kern, i) in s.ents;
    }
  }

  // Below UTOP no two (directory, page) pairs share a slot, and nothing above UTOP shares one with them.
  lemma LeafSlotInjective(s: Vm, pin: Option<nat>, d1: nat, v1: nat, d2: nat, v2: nat)
    requires InvPinned(s, pin) && d1 in Roots(s) && d2 in Roots(s)
    requires v1 < USER_VPNS && v2 < NVPNS
    requires LeafSlot(s, d1, v1).Some? && LeafSlot(s, d2, v2) == LeafSlot(s, d1, v1)
    ensures d1 == d2 && v1 == v2
  {
    var a, b := Slot(d1, Pdx(v1)), Slot(d2, Pdx(v2));
    PdeTarget(s, pin, d1, Pdx(v1));
    PdeTarget(s, pin, d2, Pdx(v2));
    assert s.ents[a].page == s.ents[b].page;
    assert Live(s, a);
    RootsApart(s);
    assert Pdx(v2) < USER_PDES;
    assert Live(s, b);
    OneParent(s, pin, a, b);
    assert v1 == Pdx(v1) * 1024 + Ptx(v1) && v2 == Pdx(v2) * 1024 + Ptx(v2);
  }

  lemma RootsApart(s: Vm)
    requires Roles(s)
    ensures forall d :: d in Roots(s) ==> d !in s.tables && d !in s.ktables
    ensures s.tables !! s.ktables
  {}

  // -------------------------------------------------------------------------
  // Taking a mapping down, and putting one up
  // -------------------------------------------------------------------------

  lemma UnmappedLeaf(s: Vm, pin: Option<nat>, dir: nat, vpn: nat, d: nat, v: nat)
    requires InvPinned(s, pin) && dir in Roots(s) && d in Roots(s) && vpn < USER_VPNS && v < NVPNS
    requires Lookup(s, dir, vpn).Some?
    ensures var s' := Remove(s, dir, vpn);
      && LeafSlot(s', d, v) == LeafSlot(s, d, v)
      && Translate(s', d, v) == if d == dir && v == vpn then None else Translate(s, d, v)
  {
    var sl := Lookup(s, dir, vpn).value;
    LookupUser(s, dir, vpn);
    RootsApart(s);
    if LeafSlot(s, d, v) == Some(sl) {
      LeafSlotInjective(s, pin, dir, vpn, d, v);
    }
    hide InvPinned;
  }

  lemma MappedLeaf(s: Vm, pin: Option<nat>, dir: nat, vpn: nat, sl: Slot, p: nat, flags: nat, d: nat, v: nat)
    requires InvPinned(s, pin) && dir in Roots(s) && d in Roots(s) && vpn < USER_VPNS && v < NVPNS
    requires LeafSlot(s, dir, vpn) == Some(sl)
    ensures var s' := Mapped(s, sl, p, flags);
      && LeafSlot(s', d, v) == LeafSlot(s, d, v)
      && Leaf(s', d, v) == (if d == dir && v == vpn then Some(Ent(p, flags)) else Leaf(s, d, v))
      && (!(d == dir && v == vpn) ==> Translate(s', d, v) == Translate(s, d, v))
  {
    RootsApart(s);
    PdeTarget(s, pin, dir, Pdx(vpn));
    if LeafSlot(s, d, v) == Some(sl) {
      LeafSlotInjective(s, pin, dir, vpn, d, v);
    }
    hide InvPinned;
  }

  // -------------------------------------------------------------------------
  // pgdir_walk
  // -------------------------------------------------------------------------

  // A frame on the free list lies on no translation path.
  lemma OffPath(s: Vm, pin: Option<nat>, p: nat, d: nat, v: nat)
    requires InvPinned(s, pin) && d in Roots(s) && v < NVPNS && IsData(s, p)
    ensures d != p
    ensures LeafSlot(s, d, v).Some? ==> LeafSlot(s, d, v).value.frame != p
  {
    if LeafSlot(s, d, v).Some? {
      PdeTarget(s, pin, d, Pdx(v));
    }
  }

  lemma AllocLeaf(s: Vm, zero: bool, d: nat, v: nat)
    requires Inv(s) && d in Roots(s) && v < NVPNS
    ensures var s' := PageAlloc(s, zero).0;
      LeafSlot(s', d, v) == LeafSlot(s, d, v) && Translate(s', d, v) == Translate(s, d, v)
  {
    if s.free != [] {
      assert s.free[0] in s.free;
      OffPath(s, None, s.free[0], d, v);
    }
  }

  // Creating a page table changes no translation outside the UVPT window, where the table shows up.
  lemma WalkLeaf(s: Vm, dir: nat, vpn: nat, d: nat, v: nat)
    requires Inv(s) && dir in Roots(s) && d in Roots(s) && v < NVPNS && Pdx(v) != UVPT_PDE
    ensures Translate(Walk(s, dir, vpn, true).0, d, v) == Translate(s, d, v)
  {
    AllocLeaf(s, true, d, v);
    if s.free != [] && Slot(dir, Pdx(vpn)) !in s.ents {
      var p := s.free[0];
      assert p in s.free;
      var s1 := PageAlloc(s, true).0;
      if LeafSlot(s1, d, v).Some? {
        AllocInv(s, true);
        PdeTarget(s1, None, d, Pdx(v));
        RootsApart(s1);
      }
      hide Inv;
    }
  }

  // -------------------------------------------------------------------------
  // page_insert
  // -------------------------------------------------------------------------

  ghost predicate CanInsert(s: Vm, dir: nat, p: nat, vpn: nat) {
    Inv(s) && dir in Roots(s) && vpn < USER_VPNS && IsData(s, p) && p !in s.free
  }

  // The states page_insert passes through when it succeeds: after the walk, with pp pinned, and with
  // the old mapping taken down.
  function Walked(s: Vm, dir: nat, vpn: nat): Vm { Walk(s, dir, vpn, true).0 }

  function Pinned(s: Vm, dir: nat, p: nat, vpn: nat): Vm { AddRef(Walked(s, dir, vpn), p, 1) }

  function Opened(s: Vm, dir: nat, p: nat, vpn: nat): Vm {
    var s2 := Pinned(s, dir, p, vpn);
    if Lookup(s2, dir, vpn).Some? then Remove(s2, dir, vpn) else s2
  }

  lemma InsertStages(s: Vm, dir: nat, p: nat, vpn: nat, flags: nat)
    requires CanInsert(s, dir, p, vpn)
    ensures var (s', ok) := Insert(s, dir, p, vpn, flags);
      && (ok <==> Slot(dir, Pdx(vpn)) in s.ents || s.free != [])
      && (!ok ==> s' == s)
      && Inv(Walked(s, dir, vpn))
      && (ok ==>
            var s2, s3 := Pinned(s, dir, p, vpn), Opened(s, dir, p, vpn);
            && InvPinned(s2, Some(p)) && InvPinned(s3, Some(p))
            && LeafSlot(s2, dir, vpn).Some? && LeafSlot(s3, dir, vpn) == LeafSlot(s2, dir, vpn)
            && s' == Mapped(s3, LeafSlot(s2, dir, vpn).value, p, flags))
      && Roots(s') == Roots(s)
  {
    WalkInv(s, dir, vpn, true);
    WalkKeeps(s, dir, vpn, p);
    hide Inv, InvPinned;
    var s1 := Walked(s, dir, vpn);
    if Insert(s, dir, p, vpn, flags).1 {
      PinInv(s1, p);
      var s2 := Pinned(s, dir, p, vpn);
      RemoveInv(s2, Some(p), dir, vpn);
      if Lookup(s2, dir, vpn).Some? {
        WalkedRoots(s, dir, vpn);
        UnmappedLeaf(s2, Some(p), dir, vpn, dir, vpn);
      }
    }
  }

  lemma WalkedRoots(s: Vm, dir: nat, vpn: nat)
    ensures Roots(Walked(s, dir, vpn)) == Roots(s)
  {}

  ghost predicate MapUpdated(s: Vm, s': Vm, dir: nat, vpn: nat, e: Option<Ent>) {
    && Roots(s') == Roots(s)
    && forall d, v: nat :: d in Roots(s) && v < NVPNS && Pdx(v) != UVPT_PDE ==>
         Leaf(s', d, v) == if d == dir && v == vpn then e else Leaf(s, d, v)
  }

  // page_insert on success writes one entry of one address space and leaves every other translation
  // alone; on failure it changes nothing, and it fails exactly when a page table is missing and no
  // page is left for it.
  lemma InsertUpdatesMap(s: Vm, dir: nat, p: nat, vpn: nat, flags: nat)
    requires CanInsert(s, dir, p, vpn)
    ensures var (s', ok) := Insert(s, dir, p, vpn, flags);
      && (ok <==> Slot(dir, Pdx(vpn)) in s.ents || s.free != [])
      && (!ok ==> s' == s)
      && (ok ==> MapUpdated(s, s', dir, vpn, Some(Ent(p, flags))))
  {
    hide CanInsert, Insert, Leaf, Inv, InvPinned, Mapped;
    InsertStages(s, dir, p, vpn, flags);
    var (s', ok) := Insert(s, dir, p, vpn, flags);
    if ok {
      forall d, v: nat | d in Roots(s) && v < NVPNS && Pdx(v) != UVPT_PDE
        ensures Leaf(s', d, v) == if d == dir && v == vpn then Some(Ent(p, flags)) else Leaf(s, d, v)
      {
        InsertLeaf(s, dir, p, vpn, flags, d, v);
      }
    }
  }

  lemma InsertLeaf(s: Vm, dir: nat, p: nat, vpn: nat, flags: nat, d: nat, v: nat)
    requires CanInsert(s, dir, p, vpn) && Insert(s, dir, p, vpn, flags).1
    requires d in Roots(s) && v < NVPNS && Pdx(v) != UVPT_PDE
    ensures var s' := Insert(s, dir, p, vpn, flags).0;
      && Leaf(s', d, v) == (if d == dir && v == vpn then Some(Ent(p, flags)) else Leaf(s, d, v))
      && (!(d == dir && v == vpn) ==> Translate(s', d, v) == Translate(s, d, v))
  {
    InsertStages(s, dir, p, vpn, flags);
    WalkLeaf(s, dir, vpn, d, v);
    WalkedRoots(s, dir, vpn);
    hide Inv, InvPinned;
    var s2, s3 := Pinned(s, dir, p, vpn), Opened(s, dir, p, vpn);
    assert Translate(s2, d, v) == Translate(Walked(s, dir, vpn), d, v);
    if Lookup(s2, dir, vpn).Some? {
      UnmappedLeaf(s2, Some(p), dir, vpn, d, v);
    }
    assert Roots(s3) == Roots(s);
    MappedLeaf(s3, Some(p), dir, vpn, LeafSlot(s2, dir, vpn).value, p, flags, d, v);
  }

  // The page a lookup names, as a reference count of 0 or 1.
  function Names(e: Option<Ent>, q: nat): nat {
    if e.Some? && e.value.page == q then 1 else 0
  }

  // The counting side of page_insert: the new page gains a reference, the old one loses one and is
  // freed exactly when that was its last, and a fresh page table takes the head of the free list.
  ghost predicate InsertCounted(s: Vm, s': Vm, dir: nat, p: nat, vpn: nat) {
    if Slot(dir, Pdx(vpn)) in s.ents then
      var was := Leaf(s, dir, vpn);
      && (forall q :: q in s.pool ==> Ref(s', q) == Ref(s, q) + (if q == p then 1 else 0) - Names(was, q))
      && s'.free == if was.Some? && was.value.page != p && Ref(s, was.value.page) == 1
                    then [was.value.page] + s.free else s.free
    else
      && s.free != [] && s'.free == s.free[1..]
      && forall q :: q in s.pool ==>
           Ref(s', q) == Ref(s, q) + (if q == p then 1 else 0) + (if q == s.free[0] then 1 else 0)
  }

  lemma InsertCounts(s: Vm, dir: nat, p: nat, vpn: nat, flags: nat)
    requires CanInsert(s, dir, p, vpn) && Insert(s, dir, p, vpn, flags).1
    ensures InsertCounted(s, Insert(s, dir, p, vpn, flags).0, dir, p, vpn)
  {
    LeafInPool(s, dir, vpn);
    RefNonNegative(s, None);
    if Slot(dir, Pdx(vpn)) in s.ents {
      MappedIsReferenced(s, dir, vpn);
      CountsOldTable(s, dir, p, vpn, flags);
    } else {
      FreshTableEmpty(s, dir, vpn);
      CountsNewTable(s, dir, p, vpn, flags);
    }
  }

  lemma CountsOldTable(s: Vm, dir: nat, p: nat, vpn: nat, flags: nat)
    requires Slot(dir, Pdx(vpn)) in s.ents && p < |s.refs| && Ref(s, p) >= 0
    requires Leaf(s, dir, vpn).Some? ==>
               Leaf(s, dir, vpn).value.page < |s.refs| && Ref(s, Leaf(s, dir, vpn).value.page) > 0
    requires forall q :: q in s.pool ==> q < |s.refs|
    ensures InsertCounted(s, Insert(s, dir, p, vpn, flags).0, dir, p, vpn)
  {}

  lemma CountsNewTable(s: Vm, dir: nat, p: nat, vpn: nat, flags: nat)
    requires Slot(dir, Pdx(vpn)) !in s.ents && s.free != [] && p < |s.refs| && s.free[0] < |s.refs|
    requires Lookup(Walked(s, dir, vpn), dir, vpn) == None
    ensures InsertCounted(s, Insert(s, dir, p, vpn, flags).0, dir, p, vpn)
  {
    assert Slot(s.free[0], Ptx(vpn)) !in Walked(s, dir, vpn).ents;
  }

  lemma LeafInPool(s: Vm, dir: nat, vpn: nat)
    requires Inv(s) && dir in Roots(s) && vpn < USER_VPNS
    ensures var e := Leaf(s, dir, vpn);
      && (e.Some? ==>
            IsData(s, e.value.page) && e.value.page < |s.refs| && LeafSlot(s, dir, vpn).value.frame in s.tables)
    ensures s.free != [] ==> s.free[0] in s.pool && s.free[0] < |s.refs|
  {
    if s.free != [] {
      assert s.free[0] in s.free;
    }
  }

  lemma MappedIsReferenced(s: Vm, dir: nat, vpn: nat)
    requires Inv(s) && dir in Roots(s) && vpn < USER_VPNS
    ensures Leaf(s, dir, vpn).Some? ==> Ref(s, Leaf(s, dir, vpn).value.page) > 0
  {
    LeafInPool(s, dir, vpn);
    if Leaf(s, dir, vpn).Some? {
      var p := Leaf(s, dir, vpn).value.page;
      assert LeafSlot(s, dir, vpn).value in RefSlots(s, p);
      assert |RefSlots(s, p)| > 0;
      assert Ref(s, p) == Owed(s, p, None);
    }
  }

  lemma FreshTableEmpty(s: Vm, dir: nat, vpn: nat)
    requires Inv(s) && dir in Roots(s) && vpn < USER_VPNS
    requires Slot(dir, Pdx(vpn)) !in s.ents && s.free != []
    ensures Lookup(Walked(s, dir, vpn), dir, vpn) == None
  {
    assert s.free[0] in s.free;
  }

  // Mapping the page that is already there changes its permissions only.
  lemma ReinsertKeepsCounts(s: Vm, dir: nat, p: nat, vpn: nat, flags: nat)
    requires CanInsert(s, dir, p, vpn) && Leaf(s, dir, vpn).Some? && Leaf(s, dir, vpn).value.page == p
    ensures var (s', ok) := Insert(s, dir, p, vpn, flags);
      ok && s'.refs == s.refs && s'.free == s.free && Leaf(s', dir, vpn) == Some(Ent(p, flags))
  {
    InsertUpdatesMap(s, dir, p, vpn, flags);
    InsertCounts(s, dir, p, vpn, flags);
    hide Inv, Insert;
    var s' := Insert(s, dir, p, vpn, flags).0;
    assert forall q :: Names(Leaf(s, dir, vpn), q) == if q == p then 1 else 0;
  }
}
