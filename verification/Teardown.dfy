/** What page_remove and env_free give back, what they leave alone, and what pp_ref counts. */
module Teardown {
  import opened Wrappers
  import opened Sets
  import opened VmState
  import opened VmInvariant
  import opened AddressSpace
  import opened Translation

  // page_remove clears one entry of one address space; a page is freed exactly when its last
  // reference goes.
  lemma RemoveUpdatesMap(s: Vm, dir: nat, vpn: nat)
    requires Inv(s) && dir in Roots(s) && vpn < USER_VPNS
    ensures var s' := Remove(s, dir, vpn);
      && MapUpdated(s, s', dir, vpn, None)
      && Released(s, s')
      && (forall q :: q in s.pool ==> Ref(s', q) == Ref(s, q) - Names(Leaf(s, dir, vpn), q))
  {
    hide InvPinned;
    var s' := Remove(s, dir, vpn);
    RemoveIsUnmapped(s, dir, vpn);
    if Lookup(s, dir, vpn).Some? {
      var sl := Lookup(s, dir, vpn).value;
      UnmappedReleased(s, sl, vpn);
      LeafInPool(s, dir, vpn);
      forall d, v: nat | d in Roots(s) && v < NVPNS && Pdx(v) != UVPT_PDE
        ensures Leaf(s', d, v) == if d == dir && v == vpn then None else Leaf(s, d, v)
      {
        UnmappedLeaf(s, None, dir, vpn, d, v);
      }
    } else {
      ReleasedRefl(s);
    }
  }

  lemma RemoveIsUnmapped(s: Vm, dir: nat, vpn: nat)
    requires Inv(s) && dir in Roots(s) && vpn < USER_VPNS
    ensures var r := Lookup(s, dir, vpn);
      r.Some? ==> UserPte(s, None, r.value) && Remove(s, dir, vpn) == Unmapped(s, r.value, vpn)
  {
    LookupUser(s, dir, vpn);
  }

  // -------------------------------------------------------------------------
  // env_free
  // -------------------------------------------------------------------------

  lemma TablesOfAreTables(s: Vm, dir: nat)
    requires Inv(s) && dir in Roots(s)
    ensures TablesOf(s, dir) <= s.tables
    ensures forall t :: t in TablesOf(s, dir) ==> exists i: nat :: i < USER_PDES && Hangs(s, dir, i, t)
  {
    forall t | t in TablesOf(s, dir)
      ensures t in s.tables
      ensures exists i: nat :: i < USER_PDES && Hangs(s, dir, i, t)
    {
      var sl :| sl in s.ents && sl.frame == dir && 0 <= sl.idx < USER_PDES && s.ents[sl].page == t;
      assert Hangs(s, dir, sl.idx, t);
    }
  }

  // No other directory reaches a page table of dir.
  lemma TablePrivate(s: Vm, dir: nat, b: Slot)
    requires Inv(s) && dir in Roots(s) && b in s.ents && Live(s, b) && b.frame != dir
    ensures s.ents[b].page !in TablesOf(s, dir)
  {
    TablesOfAreTables(s, dir);
    forall i: nat | i < USER_PDES && Hangs(s, dir, i, s.ents[b].page) ensures false {
      OneParent(s, None, Slot(dir, i), b);
    }
  }

  // Every translation of every other directory, the kernel's included, survives env_free.
  lemma EnvFreeLeavesOthers(s: Vm, dir: nat, current: bool, d: nat, v: nat)
    requires Inv(s) && CanFree(s, dir, current) && d in Roots(s) && d != dir && v < NVPNS
    ensures Translate(EnvFree(s, dir, current), d, v) == Translate(s, d, v)
  {
    EnvFreeEffect(s, dir, current);
    PathApart(s, dir, d, v);
    hide Inv, EnvFree, TablesFrom;
  }

  // Another directory's translation path stays out of dir's frames.
  lemma PathApart(s: Vm, dir: nat, d: nat, v: nat)
    requires Inv(s) && dir in s.dirs && d in Roots(s) && d != dir && v < NVPNS
    ensures d !in TablesOf(s, dir)
    ensures LeafSlot(s, d, v).Some? ==>
              LeafSlot(s, d, v).value.frame != dir && LeafSlot(s, d, v).value.frame !in TablesOf(s, dir)
  {
    TablesOfAreTables(s, dir);
    RootsApart(s);
    if LeafSlot(s, d, v).Some? {
      PdeTarget(s, None, d, Pdx(v));
      if Pdx(v) < USER_PDES {
        TablePrivate(s, dir, Slot(d, Pdx(v)));
      }
    }
  }

  // The references an environment holds on a page: from its directory and from its page tables.
  ghost function HeldBy(s: Vm, dir: nat, p: nat): set<Slot> {
    set sl | sl in RefSlots(s, p) && (sl.frame == dir || sl.frame in TablesOf(s, dir))
  }

  lemma EnvFreeRefSlots(s: Vm, dir: nat, current: bool, p: nat)
    requires Inv(s) && CanFree(s, dir, current)
    ensures RefSlots(EnvFree(s, dir, current), p) == RefSlots(s, p) - HeldBy(s, dir, p)
  {
    EnvFreeEffect(s, dir, current);
    TablesOfAreTables(s, dir);
    RootsApart(s);
    TornRefs(s, EnvFree(s, dir, current), dir, p);
  }

  lemma TornRefs(s: Vm, s': Vm, dir: nat, p: nat)
    requires Roles(s) && dir in s.dirs && TablesOf(s, dir) <= s.tables && s'.kern == s.kern
    requires s'.ents == Torn(s, dir, 0) && s'.tables == s.tables - TablesOf(s, dir) && s'.dirs == s.dirs - {dir}
    requires Layered(s) && KernelHalf(s)
    ensures RefSlots(s', p) == RefSlots(s, p) - HeldBy(s, dir, p)
  {
    var T := TablesOf(s, dir);
    forall sl: Slot ensures sl in RefSlots(s', p) <==> sl in RefSlots(s, p) && sl.frame != dir && sl.frame !in T {
      hide TablesFrom, Layered, KernelHalf;
    }
  }

  // env_free takes back exactly the references the environment held, and puts on the free list
  // exactly the pages it held the last references of: its directory, its tables, its own pages.
  lemma EnvFreeReturnsExactly(s: Vm, dir: nat, current: bool, p: nat)
    requires Inv(s) && CanFree(s, dir, current) && p in s.pool
    ensures var s' := EnvFree(s, dir, current);
      var held := |HeldBy(s, dir, p)| + if p == dir then 1 else 0;
      && Ref(s', p) == Ref(s, p) - held
      && (p in s'.free <==> p in s.free || (held > 0 && Ref(s, p) == held))
      && (p == dir ==> held == Ref(s, p) == 1)
      && (p in TablesOf(s, dir) ==> held == Ref(s, p) == 1)
  {
    var s' := EnvFree(s, dir, current);
    EnvFreeEffect(s, dir, current);
    EnvFreeRefSlots(s, dir, current, p);
    assert HeldBy(s, dir, p) <= RefSlots(s, p);
    assert |RefSlots(s, p) - HeldBy(s, dir, p)| == |RefSlots(s, p)| - |HeldBy(s, dir, p)|;
    Accounts(s, p);
    Accounts(s', p);
    DirUnnamed(s, dir);
    if p in TablesOf(s, dir) {
      TableHeld(s, dir, p);
    }
    hide Inv, EnvFree;
  }

  lemma Accounts(s: Vm, p: nat)
    requires Inv(s) && p in s.pool
    ensures Ref(s, p) == |RefSlots(s, p)| + if p in s.dirs then 1 else 0
  {
    assert Ref(s, p) == Owed(s, p, None);
  }

  lemma TableHeld(s: Vm, dir: nat, t: nat)
    requires Inv(s) && dir in s.dirs && t in TablesOf(s, dir)
    ensures Ref(s, t) == 1 && |HeldBy(s, dir, t)| == 1
  {
    TablesOfAreTables(s, dir);
    var i: nat :| i < USER_PDES && Hangs(s, dir, i, t);
    var a := Slot(dir, i);
    assert a in HeldBy(s, dir, t);
    forall b | b in HeldBy(s, dir, t) ensures b == a {
      OneParent(s, None, a, b);
    }
    assert HeldBy(s, dir, t) == {a};
  }

  // -------------------------------------------------------------------------
  // What pp_ref counts
  // -------------------------------------------------------------------------

  // The (directory, page) pairs below UTOP that translate to p.
  ghost function MappingsOf(s: Vm, p: nat): set<(nat, nat)> {
    set d, v | d in Roots(s) && 0 <= v < USER_VPNS && Names(Leaf(s, d, v), p) == 1 :: (d, v)
  }

  lemma TableHangs(s: Vm, t: nat)
    requires Inv(s) && t in s.tables
    ensures exists d, i: nat :: i < USER_PDES && d in Roots(s) && Hangs(s, d, i, t)
  {
    assert Ref(s, t) == Owed(s, t, None) == 1;
    assert |RefSlots(s, t)| == 1;
    var x :| x in RefSlots(s, t);
    TableSlotIsUserPde(s, t, x);
    assert Hangs(s, x.frame, x.idx, t);
  }

  lemma TableSlotIsUserPde(s: Vm, t: nat, x: Slot)
    requires Roles(s) && Layered(s) && t in s.tables && x in RefSlots(s, t)
    ensures x.frame in Roots(s) && x.idx < USER_PDES
  {}

  lemma DataSlotIsLeaf(s: Vm, p: nat, x: Slot)
    requires Roles(s) && Layered(s) && IsData(s, p) && x in RefSlots(s, p)
    ensures x.frame in s.tables && x.idx < NPTENTRIES
  {}

  lemma SlotHasPair(s: Vm, p: nat, x: Slot) returns (a: (nat, nat))
    requires Inv(s) && IsData(s, p) && x in RefSlots(s, p)
    ensures a in MappingsOf(s, p) && LeafSlot(s, a.0, a.1) == Some(x)
  {
    DataSlotIsLeaf(s, p, x);
    TableHangs(s, x.frame);
    var d, i: nat :| i < USER_PDES && d in Roots(s) && Hangs(s, d, i, x.frame);
    var v := i * 1024 + x.idx;
    assert Pdx(v) == i && Ptx(v) == x.idx;
    a := (d, v);
    hide Inv;
    assert x == Slot(x.frame, x.idx);
    assert Names(Leaf(s, d, v), p) == 1;
  }

  lemma PairHasSlot(s: Vm, p: nat, a: (nat, nat))
    requires Inv(s) && a in MappingsOf(s, p)
    ensures LeafSlot(s, a.0, a.1).Some? && LeafSlot(s, a.0, a.1).value in RefSlots(s, p)
  {
    LeafInPool(s, a.0, a.1);
    hide Inv;
  }

  // pp_ref of a page below the page-table layer is the number of places it is mapped below UTOP.
  lemma RefCountsMappings(s: Vm, p: nat)
    requires Inv(s) && IsData(s, p)
    ensures Ref(s, p) == |MappingsOf(s, p)|
  {
    Accounts(s, p);
    forall a | a in MappingsOf(s, p)
      ensures LeafSlot(s, a.0, a.1).Some? && LeafSlot(s, a.0, a.1).value in RefSlots(s, p)
    {
      PairHasSlot(s, p, a);
    }
    var m := map a | a in MappingsOf(s, p) :: LeafSlot(s, a.0, a.1).value;
    forall a, b | a in m && b in m && m[a] == m[b] ensures a == b {
      LeafSlotInjective(s, None, a.0, a.1, b.0, b.1);
    }
    BijectionCard(m);
    assert m.Keys == MappingsOf(s, p);
    assert m.Values == RefSlots(s, p) by {
      forall x | x in RefSlots(s, p) ensures x in m.Values {
        var a := SlotHasPair(s, p, x);
        assert m[a] == x;
      }
    }
  }
}
