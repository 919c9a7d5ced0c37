/** Address spaces of environments: env_setup_vm and env_free keep the invariant, env_free gives back
    exactly what the environment alone held, and a whole lifetime restores the free pages. */
module AddressSpace {
  import opened Wrappers
  import opened VmState
  import opened VmInvariant

  ghost predicate KernUserEmpty(s: Vm) {
    forall sl :: sl in s.ents && sl.frame == s.kern ==> sl.idx >= USER_PDES
  }

  // -------------------------------------------------------------------------
  // env_setup_vm
  // -------------------------------------------------------------------------

  function Installed(s: Vm, p: nat): Vm {
    s.(refs := Bump(s.refs, p, 1),
       ents := CopyFrame(s.ents, s.kern, p)[Slot(p, UVPT_PDE) := Ent(p, SELF_FLAGS)],
       dirs := s.dirs + {p})
  }

  ghost predicate Blank(s: Vm, p: nat) {
    && IsData(s, p) && p !in s.free && Ref(s, p) == 0
    && (forall sl :: sl in s.ents ==> sl.frame != p)
  }

  lemma InstalledEnts(s: Vm, p: nat)
    requires Roles(s) && Layered(s) && KernelHalf(s) && Blank(s, p) && KernUserEmpty(s)
    ensures var s' := Installed(s, p);
      && (forall sl: Slot :: sl.frame != p ==>
          (sl in s'.ents <==> sl in s.ents) && (sl in s.ents ==> s'.ents[sl] == s.ents[sl]))
      && (forall sl :: sl in s'.ents && sl.frame == p ==> USER_PDES <= sl.idx < NPTENTRIES)
      && (forall i :: i != UVPT_PDE ==>
            (Slot(p, i) in s'.ents <==> Slot(s.kern, i) in s.ents)
            && (Slot(p, i) in s'.ents ==> s'.ents[Slot(p, i)] == s.ents[Slot(s.kern, i)]))
  {
    forall sl: Slot
      ensures sl in CopyFrame(s.ents, s.kern, p) <==>
              if sl.frame == p then Slot(s.kern, sl.idx) in s.ents else sl in s.ents
    {
      InCopy(s.ents, s.kern, p, sl);
    }
  }

  // The shape of memory after the copy.
  ghost predicate CopiedTo(s: Vm, s': Vm, p: nat) {
    && (forall sl: Slot :: sl.frame != p ==>
          (sl in s'.ents <==> sl in s.ents) && (sl in s.ents ==> s'.ents[sl] == s.ents[sl]))
    && (forall sl :: sl in s'.ents && sl.frame == p ==> USER_PDES <= sl.idx < NPTENTRIES)
    && (forall i :: i != UVPT_PDE ==>
          (Slot(p, i) in s'.ents <==> Slot(s.kern, i) in s.ents)
          && (Slot(p, i) in s'.ents ==> s'.ents[Slot(p, i)] == s.ents[Slot(s.kern, i)]))
    && Slot(p, UVPT_PDE) in s'.ents && s'.ents[Slot(p, UVPT_PDE)] == Ent(p, SELF_FLAGS)
    && s' == s.(refs := s'.refs, ents := s'.ents, dirs := s.dirs + {p}) && s'.refs == Bump(s.refs, p, 1)
  }

  lemma InstalledCopied(s: Vm, p: nat)
    requires Roles(s) && Layered(s) && KernelHalf(s) && Blank(s, p) && KernUserEmpty(s)
    ensures CopiedTo(s, Installed(s, p), p)
  {
    InstalledEnts(s, p);
    hide CopyFrame, Layered, KernelHalf;
  }

  lemma InstalledLayered(s: Vm, s': Vm, p: nat)
    requires Roles(s) && Layered(s) && IsData(s, p) && CopiedTo(s, s', p)
    requires forall sl :: sl in s.ents && Live(s, sl) ==> s.ents[sl].page != p
    ensures Layered(s')
  {}

  lemma InstalledKernelHalf(s: Vm, s': Vm, p: nat)
    requires Roles(s) && KernelHalf(s) && IsData(s, p) && CopiedTo(s, s', p)
    ensures KernelHalf(s')
  {}

  lemma InstalledLayers(s: Vm, p: nat)
    requires Roles(s) && FreeList(s) && Layered(s) && KernelHalf(s) && Blank(s, p) && KernUserEmpty(s)
    requires forall sl :: sl in s.ents && Live(s, sl) ==> s.ents[sl].page != p
    ensures var s' := Installed(s, p); Roles(s') && FreeList(s') && Layered(s') && KernelHalf(s')
  {
    hide CopyFrame, Layered, KernelHalf, CopiedTo, KernUserEmpty;
    var s' := Installed(s, p);
    InstalledCopied(s, p);
    InstalledLayered(s, s', p);
    InstalledKernelHalf(s, s', p);
  }

  lemma InstalledRefs(s: Vm, p: nat, q: nat)
    requires Roles(s) && Layered(s) && KernelHalf(s) && Blank(s, p) && KernUserEmpty(s)
    ensures RefSlots(Installed(s, p), q) == RefSlots(s, q)
  {
    InstalledEnts(s, p);
    hide CopyFrame;
    var s' := Installed(s, p);
    forall sl ensures sl in RefSlots(s', q) <==> sl in RefSlots(s, q) {
    }
  }

  lemma InstalledCounts(s: Vm, p: nat)
    requires Inv(s) && Blank(s, p) && KernUserEmpty(s)
    ensures Counts(Installed(s, p), None)
  {
    var s' := Installed(s, p);
    forall q | q in s.pool ensures Ref(s', q) == Owed(s', q, None) {
      InstalledRefs(s, p, q);
      assert Ref(s, q) == Owed(s, q, None);
    }
  }

  lemma EnvSetupInv(s: Vm)
    requires Inv(s) && KernUserEmpty(s)
    ensures var (s', r) := EnvSetup(s);
      && Inv(s')
      && (r.Some? ==> r.value in s.free && r.value !in s'.free && s'.dirs == s.dirs + {r.value})
  {
    if s.free != [] {
      AllocInv(s, true);
      var (s1, r) := PageAlloc(s, true);
      var p := r.value;
      FreeUnnamed(s1, None, p);
      InstalledCounts(s1, p);
      InstalledLayers(s1, p);
      assert p in s.free;
    }
  }

  // -------------------------------------------------------------------------
  // env_free
  // -------------------------------------------------------------------------

  ghost function TablesFrom(s: Vm, dir: nat, d: nat): set<nat> {
    set sl | sl in s.ents && sl.frame == dir && d <= sl.idx < USER_PDES :: s.ents[sl].page
  }

  // The page tables below UTOP of one directory.
  ghost function TablesOf(s: Vm, dir: nat): set<nat> { TablesFrom(s, dir, 0) }

  // Memory without dir's entries from d on and without the tables they name.
  ghost function Torn(s: Vm, dir: nat, d: nat): map<Slot, Ent> {
    map sl | sl in s.ents && !(sl.frame == dir && d <= sl.idx < USER_PDES)
        && sl.frame !in TablesFrom(s, dir, d) :: s.ents[sl]
  }

  // Going from s to s' only drops references, and frees exactly the pages whose count reached zero.
  ghost predicate Released(s: Vm, s': Vm) {
    && s'.pool == s.pool && s'.kern == s.kern && s'.ktables == s.ktables && |s'.refs| == |s.refs|
    && (forall p :: p in s.pool ==> 0 <= Ref(s', p) <= Ref(s, p))
    && (forall p :: p in s.pool ==> (p in s'.free <==> p in s.free || Ref(s', p) == 0 < Ref(s, p)))
  }

  lemma ReleasedTrans(a: Vm, b: Vm, c: Vm)
    requires Released(a, b) && Released(b, c)
    ensures Released(a, c)
  {}

  lemma ReleasedRefl(s: Vm)
    requires Inv(s)
    ensures Released(s, s)
  {
    RefNonNegative(s, None);
  }

  lemma RefNonNegative(s: Vm, pin: Option<nat>)
    requires InvPinned(s, pin)
    ensures forall p :: p in s.pool ==> 0 <= Ref(s, p)
  {
    forall p | p in s.pool ensures 0 <= Ref(s, p) {
      assert Ref(s, p) == Owed(s, p, pin);
    }
  }

  ghost function Without(ents: map<Slot, Ent>, t: nat, j: nat): map<Slot, Ent> {
    map sl | sl in ents && !(sl.frame == t && sl.idx >= j) :: ents[sl]
  }

  ghost predicate Hangs(s: Vm, dir: nat, d: nat, t: nat) {
    dir in Roots(s) && d < USER_PDES && Slot(dir, d) in s.ents && s.ents[Slot(dir, d)].page == t
  }

  lemma UnmappedReleased(s: Vm, sl: Slot, vpn: nat)
    requires UserPte(s, None, sl)
    ensures Released(s, Unmapped(s, sl, vpn))
  {
    var p := s.ents[sl].page;
    RefNonNegative(s, None);
    assert sl in RefSlots(s, p);
    assert |RefSlots(s, p)| > 0;
    assert Ref(s, p) == Owed(s, p, None);
  }

  // s' is s after the entries of t from j on have been unmapped.
  ghost predicate Cleared(s: Vm, s': Vm, t: nat, j: nat) {
    && Released(s, s') && SameRoles(s, s') && s'.cr3 == s.cr3
    && s'.ents == Without(s.ents, t, j)
    && s'.tlb.Keys <= s.tlb.Keys && (forall v :: v in s'.tlb ==> s'.tlb[v] == s.tlb[v])
  }

  function UnmapStep(s: Vm, dir: nat, d: nat, t: nat, j: nat): Vm {
    if Slot(t, j) in s.ents then Remove(s, dir, d * NPTENTRIES + j) else s
  }

  lemma HangsTable(s: Vm, dir: nat, d: nat, t: nat)
    requires Inv(s) && Hangs(s, dir, d, t)
    ensures t in s.tables && t != dir
  {}

  lemma UnmapStepEffect(s: Vm, dir: nat, d: nat, t: nat, j: nat)
    requires Inv(s) && Hangs(s, dir, d, t) && j < NPTENTRIES
    ensures var s1 := UnmapStep(s, dir, d, t, j); Inv(s1) && Hangs(s1, dir, d, t) && Cleared1(s, s1, Slot(t, j))
  {
    hide InvPinned, Released;
    var sl := Slot(t, j);
    var vpn := d * NPTENTRIES + j;
    HangsTable(s, dir, d, t);
    ReleasedRefl(s);
    if sl in s.ents {
      UnmapStepIs(s, dir, d, t, j);
      UnmappedInv(s, None, sl, vpn);
      UnmappedReleased(s, sl, vpn);
    }
  }

  lemma UnmapStepIs(s: Vm, dir: nat, d: nat, t: nat, j: nat)
    requires Inv(s) && Hangs(s, dir, d, t) && j < NPTENTRIES && Slot(t, j) in s.ents
    ensures UnmapStep(s, dir, d, t, j) == Unmapped(s, Slot(t, j), d * NPTENTRIES + j)
  {
    var vpn := d * NPTENTRIES + j;
    LayeredHangs(s, dir, d, t);
    LookupHangs(s, dir, d, t, j);
    hide Inv, Remove, Unmapped, Layered, Lookup;
    LookupUser(s, dir, vpn);
  }

  lemma UserVpn(d: nat, j: nat)
    requires d < USER_PDES && j < NPTENTRIES
    ensures Pdx(d * NPTENTRIES + j) == d && Ptx(d * NPTENTRIES + j) == j && d * NPTENTRIES + j < USER_VPNS
  {}

  lemma LayeredHangs(s: Vm, dir: nat, d: nat, t: nat)
    requires Inv(s) && Hangs(s, dir, d, t)
    ensures Layered(s)
  {}

  lemma LookupHangs(s: Vm, dir: nat, d: nat, t: nat, j: nat)
    requires Hangs(s, dir, d, t) && j < NPTENTRIES && Slot(t, j) in s.ents
    ensures Lookup(s, dir, d * NPTENTRIES + j) == Some(Slot(t, j)) && d * NPTENTRIES + j < USER_VPNS
  {
    hide Pdx, Ptx;
    UserVpn(d, j);
  }

  ghost predicate Cleared1(s: Vm, s1: Vm, sl: Slot) {
    && Released(s, s1) && SameRoles(s, s1) && s1.cr3 == s.cr3
    && s1.ents == s.ents - {sl}
    && s1.tlb.Keys <= s.tlb.Keys && (forall v :: v in s1.tlb ==> s1.tlb[v] == s.tlb[v])
  }

  lemma ClearedStep(s: Vm, s1: Vm, s': Vm, t: nat, j: nat)
    requires Cleared1(s, s1, Slot(t, j)) && Cleared(s1, s', t, j + 1)
    ensures Cleared(s, s', t, j)
  {
    ReleasedTrans(s, s1, s');
    assert Without(s1.ents, t, j + 1) == Without(s.ents, t, j);
  }

  lemma ClearedDone(s: Vm, t: nat)
    requires Inv(s)
    ensures Cleared(s, s, t, NPTENTRIES)
  {
    ReleasedRefl(s);
    assert Without(s.ents, t, NPTENTRIES) == s.ents;
  }

  lemma {:induction false} UnmapTableEffect(s: Vm, dir: nat, d: nat, t: nat, j: nat)
    requires Inv(s) && Hangs(s, dir, d, t) && j <= NPTENTRIES
    ensures var s' := UnmapTable(s, dir, d, t, j); Inv(s') && Cleared(s, s', t, j)
    decreases NPTENTRIES - j
  {
    if j == NPTENTRIES {
      ClearedDone(s, t);
    } else {
      hide Inv, Cleared, Released, Hangs;
      UnmapStepEffect(s, dir, d, t, j);
      var s1 := UnmapStep(s, dir, d, t, j);
      UnmapTableEffect(s1, dir, d, t, j + 1);
      ClearedStep(s, s1, UnmapTable(s1, dir, d, t, j + 1), t, j);
    }
  }

  // s1 with table t, empty by now, unhooked from entry d of dir and its last reference dropped.
  function Unhooked(s: Vm, dir: nat, d: nat, t: nat): Vm {
    PageDecref(s.(ents := s.ents - {Slot(dir, d)}, tables := s.tables - {t}), t)
  }

  ghost predicate Emptied(s: Vm, dir: nat, d: nat, t: nat) {
    Inv(s) && Hangs(s, dir, d, t) && forall sl :: sl in s.ents ==> sl.frame != t
  }

  ghost predicate SoleParent(s: Vm, dir: nat, d: nat, t: nat) {
    && Slot(dir, d) in s.ents && s.ents[Slot(dir, d)].page == t && Live(s, Slot(dir, d))
    && (forall sl :: sl in s.ents && Live(s, sl) && s.ents[sl].page == t ==> sl == Slot(dir, d))
    && (forall sl :: sl in s.ents ==> sl.frame != t)
  }

  lemma EmptiedSole(s: Vm, dir: nat, d: nat, t: nat)
    requires Emptied(s, dir, d, t)
    ensures SoleParent(s, dir, d, t)
  {
    forall sl | sl in s.ents && Live(s, sl) && s.ents[sl].page == t ensures sl == Slot(dir, d) {
      OneParent(s, None, sl, Slot(dir, d));
    }
  }

  lemma UnhookedRefs(s: Vm, dir: nat, d: nat, t: nat, q: nat)
    requires SoleParent(s, dir, d, t)
    ensures RefSlots(Unhooked(s, dir, d, t), q) == if q == t then {} else RefSlots(s, q)
  {
    var s' := Unhooked(s, dir, d, t);
    assert forall sl :: sl in s'.ents ==> (Live(s', sl) <==> Live(s, sl));
    assert forall sl :: sl in RefSlots(s', q) <==> sl in (if q == t then {} else RefSlots(s, q));
  }

  lemma UnhookedCounts(s: Vm, dir: nat, d: nat, t: nat)
    requires Emptied(s, dir, d, t)
    ensures Counts(Unhooked(s, dir, d, t), None)
    ensures Ref(s, t) == 1
  {
    var s' := Unhooked(s, dir, d, t);
    HangsTable(s, dir, d, t);
    EmptiedSole(s, dir, d, t);
    forall q | q in s.pool ensures Ref(s', q) == Owed(s', q, None) {
      UnhookedRefs(s, dir, d, t, q);
      assert Ref(s, q) == Owed(s, q, None);
    }
  }

  lemma UnhookedLayers(s: Vm, dir: nat, d: nat, t: nat)
    requires Roles(s) && Layered(s) && KernelHalf(s) && FreeList(s) && Hangs(s, dir, d, t) && Ref(s, t) == 1
    requires SoleParent(s, dir, d, t)
    ensures var s' := Unhooked(s, dir, d, t); Roles(s') && FreeList(s') && Layered(s') && KernelHalf(s')
  {
    UnhookedTree(s, dir, d, t);
    UnhookedFree(s, dir, d, t);
    hide FreeList, Layered, KernelHalf, SoleParent;
  }

  lemma UnhookedFree(s: Vm, dir: nat, d: nat, t: nat)
    requires Roles(s) && FreeList(s) && t in s.tables && Ref(s, t) == 1
    ensures FreeList(Unhooked(s, dir, d, t))
  {}

  lemma UnhookedTree(s: Vm, dir: nat, d: nat, t: nat)
    requires Roles(s) && Layered(s) && KernelHalf(s) && Hangs(s, dir, d, t) && SoleParent(s, dir, d, t)
    ensures var s' := Unhooked(s, dir, d, t); Layered(s') && KernelHalf(s') && t in s.tables
  {}

  lemma UnhookedInv(s: Vm, dir: nat, d: nat, t: nat)
    requires Emptied(s, dir, d, t)
    ensures Inv(Unhooked(s, dir, d, t))
  {
    UnhookedCounts(s, dir, d, t);
    EmptiedSole(s, dir, d, t);
    UnhookedLayers(s, dir, d, t);
  }

  ghost predicate Shrunk(s: Vm, s': Vm) {
    && Released(s, s') && s'.cr3 == s.cr3
    && s'.tlb.Keys <= s.tlb.Keys && (forall v :: v in s'.tlb ==> s'.tlb[v] == s.tlb[v])
  }

  lemma ShrunkTrans(a: Vm, b: Vm, c: Vm)
    requires Shrunk(a, b) && Shrunk(b, c)
    ensures Shrunk(a, c)
  {}

  lemma UnhookedReleased(s: Vm, dir: nat, d: nat, t: nat)
    requires Inv(s) && Ref(s, t) == 1
    ensures Released(s, Unhooked(s, dir, d, t))
  {
    RefNonNegative(s, None);
  }

  // One round of the outer loop takes table t out of memory and out of dir.
  ghost predicate Round(s: Vm, s': Vm, dir: nat, d: nat, t: nat) {
    && Shrunk(s, s') && s'.dirs == s.dirs && s'.tables == s.tables - {t}
    && s'.ents == map sl | sl in s.ents && sl != Slot(dir, d) && sl.frame != t :: s.ents[sl]
  }

  lemma FreeTableEffect(s: Vm, dir: nat, d: nat, t: nat)
    requires Inv(s) && Hangs(s, dir, d, t)
    ensures var s' := FreeTable(s, dir, d, t); Inv(s') && Round(s, s', dir, d, t)
  {
    hide Inv, Cleared, Round, Emptied, Hangs;
    UnmapTableEffect(s, dir, d, t, 0);
    var s1 := UnmapTable(s, dir, d, t, 0);
    HangsTable(s, dir, d, t);
    ClearedEmptied(s, s1, dir, d, t);
    UnhookedInv(s1, dir, d, t);
    UnhookedCounts(s1, dir, d, t);
    UnhookedReleased(s1, dir, d, t);
    RoundEnds(s, s1, dir, d, t);
  }

  lemma ClearedEmptied(s: Vm, s1: Vm, dir: nat, d: nat, t: nat)
    requires Inv(s1) && Hangs(s, dir, d, t) && t != dir && Cleared(s, s1, t, 0)
    ensures Emptied(s1, dir, d, t)
  {
    hide Inv, Released;
  }

  lemma RoundEnds(s: Vm, s1: Vm, dir: nat, d: nat, t: nat)
    requires Cleared(s, s1, t, 0) && Released(s1, Unhooked(s1, dir, d, t))
    ensures Round(s, Unhooked(s1, dir, d, t), dir, d, t)
  {
    ShrunkTrans(s, s1, Unhooked(s1, dir, d, t));
    hide Released;
  }

  // The outer loop from entry d on.
  ghost predicate TornFrom(s: Vm, s': Vm, dir: nat, d: nat) {
    && Shrunk(s, s') && s'.dirs == s.dirs && s'.tables == s.tables - TablesFrom(s, dir, d)
    && s'.ents == Torn(s, dir, d)
  }

  lemma TablesFromStep(s: Vm, dir: nat, d: nat)
    requires d < USER_PDES
    ensures TablesFrom(s, dir, d) ==
            TablesFrom(s, dir, d + 1) + if Slot(dir, d) in s.ents then {s.ents[Slot(dir, d)].page} else {}
  {
    forall p | p in TablesFrom(s, dir, d) && p !in TablesFrom(s, dir, d + 1)
      ensures Slot(dir, d) in s.ents && p == s.ents[Slot(dir, d)].page
    {
      var sl :| sl in s.ents && sl.frame == dir && d <= sl.idx < USER_PDES && s.ents[sl].page == p;
      assert sl == Slot(dir, sl.idx);
    }
    if Slot(dir, d) in s.ents {
      assert Slot(dir, d).frame == dir;
    }
  }

  lemma TornStep(s: Vm, s1: Vm, s': Vm, dir: nat, d: nat, t: nat)
    requires Hangs(s, dir, d, t) && t != dir && Round(s, s1, dir, d, t)
    requires TornFrom(s1, s', dir, d + 1)
    ensures TornFrom(s, s', dir, d)
  {
    ShrunkTrans(s, s1, s');
    TablesFromStep(s, dir, d);
    assert TablesFrom(s1, dir, d + 1) == TablesFrom(s, dir, d + 1) by {
      assert forall sl :: sl in s.ents && sl.frame == dir && d + 1 <= sl.idx ==>
          sl in s1.ents && s1.ents[sl] == s.ents[sl];
    }
    assert Torn(s1, dir, d + 1) == Torn(s, dir, d) by {
      forall sl: Slot | sl.frame == dir && d <= sl.idx < USER_PDES
        ensures sl == Slot(dir, d) || d + 1 <= sl.idx
      {}
    }
  }

  lemma {:induction false} FreeUserEffect(s: Vm, dir: nat, d: nat)
    requires Inv(s) && dir in Roots(s) && d <= USER_PDES
    ensures var s' := FreeUser(s, dir, d); Inv(s') && TornFrom(s, s', dir, d)
    decreases USER_PDES - d
  {
    hide Inv, Shrunk, Torn, Round, TornFrom;
    if d == USER_PDES {
      TornDone(s, dir);
    } else if Slot(dir, d) !in s.ents {
      FreeUserEffect(s, dir, d + 1);
      TornSkip(s, FreeUser(s, dir, d + 1), dir, d);
    } else {
      var t := s.ents[Slot(dir, d)].page;
      FreeTableEffect(s, dir, d, t);
      HangsTable(s, dir, d, t);
      var s1 := FreeTable(s, dir, d, t);
      RoundRoots(s, s1, dir, d, t);
      FreeUserEffect(s1, dir, d + 1);
      TornStep(s, s1, FreeUser(s1, dir, d + 1), dir, d, t);
    }
  }

  lemma RoundRoots(s: Vm, s1: Vm, dir: nat, d: nat, t: nat)
    requires Round(s, s1, dir, d, t)
    ensures Roots(s1) == Roots(s)
  {}

  lemma TornDone(s: Vm, dir: nat)
    requires Inv(s)
    ensures TornFrom(s, s, dir, USER_PDES)
  {
    ReleasedRefl(s);
    hide Inv, Released;
    assert TablesFrom(s, dir, USER_PDES) == {};
    assert Torn(s, dir, USER_PDES) == s.ents;
  }

  lemma TornSkip(s: Vm, s': Vm, dir: nat, d: nat)
    requires d < USER_PDES && Slot(dir, d) !in s.ents && TornFrom(s, s', dir, d + 1)
    ensures TornFrom(s, s', dir, d)
  {
    TablesFromStep(s, dir, d);
    hide Shrunk;
    forall sl: Slot | sl in s.ents && sl.frame == dir && d <= sl.idx < USER_PDES ensures d + 1 <= sl.idx {
      assert sl == Slot(dir, sl.idx);
    }
    assert Torn(s, dir, d + 1) == Torn(s, dir, d);
  }

  // A directory whose user half is empty loses its role and its one reference.
  function Retired(s: Vm, dir: nat): Vm {
    PageDecref(s.(dirs := s.dirs - {dir}), dir)
  }

  ghost predicate Bare(s: Vm, dir: nat) {
    && dir in s.dirs && s.cr3 != dir
    && forall sl :: sl in s.ents && sl.frame == dir ==> sl.idx >= USER_PDES
  }

  lemma RetiredRefs(s: Vm, dir: nat, q: nat)
    requires Roles(s) && Bare(s, dir)
    ensures RefSlots(Retired(s, dir), q) == RefSlots(s, q)
  {
    var s' := Retired(s, dir);
    assert forall sl :: sl in s.ents ==> (Live(s', sl) <==> Live(s, sl));
  }

  // No live slot names a page directory.
  lemma DirUnnamed(s: Vm, dir: nat)
    requires Inv(s) && dir in s.dirs
    ensures RefSlots(s, dir) == {} && Ref(s, dir) == 1
  {
    assert Ref(s, dir) == Owed(s, dir, None);
    assert RefSlots(s, dir) == {};
  }

  lemma RetiredCounts(s: Vm, dir: nat)
    requires Inv(s) && Bare(s, dir)
    ensures Counts(Retired(s, dir), None)
  {
    var s' := Retired(s, dir);
    DirUnnamed(s, dir);
    forall q | q in s.pool ensures Ref(s', q) == Owed(s', q, None) {
      RetiredRefs(s, dir, q);
      assert Ref(s, q) == Owed(s, q, None);
    }
  }

  lemma RetiredLayers(s: Vm, dir: nat)
    requires Roles(s) && Layered(s) && KernelHalf(s) && FreeList(s) && Bare(s, dir) && Ref(s, dir) == 1
    ensures var s' := Retired(s, dir); Roles(s') && FreeList(s') && Layered(s') && KernelHalf(s')
  {
    RetiredFree(s, dir);
    RetiredTree(s, dir);
    hide FreeList, Layered, KernelHalf;
  }

  lemma RetiredFree(s: Vm, dir: nat)
    requires Roles(s) && FreeList(s) && dir in s.dirs && Ref(s, dir) == 1
    ensures FreeList(Retired(s, dir))
  {}

  lemma RetiredTree(s: Vm, dir: nat)
    requires Roles(s) && Layered(s) && KernelHalf(s) && Bare(s, dir)
    ensures var s' := Retired(s, dir); Layered(s') && KernelHalf(s')
  {}

  lemma RetiredInv(s: Vm, dir: nat)
    requires Inv(s) && Bare(s, dir)
    ensures Inv(Retired(s, dir)) && Released(s, Retired(s, dir))
  {
    DirUnnamed(s, dir);
    RetiredCounts(s, dir);
    RetiredLayers(s, dir);
    RefNonNegative(s, None);
    assert dir in s.pool && dir < |s.refs|;
    hide Inv, Counts, Layered, KernelHalf, FreeList, Roles;
  }

  ghost predicate CanFree(s: Vm, dir: nat, current: bool) {
    dir in s.dirs && (current || s.cr3 != dir)
  }

  lemma Lcr3Inv(s: Vm, dir: nat)
    requires Inv(s) && dir in Roots(s)
    ensures Inv(Lcr3(s, dir))
  {
    Lcr3Counts(s, dir);
    Lcr3Layers(s, dir);
    hide Roles, FreeList, Layered, KernelHalf, Counts;
  }

  lemma Lcr3Layers(s: Vm, dir: nat)
    requires Roles(s) && FreeList(s) && Layered(s) && KernelHalf(s) && dir in Roots(s)
    ensures var s' := Lcr3(s, dir); Roles(s') && FreeList(s') && Layered(s') && KernelHalf(s')
  {}

  lemma Lcr3Counts(s: Vm, dir: nat)
    requires Counts(s, None)
    ensures Counts(Lcr3(s, dir), None)
  {
    var s' := Lcr3(s, dir);
    forall q | q in s.pool ensures Ref(s', q) == Owed(s', q, None) {
      SameLiveRefs(s, s', q);
      assert Ref(s, q) == Owed(s, q, None);
    }
  }

  // env_free drops references only, frees exactly the pages whose last reference it held, and leaves
  // in memory exactly the entries outside the environment's directory and page tables.
  lemma EnvFreeEffect(s: Vm, dir: nat, current: bool)
    requires Inv(s) && CanFree(s, dir, current)
    ensures var s' := EnvFree(s, dir, current);
      && Inv(s') && Released(s, s')
      && s'.ents == Torn(s, dir, 0) && s'.tables == s.tables - TablesOf(s, dir) && s'.dirs == s.dirs - {dir}
      && s'.cr3 == (if current then s.kern else s.cr3)
      && (current ==> s'.tlb == map[])
      && s'.tlb.Keys <= s.tlb.Keys && (forall v :: v in s'.tlb ==> s'.tlb[v] == s.tlb[v])
  {
    var s0 := if current then Lcr3(s, s.kern) else s;
    Lcr3Inv(s, s.kern);
    FreeUserEffect(s0, dir, 0);
    var s1 := FreeUser(s0, dir, 0);
    BareAfter(s0, s1, dir);
    RetiredInv(s1, dir);
    EnvFreeEnds(s, s0, s1, Retired(s1, dir), dir);
  }

  lemma BareAfter(s: Vm, s': Vm, dir: nat)
    requires dir in s.dirs && s.cr3 != dir && TornFrom(s, s', dir, 0)
    ensures Bare(s', dir)
  {}

  lemma EnvFreeEnds(s: Vm, s0: Vm, s1: Vm, s2: Vm, dir: nat)
    requires s0 == s || s0 == Lcr3(s, s.kern)
    requires TornFrom(s0, s1, dir, 0) && s2 == Retired(s1, dir) && Released(s1, s2)
    ensures Released(s, s2)
      && s2.ents == Torn(s, dir, 0) && s2.tables == s.tables - TablesOf(s, dir) && s2.dirs == s.dirs - {dir}
      && s2.cr3 == s0.cr3
      && s2.tlb.Keys <= s0.tlb.Keys && (forall v :: v in s2.tlb ==> s2.tlb[v] == s0.tlb[v])
  {
    ReleasedTrans(s0, s1, s2);
    assert Released(s, s2);
    hide Released;
  }
}
