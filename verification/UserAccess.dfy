/** When user_mem_check answers as its comment promises: for which ranges and permissions, over all states
    the kernel can be in. */
module UserAccess {
  import opened Wrappers
  import opened Bits
  import opened Mmu
  import opened VmState
  import opened VmInvariant
  import opened AddressSpace
  import opened Translation
  import opened Lifetime
  import opened Runs
  import opened BootMap
  import opened Isolation
  import opened SomeStates
  import opened UserMem

  const UVPT_VPN: nat := 957 * 1024

  // The page is below ULIM, and the tables give it permission: PTE_P, PTE_W and PTE_U count at both levels,
  // as for the processor.
  ghost predicate Allowed(s: Vm, dir: nat, v: nat, perm: nat) {
    && v < ULIM_VPN && Translate(s, dir, v).Some?
    && HasBitsOf(Translate(s, dir, v).value.pde.flags, perm % 8)
    && HasBitsOf(Translate(s, dir, v).value.pte.flags, perm)
  }

  // user_mem_check returns 0 (see Machine.UserMemCheck); and it should.
  ghost predicate Accepts(s: Vm, dir: nat, va: Word, len: Word, perm: nat) {
    forall v: nat :: FirstPage(va) <= v < EndPage(va, len) ==> PageOk(s, dir, v, perm)
  }

  ghost predicate ShouldAccept(s: Vm, dir: nat, va: Word, len: Word, perm: nat) {
    forall v: nat :: FirstPage(va) <= v < TrueEnd(va, len) ==> Allowed(s, dir, v, perm)
  }

  // -------------------------------------------------------------------------
  // Flags
  // -------------------------------------------------------------------------

  lemma {:induction false} AndAtMost(x: nat, y: nat)
    ensures And(x, y) <= x
    decreases x
  {
    if x != 0 && y != 0 {
      AndAtMost(x / 2, y / 2);
    }
  }

  lemma BitsOfSeven(perm: nat)
    ensures HasBitsOf(TABLE_FLAGS, perm) <==> perm < 8
    ensures HasBitsOf(USER_RO, perm) <==> perm == 0 || perm == 1 || perm == 4 || perm == 5
  {
    AndCovers(7, perm);
    AndCovers(5, perm);
    AndAtMost(7, perm);
    AndAtMost(5, perm);
    if perm < 8 {
      SmallAnds(perm);
    }
  }

  lemma SmallAnds(perm: nat)
    requires perm < 8
    ensures And(7, perm) == perm
    ensures And(5, perm) == perm <==> perm == 0 || perm == 1 || perm == 4 || perm == 5
  {
    hide And;
    var a, b := perm / 2, perm / 4;
    assert a / 2 == b;
    AndStep(7, perm);
    AndStep(5, perm);
    AndStep(3, a);
    AndStep(2, a);
    AndStep(1, b);
    AndZero(b / 2);
  }

  lemma FlagsCover(perm: nat)
    requires perm < 0x1000
    ensures HasBitsOf(Flags(perm), perm)
  {
    FlagsRange(perm);
    forall k: nat | Bit(perm, k) ensures Bit(Flags(perm), k) {
      if k > 0 {
        assert Flags(perm) / 2 == perm / 2;
      }
    }
  }

  // -------------------------------------------------------------------------
  // What the leaf entries of a page can be
  // -------------------------------------------------------------------------

  // The flags user_mem_check sees at a page above UTOP, if it sees any.
  lemma LeafAbove(s: Vm, dir: nat, v: nat)
    requires Kernel(s) && dir in Roots(s) && USER_VPNS <= v < ULIM_VPN
    ensures Pdx(v) == 955 || Pdx(v) == 956 ==> Leaf(s, dir, v).Some? && Leaf(s, dir, v).value.flags == USER_RO
    ensures Pdx(v) == 957 && v != UVPT_VPN + 957 && Leaf(s, dir, v).Some? ==>
        Leaf(s, dir, v).value.flags == TABLE_FLAGS
    ensures v == UVPT_VPN + 957 ==> Leaf(s, dir, v).Some? && Leaf(s, dir, v).value.flags == SELF_FLAGS
    ensures v == UVPT_VPN + 958 ==> Leaf(s, dir, v) == None
    ensures Pdx(v) == 957 ==> (Leaf(s, dir, v).Some? <==> Slot(dir, v - UVPT_VPN) in s.ents)
    ensures UVPT_VPN + 959 <= v || v == UVPT_VPN + 955 || v == UVPT_VPN + 956 ==> Leaf(s, dir, v).Some?
    ensures Pdx(v) == 955 || Pdx(v) == 956 || Pdx(v) == 957
  {
    if Pdx(v) == 957 {
      WindowLeaf(s, dir, v);
    } else {
      KernelLeaf(s, dir, v);
    }
  }

  lemma KernelLeaf(s: Vm, dir: nat, v: nat)
    requires Kernel(s) && dir in Roots(s) && KernelVpn(v)
    ensures AsMapped(v, Leaf(s, dir, v))
  {
    SharedLeaf(s, dir, v);
    assert KernelMaps(s);
    hide Inv, KernUserEmpty, AsMapped;
  }

  // The UVPT window shows the directory's own words.
  lemma WindowLeaf(s: Vm, dir: nat, v: nat)
    requires Kernel(s) && dir in Roots(s) && Pdx(v) == 957
    ensures var sl := Slot(dir, v - UVPT_VPN);
      && Leaf(s, dir, v) == (if sl in s.ents then Some(s.ents[sl]) else None)
      && (sl in s.ents ==> s.ents[sl].flags == if sl.idx == 957 then SELF_FLAGS else TABLE_FLAGS)
      && (sl.idx >= USER_PDES ==> (sl in s.ents <==> KernelEntry(sl.idx)))
  {
    assert Ptx(v) == v - UVPT_VPN;
    SelfMap(s, dir);
    DirectoryWord(s, dir, v - UVPT_VPN);
    hide Kernel;
  }

  lemma SelfMap(s: Vm, dir: nat)
    requires Kernel(s) && dir in Roots(s)
    ensures Slot(dir, UVPT_PDE) in s.ents && s.ents[Slot(dir, UVPT_PDE)] == Ent(dir, SELF_FLAGS)
  {
    assert KernelHalf(s);
    hide Shaped;
  }

  lemma DirectoryWord(s: Vm, dir: nat, d: nat)
    requires Kernel(s) && dir in Roots(s) && d < NPTENTRIES
    ensures Slot(dir, d) in s.ents && d != 957 ==> s.ents[Slot(dir, d)].flags == TABLE_FLAGS
    ensures d >= USER_PDES ==> (Slot(dir, d) in s.ents <==> KernelEntry(d))
  {
    assert KernelHalf(s) && (dir != s.kern ==> dir in s.dirs);
    assert KernelMaps(s) && UserTables(s);
    hide Inv, KernUserEmpty;
    if d >= USER_PDES && d != 957 {
      assert Slot(dir, d) in s.ents <==> Slot(s.kern, d) in s.ents;
    }
  }

  // -------------------------------------------------------------------------
  // Page by page
  // -------------------------------------------------------------------------

  // perm asks for PTE_W and for nothing a page-table entry of the kernel does not have.
  predicate AsksWrite(perm: nat) { perm < 8 && perm % 4 >= 2 }

  // A page of the UVPT window that shows a page table: its entry has PTE_W, the directory's self-map
  // does not.
  predicate ShowsTable(v: nat) { UVPT_VPN <= v < ULIM_VPN && v != UVPT_VPN + 957 && v != UVPT_VPN + 958 }

  lemma PageAnswer(s: Vm, dir: nat, v: nat, perm: nat)
    requires Kernel(s) && dir in Roots(s) && perm < 0x1000
    ensures Allowed(s, dir, v, perm) ==> PageOk(s, dir, v, perm)
    ensures PageOk(s, dir, v, perm) && !Allowed(s, dir, v, perm) <==>
            AsksWrite(perm) && ShowsTable(v) && Slot(dir, v - UVPT_VPN) in s.ents
  {
    hide HasBitsOf, Kernel;
    if Leaf(s, dir, v).Some? && v < ULIM_VPN {
      BitsOfSeven(perm);
      BitsOfSeven(perm % 8);
      EntryFlags(s, dir, v);
      if v >= USER_VPNS {
        LeafAbove(s, dir, v);
      }
    } else if v < ULIM_VPN && v >= USER_VPNS {
      LeafAbove(s, dir, v);
    }
  }

  // The directory's side of a translation below ULIM.
  lemma EntryFlags(s: Vm, dir: nat, v: nat)
    requires Kernel(s) && dir in Roots(s) && v < ULIM_VPN && Translate(s, dir, v).Some?
    ensures Translate(s, dir, v).value.pde.flags == if Pdx(v) == 957 then SELF_FLAGS else TABLE_FLAGS
  {
    DirectoryWord(s, dir, Pdx(v));
    if Pdx(v) == 957 {
      SelfMap(s, dir);
    }
    hide Kernel;
  }

  // -------------------------------------------------------------------------
  // Range by range
  // -------------------------------------------------------------------------

  // Some state after boot has an entry at page v with all of perm.
  predicate MayAccept(v: nat, perm: nat) {
    || v < USER_VPNS
    || (v < UVPT_VPN && perm < 8 && !AsksWrite(perm))
    || (ShowsTable(v) && perm < 8)
    || (v == UVPT_VPN + 957 && perm < 8 && !AsksWrite(perm))
  }

  // Every state after boot does.
  predicate AlwaysAccepts(v: nat, perm: nat) {
    MayAccept(v, perm) && v >= USER_VPNS && !(UVPT_VPN <= v < UVPT_VPN + USER_PDES)
  }

  // Ranges and permissions for which user_mem_check is right.  An empty range should be accepted, but at an
  // address inside a page that page is looked at.  A range whose rounding wraps is cut down to at most its
  // first page, and should be refused: right if that page is looked at and never accepted.  Otherwise only
  // writes to nothing but shown page tables are misjudged.
  predicate RightRange(va: Word, len: Word, perm: nat) {
    var first, end := FirstPage(va), EndPage(va, len);
    if len == 0 then va % PGSIZE == 0 || Wraps(va, 0) || AlwaysAccepts(first, perm)
    else if Wraps(va, len) then first < end && !MayAccept(first, perm)
    else !(AsksWrite(perm) && UVPT_VPN <= first < end <= ULIM_VPN
           && (end <= UVPT_VPN + 957 || first > UVPT_VPN + 958))
  }

  lemma AcceptedPage(s: Vm, dir: nat, v: nat, perm: nat)
    requires Kernel(s) && dir in Roots(s) && perm < 0x1000 && PageOk(s, dir, v, perm)
    ensures v < ULIM_VPN && MayAccept(v, perm)
    ensures AsksWrite(perm) ==> v < USER_VPNS || ShowsTable(v)
  {
    BitsOfSeven(perm);
    hide Kernel, HasBitsOf;
    if v >= USER_VPNS {
      LeafAbove(s, dir, v);
    }
  }

  lemma RangeAnswer(s: Vm, dir: nat, va: Word, len: Word, perm: nat)
    requires Kernel(s) && dir in Roots(s) && perm < 0x1000 && RightRange(va, len, perm)
    ensures Accepts(s, dir, va, len, perm) <==> ShouldAccept(s, dir, va, len, perm)
  {
    Bounds(va, len);
    hide Kernel, PageOk, Allowed, FirstPage, EndPage, TrueEnd, MayAccept;
    var first, end := FirstPage(va), EndPage(va, len);
    if len == 0 {
      EmptyRange(va);
      if AlwaysAccepts(first, perm) {
        AcceptedAlways(s, dir, first, perm);
      }
    } else if Wraps(va, len) {
      TopRefused(s, dir, perm);
      if PageOk(s, dir, first, perm) {
        AcceptedPage(s, dir, first, perm);
      }
      assert 0xF_FFFF < TrueEnd(va, len);
    } else {
      forall v: nat | first <= v < end && Accepts(s, dir, va, len, perm) ensures Allowed(s, dir, v, perm) {
        PageAnswer(s, dir, v, perm);
        if AsksWrite(perm) && ShowsTable(v) {
          Edges(s, dir, va, len, perm, v);
        }
      }
      forall v: nat | first <= v < end && ShouldAccept(s, dir, va, len, perm) ensures PageOk(s, dir, v, perm) {
        PageAnswer(s, dir, v, perm);
      }
    }
  }

  lemma EmptyRange(va: Word)
    ensures TrueEnd(va, 0) == FirstPage(va)
  {}

  lemma AcceptedAlways(s: Vm, dir: nat, v: nat, perm: nat)
    requires Kernel(s) && dir in Roots(s) && AlwaysAccepts(v, perm) && perm < 0x1000
    ensures PageOk(s, dir, v, perm)
  {
    hide Kernel;
    if ShowsTable(v) {
      DirectoryWord(s, dir, v - UVPT_VPN);
    }
    AcceptedAbove(s, dir, v, perm);
  }

  // A state without page tables below UTOP accepts nothing else.
  lemma RefusedWithout(s: Vm, dir: nat, v: nat, perm: nat)
    requires Kernel(s) && dir in Roots(s) && !AlwaysAccepts(v, perm) && perm < 0x1000
    requires forall d: nat :: d < USER_PDES ==> Slot(dir, d) !in s.ents
    ensures !PageOk(s, dir, v, perm)
  {
    hide Kernel, HasBitsOf;
    if PageOk(s, dir, v, perm) {
      AcceptedPage(s, dir, v, perm);
    }
    if v >= USER_VPNS && v < ULIM_VPN {
      LeafAbove(s, dir, v);
    }
  }

  lemma TopRefused(s: Vm, dir: nat, perm: nat)
    ensures !Allowed(s, dir, 0xF_FFFF, perm)
  {}

  // A range accepted for writing that contains a shown page table contains nothing else.
  lemma Edges(s: Vm, dir: nat, va: Word, len: Word, perm: nat, v: nat)
    requires Kernel(s) && dir in Roots(s) && perm < 0x1000 && Accepts(s, dir, va, len, perm)
    requires AsksWrite(perm) && ShowsTable(v) && FirstPage(va) <= v < EndPage(va, len)
    ensures var first, end := FirstPage(va), EndPage(va, len);
      UVPT_VPN <= first < end <= ULIM_VPN && (end <= UVPT_VPN + 957 || first > UVPT_VPN + 958)
  {
    hide Kernel, PageOk, FirstPage, EndPage, MayAccept;
    var first, end := FirstPage(va), EndPage(va, len);
    forall x: nat | first <= x < end ensures x < ULIM_VPN && (x < USER_VPNS || ShowsTable(x)) {
      AcceptedPage(s, dir, x, perm);
    }
    assert !ShowsTable(UVPT_VPN - 1) && !ShowsTable(UVPT_VPN + 957) && !ShowsTable(UVPT_VPN + 958)
        && !ShowsTable(ULIM_VPN);
  }

  // -------------------------------------------------------------------------
  // States that show it
  // -------------------------------------------------------------------------

  // One that maps page v with perm.
  lemma SomeMapping(v: nat, perm: nat) returns (s: Vm, dir: nat)
    requires v < USER_VPNS && perm < 0x1000
    ensures Kernel(s) && dir in s.dirs && PageOk(s, dir, v, perm)
  {
    var s0;
    s0, dir := SomeTables(1, USER_PDES);
    var p, s1 := s0.free[0], PageAlloc(s0, false).0;
    StepKernel(s0, AllocPage(false));
    HeadIsData(s0);
    hide Kernel, Insert, Inv;
    FlagsCover(perm);
    assert Slot(dir, Pdx(v)) in s1.ents;
    s := MapHead(s1, dir, p, v, Flags(perm));
    hide HasBitsOf, Leaf;
  }

  lemma MapHead(s: Vm, dir: nat, p: nat, v: nat, flags: nat) returns (s': Vm)
    requires Kernel(s) && dir in s.dirs && IsData(s, p) && p !in s.free && v < USER_VPNS
        && Slot(dir, Pdx(v)) in s.ents
    ensures Kernel(s') && dir in s'.dirs && Leaf(s', dir, v) == Some(Ent(p, flags))
  {
    hide Shaped, KernUserEmpty, Leaf, InvPinned;
    StepKernel(s, MapPage(dir, p, v, flags));
    InsertUpdatesMap(s, dir, p, v, flags);
    s' := Insert(s, dir, p, v, flags).0;
    InsertOnlyDir(s, dir, p, v, flags);
    OnlyDirDirs(s, s', dir);
  }

  // user_mem_check is right in every state after boot exactly for the ranges and permissions of RightRange.
  lemma RightAnswerIff(va: Word, len: Word, perm: nat)
    requires perm < 0x1000
    ensures (forall s, dir :: Kernel(s) && dir in s.dirs ==>
               (Accepts(s, dir, va, len, perm) <==> ShouldAccept(s, dir, va, len, perm)))
            <==> RightRange(va, len, perm)
  {
    hide Kernel, Accepts, ShouldAccept, RightRange;
    if RightRange(va, len, perm) {
      forall s, dir | Kernel(s) && dir in s.dirs
        ensures Accepts(s, dir, va, len, perm) <==> ShouldAccept(s, dir, va, len, perm)
      {
        RangeAnswer(s, dir, va, len, perm);
      }
    } else {
      var s, dir := WrongSomewhere(va, len, perm);
    }
  }

  lemma WrongSomewhere(va: Word, len: Word, perm: nat) returns (s: Vm, dir: nat)
    requires perm < 0x1000 && !RightRange(va, len, perm)
    ensures Kernel(s) && dir in s.dirs && !(Accepts(s, dir, va, len, perm) <==> ShouldAccept(s, dir, va, len, perm))
  {
    Bounds(va, len);
    EmptyRange(va);
    hide Kernel, PageOk, Allowed, FirstPage, EndPage, TrueEnd;
    var first, end := FirstPage(va), EndPage(va, len);
    if len == 0 {
      s, dir := SomeKernel(0);
      RefusedWithout(s, dir, first, perm);
    } else if Wraps(va, len) && first < end && first < USER_VPNS {
      s, dir := SomeMapping(first, perm);
      TopRefused(s, dir, perm);
      assert 0xF_FFFF < TrueEnd(va, len);
    } else {
      s, dir := SomeTables(0, USER_PDES);
      if Wraps(va, len) {
        TopRefused(s, dir, perm);
        assert 0xF_FFFF < TrueEnd(va, len);
        if first < end {
          if ShowsTable(first) {
            TablesShown(s, dir, first);
          }
          AcceptedAbove(s, dir, first, perm);
        }
      } else {
        forall v: nat | first <= v < end ensures PageOk(s, dir, v, perm) && !Allowed(s, dir, v, perm) {
          TablesShown(s, dir, v);
          PageAnswer(s, dir, v, perm);
        }
        assert !Allowed(s, dir, first, perm);
      }
    }
  }

  lemma TablesShown(s: Vm, dir: nat, v: nat)
    requires Kernel(s) && dir in s.dirs && ShowsTable(v) && forall d: nat :: d < USER_PDES ==> Slot(dir, d) in s.ents
    ensures Slot(dir, v - UVPT_VPN) in s.ents
  {
    if v - UVPT_VPN >= USER_PDES {
      DirectoryWord(s, dir, v - UVPT_VPN);
    }
    hide Kernel;
  }

  lemma AcceptedAbove(s: Vm, dir: nat, v: nat, perm: nat)
    requires Kernel(s) && dir in Roots(s) && (ShowsTable(v) ==> Slot(dir, v - UVPT_VPN) in s.ents)
    requires v >= USER_VPNS && MayAccept(v, perm) && perm < 0x1000
    ensures PageOk(s, dir, v, perm)
  {
    hide Kernel, HasBitsOf;
    BitsOfSeven(perm);
    LeafAbove(s, dir, v);
  }

  // A range from the user stack to the top of the address space is accepted in every state, and should be
  // accepted in none.
  lemma WrapExample(s: Vm, dir: nat, perm: nat)
    ensures Accepts(s, dir, 0xEEBF_D000, 0x1140_2FFF, perm) && !ShouldAccept(s, dir, 0xEEBF_D000, 0x1140_2FFF, perm)
  {
    WrappedBounds();
    TopRefused(s, dir, perm);
  }

  // An empty range at an address inside a page not mapped is refused, and should not be.
  lemma EmptyExample(s: Vm, dir: nat, perm: nat)
    requires Leaf(s, dir, 1) == None
    ensures !Accepts(s, dir, 0x1001, 0, perm) && ShouldAccept(s, dir, 0x1001, 0, perm)
  {
    assert FirstPage(0x1001) == 1 && EndPage(0x1001, 0) == 2 && TrueEnd(0x1001, 0) == 1;
    hide Leaf;
    assert !PageOk(s, dir, 1, perm);
  }

  // In every environment the window's pages for UPAGES are accepted for writing, which the processor will
  // not allow.
  lemma WindowExample(s: Vm, dir: nat)
    requires Kernel(s) && dir in s.dirs
    ensures var va := (UVPT_VPN + 956) * PGSIZE;
      Accepts(s, dir, va, PGSIZE, PTE_U + PTE_W) && !ShouldAccept(s, dir, va, PGSIZE, PTE_U + PTE_W)
  {
    var va := (UVPT_VPN + 956) * PGSIZE;
    Bounds(va, PGSIZE);
    PageAnswer(s, dir, UVPT_VPN + 956, PTE_U + PTE_W);
    DirectoryWord(s, dir, 956);
    hide Kernel, PageOk, Allowed;
  }
}
