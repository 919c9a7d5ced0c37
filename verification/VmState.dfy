/** The virtual-memory state of pmap.c as a value, and the operations of pmap.c as functions on it.

    Physical memory is seen through the page-table entries it holds: `ents` maps a slot (a page
    frame and an index into its 1024 words) to the entry stored there when the word has PTE_P set;
    a slot outside `ents` holds a word without PTE_P.  A `pte_t *` is a slot.  `free` is the
    intrusive free list read off in list order.  The functions are total: where the C code would
    panic in KADDR or pa2page they do something arbitrary, and `VmInvariant` shows that under the
    invariant those pages are always in range.

    The last five components record the role each page plays. */
module VmState {
  import opened Wrappers

  const NPTENTRIES: nat := 1024
  const USER_PDES: nat := 955       // PDX(UTOP)
  const UVPT_PDE: nat := 957        // PDX(UVPT)
  const USER_VPNS: nat := 955 * 1024 // UTOP / PGSIZE
  const NVPNS: nat := 1024 * 1024
  const TABLE_FLAGS: nat := 7       // PTE_P | PTE_U | PTE_W
  const SELF_FLAGS: nat := 5        // PTE_P | PTE_U

  datatype Slot = Slot(frame: nat, idx: nat)
  datatype Ent = Ent(page: nat, flags: nat)
  datatype Xlate = Xlate(pde: Ent, pte: Ent)

  datatype Vm = Vm(
    refs: seq<int>,          // pages[i].pp_ref
    free: seq<nat>,          // page_free_list
    ents: map<Slot, Ent>,    // words of physical memory that have PTE_P set
    cr3: nat,                // frame of the page directory in use
    tlb: map<nat, Xlate>,    // translations the processor may have cached for cr3
    pool: set<nat>,          // pages that page_init put under page_alloc's control
    kern: nat,               // frame of kern_pgdir
    dirs: set<nat>,          // page directories of live environments
    tables: set<nat>,        // page tables for addresses below UTOP
    ktables: set<nat>)       // page tables for addresses above UTOP

  function Roots(s: Vm): set<nat> { s.dirs + {s.kern} }

  function Pdx(vpn: nat): nat { vpn / 1024 }

  function Ptx(vpn: nat): nat { vpn % 1024 }

  // The two-level walk the processor performs (and check_va2pa imitates).
  function Translate(s: Vm, dir: nat, vpn: nat): Option<Xlate> {
    var d := Slot(dir, Pdx(vpn));
    if d !in s.ents then None
    else
      var t := Slot(s.ents[d].page, Ptx(vpn));
      if t !in s.ents then None else Some(Xlate(s.ents[d], s.ents[t]))
  }

  // -------------------------------------------------------------------------
  // Page allocator
  // -------------------------------------------------------------------------

  function ClearFrame(ents: map<Slot, Ent>, p: nat): map<Slot, Ent> {
    map sl | sl in ents && sl.frame != p :: ents[sl]
  }

  function PageAlloc(s: Vm, zero: bool): (Vm, Option<nat>) {
    if s.free == [] then (s, None)
    else
      var p := s.free[0];
      var ents := if zero then ClearFrame(s.ents, p) else s.ents;
      (s.(free := s.free[1..], ents := ents), Some(p))
  }

  function PageFree(s: Vm, p: nat): Vm {
    s.(free := [p] + s.free)
  }

  function RefIn(refs: seq<int>, p: nat): int {
    if p < |refs| then refs[p] else 0
  }

  function Bump(refs: seq<int>, p: nat, k: int): (r: seq<int>)
    ensures |r| == |refs|
    ensures forall q :: RefIn(r, q) == RefIn(refs, q) + if q == p && p < |refs| then k else 0
  {
    if p < |refs| then refs[p := refs[p] + k] else refs
  }

  function Ref(s: Vm, p: nat): int { RefIn(s.refs, p) }

  function AddRef(s: Vm, p: nat, k: int): Vm {
    s.(refs := Bump(s.refs, p, k))
  }

  function PageDecref(s: Vm, p: nat): (s': Vm)
    ensures s'.ents == s.ents && s'.tlb == s.tlb && s'.cr3 == s.cr3
    ensures s'.(refs := s.refs, free := s.free) == s
    ensures s'.refs == Bump(s.refs, p, -1)
    ensures s'.free == if RefIn(s'.refs, p) == 0 then [p] + s.free else s.free
  {
    var s1 := AddRef(s, p, -1);
    if Ref(s1, p) == 0 then PageFree(s1, p) else s1
  }

  // -------------------------------------------------------------------------
  // Page tables
  // -------------------------------------------------------------------------

  function NewTable(s: Vm, dir: nat, d: nat, p: nat): Vm {
    var s1 := AddRef(s, p, 1);
    s1.(ents := s1.ents[Slot(dir, d) := Ent(p, TABLE_FLAGS)],
        tables := if d < USER_PDES then s.tables + {p} else s.tables,
        ktables := if d < USER_PDES then s.ktables else s.ktables + {p})
  }

  function Walk(s: Vm, dir: nat, vpn: nat, create: bool): (Vm, Option<Slot>) {
    var d := Slot(dir, Pdx(vpn));
    if d in s.ents then (s, Some(Slot(s.ents[d].page, Ptx(vpn))))
    else if !create then (s, None)
    else
      var (s1, pg) := PageAlloc(s, true);
      match pg
      case None => (s1, None)
      case Some(p) => (NewTable(s1, dir, Pdx(vpn), p), Some(Slot(p, Ptx(vpn))))
  }

  function Lookup(s: Vm, dir: nat, vpn: nat): Option<Slot> {
    var (_, slot) := Walk(s, dir, vpn, false);
    if slot.None? || slot.value !in s.ents then None else slot
  }

  function Invlpg(s: Vm, vpn: nat): Vm {
    s.(tlb := s.tlb - {vpn})
  }

  function Lcr3(s: Vm, dir: nat): Vm {
    s.(cr3 := dir, tlb := map[])
  }

  function Remove(s: Vm, dir: nat, vpn: nat): Vm {
    match Lookup(s, dir, vpn)
    case None => s
    case Some(sl) =>
      var s1 := PageDecref(s, s.ents[sl].page);
      Invlpg(s1.(ents := s1.ents - {sl}), vpn)
  }

  // `flags` is perm | PTE_P.  The boolean is true for return value 0, false for -E_NO_MEM.
  function Insert(s: Vm, dir: nat, p: nat, vpn: nat, flags: nat): (Vm, bool) {
    var (s1, slot) := Walk(s, dir, vpn, true);
    match slot
    case None => (s1, false)
    case Some(sl) =>
      var s2 := AddRef(s1, p, 1);
      var s3 := if sl in s2.ents then Remove(s2, dir, vpn) else s2;
      (s3.(ents := s3.ents[sl := Ent(p, flags)]), true)
  }

  // -------------------------------------------------------------------------
  // Address spaces of environments (env.c)
  // -------------------------------------------------------------------------

  // memcpy of one page of memory onto another, seen through its present entries.
  function CopyFrame(ents: map<Slot, Ent>, src: nat, dst: nat): map<Slot, Ent> {
    var copied := set sl | sl in ents && sl.frame == src :: Slot(dst, sl.idx);
    map sl | sl in ents.Keys + copied && (sl.frame == dst ==> Slot(src, sl.idx) in ents) ::
      if sl.frame == dst then ents[Slot(src, sl.idx)] else ents[sl]
  }

  lemma InCopy(ents: map<Slot, Ent>, src: nat, dst: nat, sl: Slot)
    ensures sl in CopyFrame(ents, src, dst) <==> if sl.frame == dst then Slot(src, sl.idx) in ents else sl in ents
  {
    if sl.frame == dst && Slot(src, sl.idx) in ents {
      var copied := set a | a in ents && a.frame == src :: Slot(dst, a.idx);
      assert Slot(dst, Slot(src, sl.idx).idx) in copied;
    }
  }

  lemma CopyIs(was: map<Slot, Ent>, now: map<Slot, Ent>, src: nat, dst: nat)
    requires forall sl: Slot :: sl in now <==> if sl.frame == dst then Slot(src, sl.idx) in was else sl in was
    requires forall sl: Slot :: sl in now ==> now[sl] == was[if sl.frame == dst then Slot(src, sl.idx) else sl]
    ensures now == CopyFrame(was, src, dst)
  {
    forall sl: Slot ensures sl in CopyFrame(was, src, dst) <==> sl in now {
      InCopy(was, src, dst, sl);
    }
  }

  // env_setup_vm; None is its panic when no page is left.
  function EnvSetup(s: Vm): (Vm, Option<nat>) {
    var (s1, pg) := PageAlloc(s, true);
    match pg
    case None => (s1, None)
    case Some(p) =>
      var s2 := AddRef(s1, p, 1);
      var ents := CopyFrame(s2.ents, s2.kern, p)[Slot(p, UVPT_PDE) := Ent(p, SELF_FLAGS)];
      (s2.(ents := ents, dirs := s2.dirs + {p}), Some(p))
  }

  // The loop of region_alloc over the pages [vpn, end); None is its panic.
  function RegionAlloc(s: Vm, dir: nat, vpn: nat, end: nat): Option<Vm>
    decreases end - vpn
  {
    if vpn >= end then Some(s)
    else
      var (s1, pg) := PageAlloc(s, false);
      if pg.None? then None
      else RegionAlloc(Insert(s1, dir, pg.value, vpn, TABLE_FLAGS).0, dir, vpn + 1, end)
  }

  // env_free's inner loop: unmap the entries of table t, which hangs from entry d of dir.
  function UnmapTable(s: Vm, dir: nat, d: nat, t: nat, j: nat): Vm
    decreases NPTENTRIES - j
  {
    if j >= NPTENTRIES then s
    else
      var s1 := if Slot(t, j) in s.ents then Remove(s, dir, d * NPTENTRIES + j) else s;
      UnmapTable(s1, dir, d, t, j + 1)
  }

  // One round of env_free's outer loop on a present entry.
  function FreeTable(s: Vm, dir: nat, d: nat, t: nat): Vm {
    var s1 := UnmapTable(s, dir, d, t, 0);
    PageDecref(s1.(ents := s1.ents - {Slot(dir, d)}, tables := s1.tables - {t}), t)
  }

  function FreeUser(s: Vm, dir: nat, d: nat): Vm
    decreases USER_PDES - d
  {
    if d >= USER_PDES then s
    else if Slot(dir, d) !in s.ents then FreeUser(s, dir, d + 1)
    else FreeUser(FreeTable(s, dir, d, s.ents[Slot(dir, d)].page), dir, d + 1)
  }

  // env_free for an environment whose directory is dir; `current` is e == curenv.
  function EnvFree(s: Vm, dir: nat, current: bool): Vm {
    var s0 := if current then Lcr3(s, s.kern) else s;
    var s1 := FreeUser(s0, dir, 0);
    PageDecref(s1.(dirs := s1.dirs - {dir}), dir)
  }
}
