/** pmap.c and the memory side of env.c as they run: page records, free-list links and page-table
    words updated in place.  Each method is proved to do to the abstract state `View()` what the
    function of the same name in VmState does.  The translation cache is kept apart from View: at the
    calls of `Fills` the processor caches what it likes, and `CacheOk` says that nothing in it is stale. */
module Machine {
  import opened Wrappers
  import opened Bits
  import opened Mmu
  import opened FreeLists
  import opened VmState
  import opened VmInvariant
  import opened AddressSpace
  import opened Translation
  import opened Lifetime
  import opened BootMap
  import opened FreeListSort
  import opened FreeListCheck
  import opened UserMem
  import opened BootMemory
  import opened BootCost
  import opened MicroSteps
  import opened Runs
  import opened Isolation

  const E_NO_MEM: int := 4
  const FILL: Word := 0x9797_9797   // four of the bytes check_page_free_list writes

  ghost function AllSlots(npages: nat): set<Slot> {
    set f, i | 0 <= f < npages && 0 <= i < NPTENTRIES :: Slot(f, i)
  }

  function Decode(w: Word): Ent {
    Ent(PGNUM(PTE_ADDR(w)), PGOFF(w))
  }

  // Memory is the same outside the frames fs.
  ghost predicate SameBut(was: map<Slot, Ent>, now: map<Slot, Ent>, fs: set<nat>) {
    forall sl: Slot :: sl.frame !in fs ==> (sl in now <==> sl in was) && (sl in was ==> now[sl] == was[sl])
  }

  function Listed(q: seq<nat>): set<nat> { set p | p in q }

  // What check_page_free_list has found on the part of the list it has walked.
  ghost predicate Checked(q: seq<nat>, firstFree: Word, base: int, extended: int) {
    && (forall p :: p in q ==> ListedOk(p, firstFree))
    && base >= 0 && (base > 0 <==> exists p :: p in q && p < EXT_PAGE)
    && extended >= 0 && (extended > 0 <==> exists p :: p in q && p >= EXT_PAGE)
  }

  lemma CheckedStep(q: seq<nat>, n: nat, firstFree: Word, base: int, extended: int)
    requires n < |q| && Checked(q[..n], firstFree, base, extended)
    ensures ListedOk(q[n], firstFree) ==>
              if q[n] >= EXT_PAGE then Checked(q[..n + 1], firstFree, base, extended + 1)
              else Checked(q[..n + 1], firstFree, base + 1, extended)
    ensures CheckPasses(q, firstFree) ==> ListedOk(q[n], firstFree)
  {
    hide ListedOk;
    var a, b := q[..n], q[..n + 1];
    assert b == a + [q[n]] && q[n] in q && q[n] in b;
    assert forall p :: p in b <==> p in a || p == q[n];
    assert (exists p :: p in a && p < EXT_PAGE) ==> exists p :: p in b && p < EXT_PAGE;
    assert (exists p :: p in a && p >= EXT_PAGE) ==> exists p :: p in b && p >= EXT_PAGE;
  }

  lemma ChainAt(head: Option<nat>, q: seq<nat>, links: seq<Option<nat>>, n: nat)
    requires Chain(head, q, links)
    ensures head == At(q, 0)
    ensures n < |q| ==> q[n] < |links| && links[q[n]] == At(q, n + 1)
  {}

  lemma NoneMarked(ents: map<Slot, Ent>, fs: set<nat>)
    ensures SameBut(ents, ents, fs)
  {}

  lemma SameTwice(a: map<Slot, Ent>, b: map<Slot, Ent>, c: map<Slot, Ent>, p: nat, fs: set<nat>)
    requires SameBut(a, b, fs) && SameBut(b, c, {p}) && p in fs
    ensures SameBut(a, c, fs)
  {}

  lemma NothingFirst(limit: nat)
    ensures LowFirst([], [], limit) && Low([], limit) + High([], limit) == []
  {
    assert SplitAt([], 0, limit);
  }

  lemma NullFails(q: seq<nat>, firstFree: Word)
    ensures q == [] ==> !CheckPasses(q, firstFree)
  {}

  lemma ListedPages(head: Option<nat>, q: seq<nat>, links: seq<Option<nat>>)
    requires Chain(head, q, links)
    ensures forall p :: p in q ==> p < |links|
  {}

  lemma ChainHead(head: Option<nat>, q: seq<nat>, links: seq<Option<nat>>)
    requires Chain(head, q, links)
    ensures head.None? <==> q == []
  {}

  // The reordered list has the same pages.
  lemma SameListed(q: seq<nat>, limit: nat, firstFree: Word)
    ensures forall p :: p in Low(q, limit) + High(q, limit) <==> p in q
    ensures CheckPasses(Low(q, limit) + High(q, limit), firstFree) <==> CheckPasses(q, firstFree)
    ensures Listed(Low(q, limit) + High(q, limit)) == Listed(q)
  {
    forall p ensures p in Low(q, limit) + High(q, limit) <==> p in q {
      SelectMember(q, LowTest(limit), p);
      SelectMember(q, HighTest(limit), p);
    }
    hide Low, High;
    SamePagesPass(q, Low(q, limit) + High(q, limit), firstFree);
  }

  function Zeroed(words: map<Slot, nat>, p: nat): map<Slot, nat> {
    map sl | sl in words :: if sl.frame == p then 0 else words[sl]
  }

  // What pgdir_walk with create leaves in memory: a zeroed page for the missing table, and the entry
  // page2pa(pg) | PTE_P | PTE_U | PTE_W that names it.
  function WalkedWords(words: map<Slot, nat>, s: Vm, dir: nat, vpn: nat): map<Slot, nat> {
    if Slot(dir, Pdx(vpn)) in s.ents || s.free == [] then words
    else Zeroed(words, s.free[0])[Slot(dir, Pdx(vpn)) := s.free[0] * 0x1000 + 7]
  }

  lemma WalkCases(words: map<Slot, nat>, s: Vm, pin: Option<nat>, dir: nat, vpn: nat)
    requires InvPinned(s, pin) && |s.refs| <= 0x10_0000
    ensures var (s1, pg) := VmState.PageAlloc(s, true);
      if Slot(dir, Pdx(vpn)) in s.ents then
        && Walk(s, dir, vpn, true) == (s, Some(Slot(s.ents[Slot(dir, Pdx(vpn))].page, Ptx(vpn))))
        && WalkedWords(words, s, dir, vpn) == words
      else if pg.None? then Walk(s, dir, vpn, true) == (s1, None) && WalkedWords(words, s, dir, vpn) == words
      else
        && pg.value < |s.refs|
        && Walk(s, dir, vpn, true) == (NewTable(s1, dir, Pdx(vpn), pg.value), Some(Slot(pg.value, Ptx(vpn))))
        && WalkedWords(words, s, dir, vpn) ==
           Zeroed(words, pg.value)[Slot(dir, Pdx(vpn)) := pg.value * 0x1000 + 7]
  {
    hide InvPinned;
    if s.free != [] {
      FirstFree(s, pin);
    }
  }

  // What page_insert leaves: the walk's page table, and w at the entry for the page.
  function InsertedWords(words: map<Slot, nat>, s: Vm, dir: nat, vpn: nat, w: nat): map<Slot, nat> {
    var (_, pte) := Walk(s, dir, vpn, true);
    if pte.None? then words else WalkedWords(words, s, dir, vpn)[pte.value := w]
  }

  lemma InsertedCases(words: map<Slot, nat>, s: Vm, dir: nat, vpn: nat, w: nat)
    requires InvPinned(s, None) && |s.refs| <= 0x10_0000
    ensures var pte := Walk(s, dir, vpn, true).1;
      if pte.None? then InsertedWords(words, s, dir, vpn, w) == words == WalkedWords(words, s, dir, vpn)
      else InsertedWords(words, s, dir, vpn, w) == WalkedWords(words, s, dir, vpn)[pte.value := w]
  {
    hide InvPinned, Walk, WalkedWords;
    WalkCases(words, s, None, dir, vpn);
  }

  // What page_remove leaves.
  function RemovedWords(words: map<Slot, nat>, s: Vm, dir: nat, vpn: nat): map<Slot, nat> {
    var pte := Lookup(s, dir, vpn);
    if pte.None? then words else words[pte.value := 0]
  }

  // Whatever has been mapped meanwhile, a word without PTE_P is what it was, or 0 in a page that has
  // become a table.
  ghost predicate Grown(s: Vm, was: map<Slot, nat>, s': Vm, now: map<Slot, nat>) {
    && s.tables <= s'.tables && s.ktables <= s'.ktables && now.Keys == was.Keys
    && forall sl :: sl in was ==>
         IsPresent(now[sl]) || now[sl] == if sl.frame in AllTables(s') - AllTables(s) then 0 else was[sl]
  }

  ghost function AllTables(s: Vm): set<nat> { s.tables + s.ktables }

  // Entries were cleared and nothing else was written.
  ghost predicate OnlyCleared(was: map<Slot, nat>, now: map<Slot, nat>) {
    && now.Keys == was.Keys
    && forall sl :: sl in was ==> now[sl] == was[sl] || (IsPresent(was[sl]) && now[sl] == 0)
  }

  lemma GrownNot(s: Vm, words: map<Slot, nat>)
    ensures Grown(s, words, s, words)
  {}

  lemma GrownKeys(s: Vm, was: map<Slot, nat>, s1: Vm, now: map<Slot, nat>)
    requires Grown(s, was, s1, now)
    ensures now.Keys == was.Keys
  {}

  lemma GrownTaken(s: Vm, words: map<Slot, nat>)
    ensures Grown(s, words, VmState.PageAlloc(s, false).0, words)
  {}

  lemma GrownTwice(s: Vm, a: map<Slot, nat>, s1: Vm, b: map<Slot, nat>, s2: Vm, c: map<Slot, nat>)
    requires Grown(s, a, s1, b) && Grown(s1, b, s2, c)
    ensures Grown(s, a, s2, c)
  {
    hide IsPresent;
  }

  lemma GrownWalk(words: map<Slot, nat>, s: Vm, pin: Option<nat>, dir: nat, vpn: nat)
    requires InvPinned(s, pin) && |s.refs| <= 0x10_0000 && Slot(dir, Pdx(vpn)) in words
    ensures Grown(s, words, Walk(s, dir, vpn, true).0, WalkedWords(words, s, dir, vpn))
  {
    hide InvPinned, IsPresent, WalkedWords, Walk, Zeroed;
    WalkCases(words, s, pin, dir, vpn);
    if Slot(dir, Pdx(vpn)) !in s.ents && s.free != [] {
      FirstFree(s, pin);
      GrownTable(s, words, dir, Pdx(vpn), s.free[0]);
    } else {
      assert Grown(s, words, s, words);
    }
  }

  lemma GrownTable(s: Vm, words: map<Slot, nat>, dir: nat, d: nat, p: nat)
    requires p < 0x10_0000 && p !in AllTables(s) && Slot(dir, d) in words
    ensures Grown(s, words, NewTable(VmState.PageAlloc(s, true).0, dir, d, p),
                  Zeroed(words, p)[Slot(dir, d) := p * 0x1000 + 7])
  {
    WordFields(p, 7);
    hide IsPresent, Bump, ClearFrame;
  }

  lemma FirstFree(s: Vm, pin: Option<nat>)
    requires InvPinned(s, pin) && s.free != []
    ensures s.free[0] < |s.refs| && s.free[0] !in AllTables(s)
  {
    assert s.free[0] in s.free;
    assert Roles(s) && FreeList(s);
    hide InvPinned, Layered, Counts;
  }

  lemma GrownStore(s: Vm, a: map<Slot, nat>, s1: Vm, b: map<Slot, nat>, s2: Vm, sl: Slot, w: nat)
    requires Grown(s, a, s1, b) && sl in b && IsPresent(w) && s2.tables == s1.tables && s2.ktables == s1.ktables
    ensures Grown(s, a, s2, b[sl := w])
  {
    hide IsPresent;
  }

  lemma GrownInsert(words: map<Slot, nat>, s: Vm, dir: nat, p: nat, vpn: nat)
    requires CanInsert(s, dir, p, vpn) && |s.refs| <= 0x10_0000 && words.Keys == AllSlots(|s.refs|)
    ensures Grown(s, words, Insert(s, dir, p, vpn, TABLE_FLAGS).0,
                  InsertedWords(words, s, dir, vpn, p * 0x1000 + TABLE_FLAGS))
  {
    hide *;
    InsertParts(s, dir, p, vpn);
    InsertKeepsTables(s, dir, p, vpn, TABLE_FLAGS);
    var (s1, pte) := Walk(s, dir, vpn, true);
    var s2, now := Insert(s, dir, p, vpn, TABLE_FLAGS).0, WalkedWords(words, s, dir, vpn);
    InsertedCases(words, s, dir, vpn, p * 0x1000 + TABLE_FLAGS);
    GrownWalked(words, s, dir, vpn);
    if pte.Some? {
      TableEntry(p);
      GrownStore(s, words, s1, now, s2, pte.value, p * 0x1000 + TABLE_FLAGS);
    }
  }

  lemma TableEntry(p: nat)
    requires p < 0x10_0000
    ensures IsPresent(p * 0x1000 + TABLE_FLAGS)
  {
    WordFields(p, TABLE_FLAGS);
  }

  lemma GrownWalked(words: map<Slot, nat>, s: Vm, dir: nat, vpn: nat)
    requires InvPinned(s, None) && dir in Roots(s) && Pdx(vpn) < NPTENTRIES
    requires |s.refs| <= 0x10_0000 && words.Keys == AllSlots(|s.refs|)
    ensures var (s1, pte) := Walk(s, dir, vpn, true);
      var now := WalkedWords(words, s, dir, vpn);
      Grown(s, words, s1, now) && (pte.Some? ==> pte.value in now)
  {
    hide InvPinned, Walk, WalkedWords, Grown;
    DirInRange(s, None, dir, Pdx(vpn));
    GrownWalk(words, s, None, dir, vpn);
    WalkedInRange(s, None, dir, vpn);
    GrownKeys(s, words, Walk(s, dir, vpn, true).0, WalkedWords(words, s, dir, vpn));
  }

  lemma ClearedNot(words: map<Slot, nat>)
    ensures OnlyCleared(words, words)
  {}

  lemma ClearedTwice(a: map<Slot, nat>, b: map<Slot, nat>, c: map<Slot, nat>)
    requires OnlyCleared(a, b) && OnlyCleared(b, c)
    ensures OnlyCleared(a, c)
  {
    hide IsPresent;
  }

  lemma ClearedOne(words: map<Slot, nat>, sl: Slot)
    requires sl in words && IsPresent(words[sl])
    ensures OnlyCleared(words, words[sl := 0])
  {
    hide IsPresent;
  }

  lemma InsertParts(s: Vm, dir: nat, p: nat, vpn: nat)
    requires CanInsert(s, dir, p, vpn)
    ensures InvPinned(s, None) && dir in Roots(s) && p < |s.refs| && Pdx(vpn) < NPTENTRIES
  {
    hide Layered, Counts, KernelHalf;
  }

  lemma WalkedInRange(s: Vm, pin: Option<nat>, dir: nat, vpn: nat)
    requires InvPinned(s, pin) && dir in Roots(s)
    ensures var pte := Walk(s, dir, vpn, true).1;
      pte.Some? ==> pte.value.frame < |s.refs| && pte.value.idx < NPTENTRIES
  {
    DirInRange(s, pin, dir, Pdx(vpn));
    hide InvPinned;
    if s.free != [] {
      FirstFree(s, pin);
    }
  }

  lemma InsertKeepsTables(s: Vm, dir: nat, p: nat, vpn: nat, flags: nat)
    ensures var (s1, s2) := (Walk(s, dir, vpn, true).0, Insert(s, dir, p, vpn, flags).0);
      s2.tables == s1.tables && s2.ktables == s1.ktables
      && (Walk(s, dir, vpn, true).1.None? ==> s2 == s1)
  {
    hide Walk, Lookup;
  }

  class Machine {
    const npages: nat
    const ppRef: array<int>             // pages[i].pp_ref
    const ppLink: array<Option<nat>>    // pages[i].pp_link
    const mem: array2<Word>             // physical memory, 1024 words a page
    const kernPgdir: nat
    var freeHead: Option<nat>           // page_free_list
    var cr3: nat
    var userMemCheckAddr: Word
    ghost var free: seq<nat>
    ghost var tlb: map<nat, Xlate>
    ghost var pool: set<nat>
    ghost var dirs: set<nat>
    ghost var tables: set<nat>
    ghost var ktables: set<nat>

    // Memory of n pages with arbitrary contents, nothing on the free list, pages[] not yet written.
    constructor (n: nat, kernPgdir: nat)
      requires n <= 0x10_0000
      ensures Valid() && npages == n && this.kernPgdir == kernPgdir && cr3 == kernPgdir
      ensures freeHead == None && free == [] && tlb == map[] && pool == dirs == tables == ktables == {}
      ensures fresh(ppRef) && fresh(ppLink) && fresh(mem)
    {
      npages := n;
      ppRef := new int[n];
      ppLink := new Option<nat>[n];
      mem := new Word[n, NPTENTRIES];
      this.kernPgdir := kernPgdir;
      freeHead, free, cr3, tlb := None, [], kernPgdir, map[];
      userMemCheckAddr := 0;
      pool, dirs, tables, ktables := {}, {}, {}, {};
    }

    ghost function Ents(): map<Slot, Ent>
      reads mem
      requires mem.Length0 == npages && mem.Length1 == NPTENTRIES
    {
      map sl | sl in AllSlots(npages) && IsPresent(mem[sl.frame, sl.idx]) :: Decode(mem[sl.frame, sl.idx])
    }

    // Every word of physical memory, those without PTE_P included.
    ghost function Words(): map<Slot, nat>
      reads mem
      requires mem.Length0 == npages && mem.Length1 == NPTENTRIES
    {
      map sl | sl in AllSlots(npages) :: mem[sl.frame, sl.idx]
    }

    ghost predicate Linked()
      reads this, ppLink
    {
      Chain(freeHead, free, ppLink[..])
    }

    ghost predicate Valid()
      reads this, ppLink
    {
      && ppRef.Length == ppLink.Length == npages <= 0x10_0000
      && mem.Length0 == npages && mem.Length1 == NPTENTRIES
      && Linked()
    }

    // Everything but the translation cache.
    ghost function View(): Vm
      reads this, ppRef, ppLink, mem
      requires Valid()
    {
      Vm(ppRef[..], free, Ents(), cr3, map[], pool, kernPgdir, dirs, tables, ktables)
    }

    ghost function Full(): Vm
      reads this, ppRef, ppLink, mem
      requires Valid()
    {
      View().(tlb := tlb)
    }

    // No cached translation is stale, but perhaps those of the exposed pages.
    ghost predicate CacheOkBut(exposed: set<nat>)
      reads this, ppRef, ppLink, mem
    {
      Valid() && CoherentBut(Full(), exposed)
    }

    ghost predicate CacheOk()
      reads this, ppRef, ppLink, mem
    {
      CacheOkBut({})
    }

    // The processor caches any translations the tables give at this moment.
    ghost method Fills(exposed: set<nat>)
      requires CacheOkBut(exposed)
      modifies `tlb
      ensures CacheOkBut(exposed)
    {
      var vs: set<nat> := *;
      FillCoherent(Full(), exposed, vs);
      tlb := Fill(Full(), vs).tlb;
    }

    // -----------------------------------------------------------------------
    // Words of memory
    // -----------------------------------------------------------------------

    method Load(sl: Slot) returns (w: Word)
      requires Valid() && sl.frame < npages && sl.idx < NPTENTRIES
      ensures IsPresent(w) <==> sl in Ents()
      ensures IsPresent(w) ==> Ents()[sl] == Decode(w)
    {
      w := mem[sl.frame, sl.idx];
      assert sl in AllSlots(npages);
    }

    method Store(sl: Slot, w: Word)
      requires Valid() && sl.frame < npages && sl.idx < NPTENTRIES
      modifies mem
      ensures Valid()
      ensures Ents() == if IsPresent(w) then old(Ents())[sl := Decode(w)] else old(Ents()) - {sl}
      ensures sl in old(Words()) && Words() == old(Words())[sl := w]
    {
      mem[sl.frame, sl.idx] := w;
      assert sl in AllSlots(npages);
      assert forall a :: a in AllSlots(npages) && a != sl ==> mem[a.frame, a.idx] == old(mem[a.frame, a.idx]);
    }

    // memset(page2kva(p), 0, PGSIZE)
    method ZeroPage(p: nat)
      requires Valid() && p < npages
      modifies mem
      ensures Valid() && Ents() == ClearFrame(old(Ents()), p)
      ensures forall f, j :: 0 <= f < npages && 0 <= j < NPTENTRIES ==>
                mem[f, j] == if f == p then 0 else old(mem[f, j])
      ensures Words() == Zeroed(old(Words()), p)
    {
      var i := 0;
      while i < NPTENTRIES
        invariant 0 <= i <= NPTENTRIES
        invariant forall f, j :: 0 <= f < npages && 0 <= j < NPTENTRIES ==>
                    mem[f, j] == if f == p && j < i then 0 else old(mem[f, j])
      {
        mem[p, i] := 0;
        i := i + 1;
      }
      AndOne(0);
      assert !IsPresent(0);
    }

    // memcpy(page2kva(dst), page2kva(src), PGSIZE)
    method CopyWords(src: nat, dst: nat)
      requires Valid() && src < npages && dst < npages && src != dst
      modifies mem
      ensures forall f, j :: 0 <= f < npages && 0 <= j < NPTENTRIES ==>
                mem[f, j] == if f == dst then old(mem[src, j]) else old(mem[f, j])
    {
      var i := 0;
      while i < NPTENTRIES
        invariant 0 <= i <= NPTENTRIES
        invariant forall f, j :: 0 <= f < npages && 0 <= j < NPTENTRIES ==>
                    mem[f, j] == if f == dst && j < i then old(mem[src, j]) else old(mem[f, j])
      {
        mem[dst, i] := mem[src, i];
        i := i + 1;
      }
    }

    method CopyPage(src: nat, dst: nat)
      requires Valid() && src < npages && dst < npages && src != dst
      modifies mem
      ensures Valid() && Ents() == CopyFrame(old(Ents()), src, dst)
      ensures forall f, j :: 0 <= f < npages && 0 <= j < NPTENTRIES ==>
                mem[f, j] == if f == dst then old(mem[src, j]) else old(mem[f, j])
    {
      ghost var was := Ents();
      CopyWords(src, dst);
      ghost var now := Ents();
      hide IsPresent, Decode;
      forall sl: Slot ensures sl in now <==> if sl.frame == dst then Slot(src, sl.idx) in was else sl in was {
        assert Slot(dst, sl.idx) in AllSlots(npages) <==> Slot(src, sl.idx) in AllSlots(npages);
      }
      CopyIs(was, now, src, dst);
    }

    // -----------------------------------------------------------------------
    // Page allocator
    // -----------------------------------------------------------------------

    method PageAlloc(zero: bool) returns (pp: Option<nat>)
      requires Valid()
      modifies `freeHead, `free, mem
      ensures Valid() && (View(), pp) == VmState.PageAlloc(old(View()), zero)
      ensures pp == old(freeHead) && (pp.Some? ==> pp.value < npages)
      ensures free == if pp.None? then old(free) else old(free)[1..]
      ensures forall f, j :: 0 <= f < npages && 0 <= j < NPTENTRIES ==>
                mem[f, j] == if zero && pp == Some(f) then 0 else old(mem[f, j])
      ensures Words() == if zero && pp.Some? then Zeroed(old(Words()), pp.value) else old(Words())
    {
      if freeHead.Some? {
        var ret := freeHead.value;
        ChainPop(freeHead, free, ppLink[..]);
        freeHead := ppLink[ret];
        free := free[1..];
        if zero {
          ZeroPage(ret);
        }
        return Some(ret);
      }
      return None;
    }

    method PageFree(p: nat)
      requires Valid() && p < npages && p !in free
      modifies `freeHead, `free, ppLink
      ensures Valid() && View() == VmState.PageFree(old(View()), p)
      ensures freeHead == Some(p) && free == [p] + old(free)
    {
      ChainPush(freeHead, free, ppLink[..], p);
      hide Chain;
      ppLink[p] := freeHead;
      freeHead := Some(p);
      free := [p] + free;
      assert ppLink[..] == old(ppLink[..])[p := old(freeHead)];
    }

    // pp->pp_ref++
    method TakeRef(p: nat)
      requires Valid() && p < npages
      modifies ppRef
      ensures Valid() && View() == AddRef(old(View()), p, 1)
    {
      ppRef[p] := ppRef[p] + 1;
      assert ppRef[..] == Bump(old(ppRef[..]), p, 1);
    }

    method PageDecref(p: nat)
      requires Valid() && p < npages && (ppRef[p] == 1 ==> p !in free)
      modifies `freeHead, `free, ppRef, ppLink
      ensures Valid() && View() == VmState.PageDecref(old(View()), p)
    {
      ppRef[p] := ppRef[p] - 1;
      label Dropped:
      assert ppRef[..] == Bump(old(ppRef[..]), p, -1);
      if ppRef[p] == 0 {
        PageFree(p);
      }
    }

    // -----------------------------------------------------------------------
    // Page tables
    // -----------------------------------------------------------------------

    // KADDR and pa2page do not panic: under the invariant every frame met is below npages.
    method PgdirWalk(dir: nat, va: Word, create: bool, ghost pin: Option<nat>) returns (pte: Option<Slot>)
      requires Valid() && InvPinned(View(), pin) && dir in Roots(View())
      modifies `freeHead, `free, `tables, `ktables, ppRef, mem
      ensures Valid() && (View(), pte) == Walk(old(View()), dir, PGNUM(va), create)
      ensures pte.Some? ==> pte.value.frame < npages && pte.value.idx < NPTENTRIES
      ensures !create ==> unchanged(this) && unchanged(ppRef) && unchanged(mem)
      ensures Words() == if create then WalkedWords(old(Words()), old(View()), dir, PGNUM(va)) else old(Words())
    {
      hide InvPinned, IsPresent, WalkedWords, Zeroed, NewTable, ClearFrame, Chain, Ents, Words;
      Fields(va);
      var dindex, tindex := PDX(va), PTX(va);
      WalkCases(Words(), View(), pin, dir, PGNUM(va));
      DirInRange(View(), pin, dir, dindex);
      var pde := Load(Slot(dir, dindex));
      if !IsPresent(pde) {
        if create {
          var pg := PageAlloc(true);
          if pg.None? {
            return None;
          }
          InstallTable(dir, dindex, pg.value);
          return Some(Slot(pg.value, tindex));
        } else {
          return None;
        }
      }
      return Some(Slot(PGNUM(PTE_ADDR(pde)), tindex));
    }

    lemma RemovedCleared(dir: nat, vpn: nat)
      requires Valid()
      ensures OnlyCleared(Words(), RemovedWords(Words(), View(), dir, vpn))
    {
      hide IsPresent, OnlyCleared, Chain;
      ClearedNot(Words());
      var pte := Lookup(View(), dir, vpn);
      if pte.Some? {
        PresentWord(pte.value);
        ClearedOne(Words(), pte.value);
      }
    }

    lemma PresentWord(sl: Slot)
      requires Valid() && sl in Ents()
      ensures sl in Words() && IsPresent(Words()[sl])
    {}

    lemma GrownHere(pin: Option<nat>, dir: nat, va: Word)
      requires Valid() && InvPinned(View(), pin) && dir in Roots(View())
      ensures Grown(View(), Words(), Walk(View(), dir, PGNUM(va), true).0,
                    WalkedWords(Words(), View(), dir, PGNUM(va)))
      ensures Grown(View(), Words(), View(), Words())
    {
      hide InvPinned, IsPresent, Walk, WalkedWords, PGNUM;
      Fields(va);
      DirInRange(View(), pin, dir, PDX(va));
      assert Slot(dir, PDX(va)) in AllSlots(npages);
      GrownWalk(Words(), View(), pin, dir, PGNUM(va));
    }

    // At any address; above UTOP the entry may name a page past npages, on which pa2page panics.
    method PageLookup(dir: nat, va: Word, ghost pin: Option<nat>) returns (pp: Option<nat>, pteStore: Option<Slot>)
      requires Valid() && InvPinned(View(), pin) && dir in Roots(View())
      requires Lookup(View(), dir, PGNUM(va)).Some? ==>
                 Lookup(View(), dir, PGNUM(va)).value in Ents()
                     && Ents()[Lookup(View(), dir, PGNUM(va)).value].page < npages
      modifies `freeHead, `free, `tables, `ktables, ppRef, mem
      ensures unchanged(this) && unchanged(ppRef) && unchanged(mem)
      ensures pteStore == Lookup(View(), dir, PGNUM(va))
      ensures pp == match pteStore { case None => None case Some(sl) => Some(Ents()[sl].page) }
      ensures pteStore.Some? ==> pteStore.value.frame < npages && pteStore.value.idx < NPTENTRIES
    {
      hide InvPinned, IsPresent;
      var pte := PgdirWalk(dir, va, false, pin);
      if pte.None? {
        return None, None;
      }
      var w := Load(pte.value);
      if !IsPresent(w) {
        return None, None;
      }
      return Some(PGNUM(PTE_ADDR(w))), pte;
    }

    // The walk done by hand: the physical address of the page at va, or ~0.
    method CheckVa2pa(dir: nat, va: Word) returns (pa: Word)
      requires Valid() && Inv(View()) && dir in Roots(View())
      ensures pa == match Translate(View(), dir, PGNUM(va)) case None => 0xFFFF_FFFF case Some(x) => x.pte.page * 0x1000
    {
      hide InvPinned, IsPresent, Chain;
      Fields(va);
      DirInRange(View(), None, dir, PDX(va));
      var pde := Load(Slot(dir, PDX(va)));
      if !IsPresent(pde) {
        return 0xFFFF_FFFF;
      }
      var pte := Load(Slot(PGNUM(PTE_ADDR(pde)), PTX(va)));
      if !IsPresent(pte) {
        return 0xFFFF_FFFF;
      }
      AddressOfPage(pte);
      return PTE_ADDR(pte);
    }

    method TlbInvalidate(va: Word)
      requires Valid()
      modifies `tlb
      ensures Valid() && Full() == Invlpg(old(Full()), PGNUM(va)) && View() == old(View())
    {
      tlb := tlb - {PGNUM(va)};
    }

    // Between any two of its accesses the processor may cache the page being removed; the order of the
    // last two is what gets it out again.
    method PageRemove(dir: nat, va: Word, ghost pin: Option<nat>)
      requires Valid() && InvPinned(View(), pin) && dir in Roots(View()) && va < UTOP && CacheOk()
      modifies `freeHead, `free, `tables, `ktables, `tlb, ppRef, ppLink, mem
      ensures Valid() && View() == Remove(old(View()), dir, PGNUM(va)) && CacheOk()
      ensures Words() == RemovedWords(old(Words()), old(View()), dir, PGNUM(va))
    {
      hide InvPinned, Lookup, CoherentBut, IsPresent, PGNUM, Remove, VmState.PageDecref, Chain, Ents, Words;
      Fields(va);
      ghost var s, vpn := View(), PGNUM(va);
      RemoveIs(s, dir, vpn);
      LookupInRange(s, pin, dir, vpn);
      var pg, pte := PageLookup(dir, va, pin);
      if pg.None? {
        return;
      }
      LeafInRange(s, pin, dir, vpn);
      DropRef(pg.value);
      ghost var s1 := View();
      ClearExposes(s, Full(), pin, dir, vpn, pte.value);
      ClearWord(pte.value, vpn);
      assert View() == s1.(ents := s.ents - {pte.value});
      Fills({vpn});
      ghost var t := Full();
      TlbInvalidate(va);
      FlushCovers(t, vpn);
      Fills({});
    }

    // *pte = 0
    method ClearWord(pte: Slot, ghost vpn: nat)
      requires CacheOk() && pte.frame < npages && pte.idx < NPTENTRIES && Changed(Full(), Write(pte, None)) <= {vpn}
      modifies mem
      ensures CacheOkBut({vpn}) && View() == old(View()).(ents := old(Ents()) - {pte})
      ensures Words() == old(Words())[pte := 0]
    {
      ghost var s := Full();
      AndOne(0);
      Store(pte, 0);
      WriteExposes(s, Full(), pte, None, {vpn});
    }

    // 0 on success, -E_NO_MEM when a page table is missing and cannot be allocated.
    method PageInsert(dir: nat, pp: nat, va: Word, perm: nat) returns (r: int)
      requires Valid() && CanInsert(View(), dir, pp, PGNUM(va)) && perm < 0x1000 && CacheOk()
      modifies `freeHead, `free, `tables, `ktables, `tlb, ppRef, ppLink, mem
      ensures Valid() && (View(), r == 0) == Insert(old(View()), dir, pp, PGNUM(va), Flags(perm))
      ensures r == 0 || r == -E_NO_MEM
      ensures Inv(View()) && CacheOk()
      ensures Words() == InsertedWords(old(Words()), old(View()), dir, PGNUM(va), pp * 0x1000 + Flags(perm))
    {
      hide CanInsert, InvPinned, Inv, Insert, Walk, Lookup, Remove, Mapped, CoherentBut, WalkedWords, Chain,
           IsPresent, PGNUM, Flags, Decode, InsertedWords, AddRef, Ents, Words;
      ghost var s, vpn := View(), PGNUM(va);
      PageInsertFacts(s, dir, pp, va, Flags(perm));
      InsertedCases(Words(), s, dir, vpn, pp * 0x1000 + Flags(perm));
      var pte := WalkCreate(dir, va);
      if pte.None? {
        return -E_NO_MEM;
      }
      PinPage(pp);
      ReplacePte(dir, pp, va, perm, pte.value);
      return 0;
    }

    // pgdir_walk with create: the new entry was not present, so it was cached for no page.
    method WalkCreate(dir: nat, va: Word) returns (pte: Option<Slot>)
      requires CacheOk() && InvPinned(View(), None) && dir in Roots(View())
      modifies `freeHead, `free, `tables, `ktables, `tlb, ppRef, mem
      ensures CacheOk() && (View(), pte) == Walk(old(View()), dir, PGNUM(va), true)
      ensures pte.Some? ==> pte.value.frame < npages && pte.value.idx < NPTENTRIES
      ensures Words() == WalkedWords(old(Words()), old(View()), dir, PGNUM(va))
    {
      hide InvPinned, CoherentBut, Walk, PGNUM, WalkedWords;
      WalkCached(View(), tlb, dir, PGNUM(va));
      pte := PgdirWalk(dir, va, true, None);
      Fills({});
    }

    // pp->pp_ref++, which no translation depends on.
    method PinPage(p: nat)
      requires CacheOk() && p < npages
      modifies `tlb, ppRef
      ensures CacheOk() && View() == AddRef(old(View()), p, 1)
    {
      ghost var t := Full();
      TakeRef(p);
      CountsOnly(t, Full());
      Fills({});
    }

    method DropRef(p: nat)
      requires CacheOk() && p < npages && (ppRef[p] == 1 ==> p !in free)
      modifies `freeHead, `free, `tlb, ppRef, ppLink
      ensures CacheOk() && View() == VmState.PageDecref(old(View()), p)
    {
      ghost var t := Full();
      PageDecref(p);
      CountsOnly(t, Full());
      Fills({});
    }

    method TakePage() returns (pp: Option<nat>)
      requires CacheOk()
      modifies `freeHead, `free, `tlb, mem
      ensures CacheOk() && (View(), pp) == VmState.PageAlloc(old(View()), false) && Words() == old(Words())
    {
      ghost var t := Full();
      pp := PageAlloc(false);
      CountsOnly(t, Full());
      Fills({});
    }

    // The rest of page_insert: take down what is mapped at va, then write *pte.
    method ReplacePte(dir: nat, pp: nat, va: Word, perm: nat, pte: Slot)
      requires Valid() && InvPinned(View(), Some(pp)) && dir in Roots(View()) && va < UTOP
      requires pte.frame < npages && pte.idx < NPTENTRIES && pp < npages && perm < 0x1000
      requires CacheOk() && Lookup(View(), dir, PGNUM(va)) == if pte in Ents() then Some(pte) else None
      modifies `freeHead, `free, `tables, `ktables, `tlb, ppRef, ppLink, mem
      ensures Valid() && CacheOk()
      ensures View() == Mapped(if old(Lookup(View(), dir, PGNUM(va)).Some?) then Remove(old(View()), dir, PGNUM(va))
                               else old(View()),
                               pte, pp, Flags(perm))
      ensures pte in old(Words()) && Words() == old(Words())[pte := pp * 0x1000 + Flags(perm)]
    {
      hide InvPinned, Lookup, Remove, IsPresent, CoherentBut, Mapped, Flags, PGNUM, Chain, Decode;
      ghost var was := Words();
      var w := Load(pte);
      if IsPresent(w) {
        RemoveClears(View(), dir, PGNUM(va));
        PageRemove(dir, va, Some(pp));
        assert Words() == was[pte := 0];
      }
      StorePte(pte, pp, perm);
    }

    // *pte = page2pa(pp) | perm | PTE_P, where no entry is present
    method StorePte(pte: Slot, pp: nat, perm: nat)
      requires CacheOk() && pte.frame < npages && pte.idx < NPTENTRIES && pp < npages && perm < 0x1000
      requires pte !in Ents()
      modifies `tlb, mem
      ensures CacheOk() && View() == Mapped(old(View()), pte, pp, Flags(perm))
      ensures pte in old(Words()) && Words() == old(Words())[pte := pp * 0x1000 + Flags(perm)]
    {
      hide IsPresent, MakePte, CoherentBut, Flags;
      PteRoundTrip(pp, perm);
      ghost var t := Full();
      Store(pte, MakePte(pp, perm));
      WriteAbsent(t, pte, Some(Ent(pp, Flags(perm))));
      Fills({});
    }

    // The test user_mem_check makes for the page at memStart.
    method PageAllowed(dir: nat, memStart: Word, perm: nat) returns (ok: bool)
      requires Valid() && Inv(View()) && dir in Roots(View()) && perm < 0x1000
      modifies `freeHead, `free, `tables, `ktables, ppRef, mem
      ensures unchanged(this) && unchanged(ppRef) && unchanged(mem)
      ensures memStart % PGSIZE == 0 ==> (ok <==> PageOk(View(), dir, PGNUM(memStart), perm))
    {
      hide Inv, InvPinned, IsPresent, PGOFF, HasBitsOf, PGNUM;
      InvIsPinned(View());
      Fields(memStart);
      var pte := PgdirWalk(dir, memStart, false, None);
      if memStart >= ULIM || pte.None? {
        return false;
      }
      var w := Load(pte.value);
      PermTest(w, perm);
      return IsPresent(w) && And(w, perm) == perm;
    }

    // 0 when every page of the rounded range is accessible, else -E_FAULT with user_mem_check_addr at
    // the first byte that is not.
    method UserMemCheck(dir: nat, va: Word, len: Word, perm: nat) returns (r: int)
      requires Valid() && Inv(View()) && dir in Roots(View()) && perm < 0x1000
      modifies `freeHead, `free, `tables, `ktables, `userMemCheckAddr, ppRef, mem
      ensures Valid() && View() == old(View())
      ensures r == 0 || r == -E_FAULT
      ensures r == 0 <==> forall v: nat :: FirstPage(va) <= v < EndPage(va, len) ==> PageOk(View(), dir, v, perm)
      ensures r == 0 ==> userMemCheckAddr == old(userMemCheckAddr)
      ensures r != 0 ==> exists bad: nat :: FirstBad(View(), dir, perm, FirstPage(va), bad) && bad < EndPage(va, len)
                                           && userMemCheckAddr == if bad * PGSIZE < va then va else bad * PGSIZE
    {
      hide Inv, PageOk, RoundUp, RoundDown;
      Aligned(va);
      Aligned((va + len) % TWO32);
      ghost var s := View();
      var memStart, memEnd := RoundDown(va, PGSIZE), RoundUp((va + len) % TWO32, PGSIZE);
      while memStart < memEnd
        invariant memStart % PGSIZE == 0 && FirstPage(va) <= memStart / PGSIZE
        invariant Valid() && View() == s && userMemCheckAddr == old(userMemCheckAddr)
        invariant forall v: nat :: FirstPage(va) <= v < memStart / PGSIZE ==> PageOk(s, dir, v, perm)
        decreases memEnd - memStart
      {
        PageSteps(memStart, memEnd);
        var ok := PageAllowed(dir, memStart, perm);
        if !ok {
          userMemCheckAddr := if memStart < va then va else memStart;
          assert FirstBad(s, dir, perm, FirstPage(va), memStart / PGSIZE);
          return -E_FAULT;
        }
        memStart := memStart + PGSIZE;
      }
      return 0;
    }

    // -----------------------------------------------------------------------
    // Boot: page_init, the free-list reordering, static mappings
    // -----------------------------------------------------------------------

    // Puts [1, npagesBasemem) and [med, npages) on the free list; everything else stays in use.
    method PageInit(npagesBasemem: nat, med: nat)
      requires Valid() && free == [] && npagesBasemem <= npages && npagesBasemem <= med
      modifies `freeHead, `free, `pool, ppRef, ppLink
      ensures Valid() && free == InitList(npagesBasemem, med, npages) && pool == set p | p in free
      ensures forall p :: 0 <= p < npages ==> ppRef[p] == if p in free then 0 else old(ppRef[p])
    {
      hide InitList, Down, ZeroedOn, Chain;
      ghost var was := ppRef[..];
      ZeroedNone(was);
      DownEmpty(1, 1);
      var i := 1;
      while i < npagesBasemem
        invariant 1 <= i && (i <= npagesBasemem || i == 1)
        invariant Valid() && free == Down(1, i) && ZeroedOn(was, ppRef[..], free)
      {
        DownPages(1, i);
        DownStep(1, i);
        ZeroedStep(was, ppRef[..], free, i);
        PushFree(i);
        i := i + 1;
      }
      DownEmpty(1, i);
      DownEmpty(1, npagesBasemem);
      ghost var base := free;
      DownEmpty(med, med);
      i := med;
      while i < npages
        invariant med <= i && (i <= npages || i == med)
        invariant Valid() && free == Down(med, i) + base && ZeroedOn(was, ppRef[..], free)
      {
        NotYetListed(npagesBasemem, med, i);
        DownStep(med, i);
        ZeroedStep(was, ppRef[..], free, i);
        PushFree(i);
        assert [i] + (Down(med, i) + base) == [i] + Down(med, i) + base;
        i := i + 1;
      }
      DownEmpty(med, i);
      DownEmpty(med, npages);
      InitListIs(npagesBasemem, med, npages);
      pool := set p | p in free;
      ZeroedMeans(was, ppRef[..], free);
    }

    // pages[i].pp_ref = 0 and the push onto page_free_list
    method PushFree(i: nat)
      requires Valid() && i < npages && i !in free
      modifies `freeHead, `free, ppRef, ppLink
      ensures Valid() && free == [i] + old(free) && ppRef[..] == old(ppRef[..])[i := 0]
    {
      ppRef[i] := 0;
      PageFree(i);
    }

    // check_page_free_list's first part: pages below pdxLimit * 4 MB to the front of the free list.
    method ReorderFreeList(pdxLimit: nat)
      requires Valid()
      modifies `freeHead, `free, ppLink
      ensures Valid() && free == Low(old(free), pdxLimit) + High(old(free), pdxLimit)
      ensures LowFirst(old(free), free, pdxLimit)
      ensures View() == old(View()).(free := free)
    {
      hide LowFirst, Low, High;
      assert forall p :: p in free ==> p < 0x10_0000 by { ListedPages(freeHead, free, ppLink[..]); }
      hide Chain;
      PartitionIsLowFirst(free, pdxLimit);
      freeHead := LowPagesFirst(ppLink, freeHead, pdxLimit, free);
      free := Low(free, pdxLimit) + High(free, pdxLimit);
    }

    // memset(page2kva(p), 0x97, 128)
    method MarkPage(p: nat)
      requires Valid() && p < npages
      modifies mem
      ensures Valid() && SameBut(old(Ents()), Ents(), {p})
      ensures forall f, j :: 0 <= f < npages && 0 <= j < NPTENTRIES ==>
                mem[f, j] == if f == p && j < 32 then FILL else old(mem[f, j])
    {
      var i := 0;
      while i < 32
        invariant 0 <= i <= 32
        invariant forall f, j :: 0 <= f < npages && 0 <= j < NPTENTRIES ==>
                    mem[f, j] == if f == p && j < i then FILL else old(mem[f, j])
      {
        mem[p, i] := FILL;
        i := i + 1;
      }
    }

    // The second part: fill the start of every listed page below the limit.
    method MarkFree(pdxLimit: nat)
      requires Valid()
      modifies mem
      ensures Valid() && SameBut(old(Ents()), Ents(), Listed(free))
      ensures forall f, j :: 0 <= f < npages && 0 <= j < NPTENTRIES ==>
                mem[f, j] == if f in free && f * 0x1000 < pdxLimit * 0x40_0000 && j < 32 then FILL
                             else old(mem[f, j])
    {
      hide IsPresent, Decode, SameBut, Ents;
      NoneMarked(Ents(), Listed(free));
      var pp := freeHead;
      ghost var n := 0;
      while pp.Some?
        invariant n <= |free| && pp == At(free, n) && SameBut(old(Ents()), Ents(), Listed(free))
        invariant forall f, j :: 0 <= f < npages && 0 <= j < NPTENTRIES ==>
                    mem[f, j] == if f in free[..n] && f * 0x1000 < pdxLimit * 0x40_0000 && j < 32 then FILL
                                 else old(mem[f, j])
        decreases |free| - n
      {
        assert pp.value == free[n] && free[n] in free && free[..n + 1] == free[..n] + [free[n]];
        HighIs(pp.value, pdxLimit);
        ghost var ents := Ents();
        if !IsHigh(pp.value, pdxLimit) {
          MarkPage(pp.value);
          SameTwice(old(Ents()), ents, Ents(), pp.value, Listed(free));
        }
        pp := ppLink[pp.value];
        n := n + 1;
      }
    }

    // The third: the assertions.  false is their panic.
    method CheckList(firstFree: Word) returns (ok: bool)
      requires Valid()
      ensures ok <==> CheckPasses(free, firstFree)
    {
      hide ListedOk, Chain;
      var pp, nfreeBasemem, nfreeExtmem := freeHead, 0, 0;
      ghost var n := 0;
      ChainAt(freeHead, free, ppLink[..], 0);
      while pp.Some?
        invariant n <= |free| && pp == At(free, n) && Checked(free[..n], firstFree, nfreeBasemem, nfreeExtmem)
        decreases |free| - n
      {
        ChainAt(freeHead, free, ppLink[..], n);
        CheckedStep(free, n, firstFree, nfreeBasemem, nfreeExtmem);
        var listed, extended := CheckPage(pp.value, firstFree);
        if !listed {
          return false;
        }
        if extended {
          nfreeExtmem := nfreeExtmem + 1;
        } else {
          nfreeBasemem := nfreeBasemem + 1;
        }
        pp := ppLink[pp.value];
        n := n + 1;
      }
      assert free[..n] == free;
      return nfreeBasemem > 0 && nfreeExtmem > 0;
    }

    // The assertions about one page, and on which side of EXTPHYSMEM it lies.
    method CheckPage(p: nat, firstFree: Word) returns (listed: bool, extended: bool)
      requires p < 0x10_0000
      ensures listed <==> ListedOk(p, firstFree)
      ensures extended <==> p >= EXT_PAGE
    {
      hide Page2pa;
      PageAddress(p);
      var pa := Page2pa(p);
      extended := pa >= EXTPHYSMEM;
      listed := pa != 0 && pa != IOPHYSMEM && pa != EXTPHYSMEM - PGSIZE && pa != EXTPHYSMEM
                && (pa < EXTPHYSMEM || (pa + KERNBASE) % TWO32 >= firstFree);
    }

    // check_page_free_list; firstFree is boot_alloc(0).  false is the panic.
    method CheckPageFreeList(onlyLowMemory: bool, firstFree: Word) returns (ok: bool)
      requires Valid()
      modifies `freeHead, `free, ppLink, mem
      ensures Valid() && (ok <==> CheckPasses(old(free), firstFree))
      ensures if onlyLowMemory then LowFirst(old(free), free, 1) else free == old(free)
      ensures onlyLowMemory ==> free == Low(old(free), 1) + High(old(free), 1)
      ensures View() == old(View()).(free := free, ents := Ents()) && SameBut(old(Ents()), Ents(), Listed(old(free)))
      ensures Listed(free) == Listed(old(free))
      ensures forall f, j :: 0 <= f < npages && 0 <= j < NPTENTRIES ==>
                mem[f, j] == if f in free && (onlyLowMemory ==> f < 1024) && j < 32 then FILL else old(mem[f, j])
    {
      hide Chain, CheckPasses, Low, High, LowFirst, SameBut, IsPresent, Decode;
      NothingFirst(1);
      NullFails(free, firstFree);
      NoneMarked(Ents(), Listed(free));
      if freeHead.None? {
        assert free == [] by { ChainHead(freeHead, free, ppLink[..]); }
        return false;
      }
      if onlyLowMemory {
        SameListed(free, 1, firstFree);
        ReorderFreeList(1);
      }
      MarkFree(if onlyLowMemory then 1 else 1024);
      ok := CheckList(firstFree);
    }

    // The body of boot_map_region's loop; false is the panic.
    method MapStatic(va: Word, pa: Word, perm: nat, ghost k: nat) returns (ok: bool)
      requires Valid() && Booting(View()) && KernelVpn(PGNUM(va)) && perm < 0x1000 && pa % PGSIZE == 0
      modifies `freeHead, `free, `tables, `ktables, ppRef, mem
      ensures Valid() && (ok ==> Booting(View()))
      ensures var goal := BootMap.BootMapRegion(old(View()), PGNUM(va), k + 1, PGNUM(pa), Flags(perm));
        if ok then goal == BootMap.BootMapRegion(View(), PGNUM(va) + 1, k, PGNUM(pa) + 1, Flags(perm))
            else goal == None
      ensures Grown(old(View()), old(Words()), View(), Words())
    {
      hide Inv, InvPinned, Walk, BootMap.BootMapRegion, KernelVpn, Booting, IsPresent, Decode, Flags, PGNUM, Or;
      hide Grown, WalkedWords, Chain;
      MapStaticFacts(View(), va, pa, perm, k);
      GrownHere(None, kernPgdir, va);
      var pte := PgdirWalk(kernPgdir, va, true, None);
      if pte.None? {
        return false;
      }
      ghost var s1, words := View(), Words();
      Store(pte.value, Or(Or(pa, perm), PTE_P));
      GrownStore(old(View()), old(Words()), s1, words, View(), pte.value, Or(Or(pa, perm), PTE_P));
      return true;
    }

    method BootMapRegion(va: Word, size: Word, pa: Word, perm: nat) returns (ok: bool)
      requires Valid() && Booting(View()) && perm < 0x1000 && va % PGSIZE == 0 && pa % PGSIZE == 0
      requires forall v: nat :: PGNUM(va) <= v < PGNUM(va) + size / PGSIZE ==> KernelVpn(v)
      requires PGNUM(pa) + size / PGSIZE <= 0x10_0000
      modifies `freeHead, `free, `tables, `ktables, ppRef, mem
      ensures Valid()
      ensures var r := BootMap.BootMapRegion(old(View()), PGNUM(va), size / PGSIZE, PGNUM(pa), Flags(perm));
        ok == r.Some? && (ok ==> View() == r.value && Booting(View()))
      ensures Grown(old(View()), old(Words()), View(), Words())
    {
      hide BootMap.BootMapRegion, Booting, KernelVpn, Flags, PGNUM, Chain, Grown;
      assert Grown(View(), Words(), View(), Words()) by { GrownNot(View(), Words()); }
      var i, n := 0, size / PGSIZE;
      var v: Word, a: Word := va, pa;
      ghost var goal := BootMap.BootMapRegion(View(), PGNUM(va), n, PGNUM(pa), Flags(perm));
      ok := true;
      while ok && i < n
        invariant 0 <= i <= n && Valid() && (ok ==> Booting(View()))
        invariant v % PGSIZE == 0 && a % PGSIZE == 0
        invariant ok && i < n ==> PGNUM(v) == PGNUM(va) + i && PGNUM(a) == PGNUM(pa) + i
        invariant if ok then goal == BootMap.BootMapRegion(View(), PGNUM(va) + i, n - i, PGNUM(pa) + i, Flags(perm))
                  else goal == None
        invariant Grown(old(View()), old(Words()), View(), Words())
        decreases n - i, ok
      {
        ghost var s1, words := View(), Words();
        NextPage(v);
        NextPage(a);
        assert KernelVpn(PGNUM(va) + i);
        KernelRange(PGNUM(va) + n - 1);
        ok := MapStatic(v, a, perm, n - i - 1);
        GrownTwice(old(View()), old(Words()), s1, words, View(), Words());
        if ok {
          v, a, i := (v + PGSIZE) % TWO32, (a + PGSIZE) % TWO32, i + 1;
        }
      }
      if ok {
        BootMapDone(View(), PGNUM(va) + n, PGNUM(pa) + n, Flags(perm));
      }
    }

    // Memory before mem_init: arbitrary contents, no page under the allocator's control.
    ghost predicate Unused()
      reads this, ppLink
    {
      Valid() && free == [] && tlb == map[] && pool == dirs == tables == ktables == {} && cr3 == kernPgdir < npages
    }

    // mem_init up to page_init: kern_pgdir with its self-map, and the list of free pages.
    method StartMemory(npagesBasemem: nat, med: nat)
      requires Unused() && npagesBasemem <= kernPgdir < med
      modifies `freeHead, `free, `pool, ppRef, ppLink, mem
      ensures Valid() && Booted(View()) && free == InitList(npagesBasemem, med, npages)
      ensures forall f, j :: 0 <= f < npages && 0 <= j < NPTENTRIES ==>
                mem[f, j] == if f != kernPgdir then old(mem[f, j]) else if j == UVPT_PDE then f * 0x1000 + 5 else 0
    {
      hide InitList, IsPresent, Decode, Chain;
      StartDirectory();
      PageInit(npagesBasemem, med);
      InitListPages(npagesBasemem, med, npages);
      assert OnlySelfMap(View()) && View().ents[Slot(kernPgdir, UVPT_PDE)] == Ent(kernPgdir, SELF_FLAGS);
    }

    // kern_pgdir cleared, but for its self-map.
    method StartDirectory()
      requires Valid() && kernPgdir < npages
      modifies mem
      ensures Valid()
      ensures Ents() == ClearFrame(old(Ents()), kernPgdir)[Slot(kernPgdir, UVPT_PDE) := Ent(kernPgdir, SELF_FLAGS)]
      ensures forall f, j :: 0 <= f < npages && 0 <= j < NPTENTRIES ==>
                mem[f, j] == if f != kernPgdir then old(mem[f, j]) else if j == UVPT_PDE then f * 0x1000 + 5 else 0
    {
      hide IsPresent, Decode, Or, Page2pa, Chain, ClearFrame;
      ZeroPage(kernPgdir);
      KernSelfWord(kernPgdir);
      ghost var was := Words();
      Store(Slot(kernPgdir, UVPT_PDE), Or(Or(Page2pa(kernPgdir), PTE_U), PTE_P));
      StoredAt(was, Slot(kernPgdir, UVPT_PDE), kernPgdir * 0x1000 + 5);
    }

    // A changed word, in terms of the array.
    lemma StoredAt(was: map<Slot, nat>, sl: Slot, w: nat)
      requires Valid() && Words() == was[sl := w]
      ensures forall f, j :: 0 <= f < npages && 0 <= j < NPTENTRIES && Slot(f, j) != sl ==>
                Slot(f, j) in was && mem[f, j] == was[Slot(f, j)]
      ensures sl.frame < npages && sl.idx < NPTENTRIES ==> mem[sl.frame, sl.idx] == w
    {
      forall f, j | 0 <= f < npages && 0 <= j < NPTENTRIES
        ensures Slot(f, j) in Words() && mem[f, j] == Words()[Slot(f, j)]
      {
        assert Slot(f, j) in AllSlots(npages);
      }
    }

    // mem_init from page_init's inputs to check_kern_pgdir; firstFree is boot_alloc(0), and pages, envs and
    // stack are physical addresses.  false is the panic of check_page_free_list(1) or of boot_map_region.
    method MemInit(npagesBasemem: nat, med: nat, firstFree: Word, pages: Word, envs: Word, stack: Word,
                   ghost infoSize: nat, ghost envSize: nat)
      returns (ok: bool)
      requires Unused() && npagesBasemem <= kernPgdir < med
      requires pages % PGSIZE == envs % PGSIZE == stack % PGSIZE == 0
      requires pages + PTSIZE <= TWO32 && envs + PTSIZE <= TWO32 && stack + KSTKSIZE <= TWO32
      modifies `freeHead, `free, `pool, `tables, `ktables, ppRef, ppLink, mem
      ensures Valid()
      ensures var list := InitList(npagesBasemem, med, npages);
        && (ok <==> CheckPasses(list, firstFree) && |list| >= 67)
        && (ok ==> |Low(list, 1) + High(list, 1)| == |list| && free == (Low(list, 1) + High(list, 1))[67..])
      ensures ok ==> dirs == {} && Kernel(View()) && CacheOk()
      ensures ok ==> forall p :: p in pool ==> p in InitList(npagesBasemem, med, npages)
      ensures ok && npages <= 65536 && npages * infoSize <= PTSIZE && 1024 * envSize <= PTSIZE ==>
                CheckKernPgdir(View(), PGNUM(pages), PGNUM(envs), PGNUM(stack), npages, infoSize, envSize)
      ensures ok ==> forall d :: 0 <= d < NPTENTRIES && EmptyPde(d) ==> mem[kernPgdir, d] == 0
    {
      hide Booted, Booting, Kernel, InitList, Low, High, BootMap.MemInit, PGNUM, Chain, CheckKernPgdir, CheckPasses,
           SameBut, IsPresent, Decode, Grown, LowFirst, Ents, EmptyPde;
      StartMemory(npagesBasemem, med);
      ghost var s, list := View(), free;
      KernNotListed(s);
      ok := CheckPageFreeList(true, firstFree);
      if !ok {
        return;
      }
      ghost var words := Words();
      assert kernPgdir !in Listed(free);
      assert forall d :: 0 <= d < NPTENTRIES && EmptyPde(d) ==> mem[kernPgdir, d] == 0 by { GuardFree(); }
      EntsInRange();
      ghost var s0 := View();
      ChainHasNoRepeats(freeHead, free, ppLink[..]);
      ReorderedBooted(s, 1);
      MarkedBooted(s.(free := free), s0);
      BootedInv(s0);
      ReorderedLength(s.free, 1);
      MemInitReturnsIff(s0, PGNUM(pages), PGNUM(envs), PGNUM(stack));
      ok := MapKernelHalf(pages, envs, stack);
      if ok {
        MemInitEnds(s0, View(), PGNUM(pages), PGNUM(envs), PGNUM(stack), infoSize, envSize);
        PoolIsListed(s, s0, View(), list);
        StillZero(s0, words);
      }
    }

    lemma EntsInRange()
      requires Valid()
      ensures forall sl :: sl in Ents() ==> sl.frame < npages && sl.idx < NPTENTRIES
    {
      hide IsPresent, Decode;
    }

    lemma StillZero(s0: Vm, was: map<Slot, nat>)
      requires Valid() && kernPgdir < npages && Grown(s0, was, View(), Words())
      requires forall d :: 0 <= d < NPTENTRIES && EmptyPde(d) ==>
                 Slot(kernPgdir, d) in was && was[Slot(kernPgdir, d)] == 0 && Slot(kernPgdir, d) !in Ents()
      ensures forall d :: 0 <= d < NPTENTRIES && EmptyPde(d) ==> mem[kernPgdir, d] == 0
    {
      hide IsPresent, Decode, Chain, EmptyPde;
      forall d | 0 <= d < NPTENTRIES && EmptyPde(d) ensures mem[kernPgdir, d] == 0 {
        assert Slot(kernPgdir, d) in AllSlots(npages) && Slot(kernPgdir, d) !in Ents();
      }
    }

    // mem_init's four calls of boot_map_region.
    method MapKernelHalf(pages: Word, envs: Word, stack: Word) returns (ok: bool)
      requires Valid() && Booting(View())
      requires pages % PGSIZE == envs % PGSIZE == stack % PGSIZE == 0
      requires pages + PTSIZE <= TWO32 && envs + PTSIZE <= TWO32 && stack + KSTKSIZE <= TWO32
      modifies `freeHead, `free, `tables, `ktables, ppRef, mem
      ensures Valid()
      ensures var r := BootMap.MemInit(old(View()), PGNUM(pages), PGNUM(envs), PGNUM(stack));
        ok == r.Some? && (ok ==> View() == r.value)
      ensures Grown(old(View()), old(Words()), View(), Words())
    {
      hide BootMap.BootMapRegion, Booting, KernelVpn, Flags, PGNUM, Grown, Chain;
      KernelRanges();
      TargetRanges(pages, envs, stack);
      ghost var s, words := View(), Words();
      ok := BootMapRegion(UPAGES, PTSIZE, pages, PTE_U);
      if ok {
        ghost var s1, words1 := View(), Words();
        ok := BootMapRegion(UENVS, PTSIZE, envs, PTE_U);
        GrownTwice(s, words, s1, words1, View(), Words());
      }
      if ok {
        ghost var s1, words1 := View(), Words();
        ok := BootMapRegion(KERNBASE - KSTKSIZE, KSTKSIZE, stack, PTE_W);
        GrownTwice(s, words, s1, words1, View(), Words());
      }
      if ok {
        ghost var s1, words1 := View(), Words();
        ok := BootMapRegion(KERNBASE, TWO32 - KERNBASE, 0, PTE_W);
        GrownTwice(s, words, s1, words1, View(), Words());
      }
    }

    // -----------------------------------------------------------------------
    // Address spaces of environments (env.c)
    // -----------------------------------------------------------------------

    method Lcr3(dir: nat)
      requires Valid()
      modifies `cr3, `tlb
      ensures Valid() && View() == VmState.Lcr3(old(View()), dir) && CacheOk()
    {
      cr3 := dir;
      tlb := map[];
    }

    // Page p holds the words of kern_pgdir, but for its own self-map, and nothing else has been written.
    twostate predicate CopiesKernel(p: nat)
      requires mem.Length0 == npages && mem.Length1 == NPTENTRIES && kernPgdir < npages
      reads mem
    {
      forall f, j :: 0 <= f < npages && 0 <= j < NPTENTRIES ==>
        mem[f, j] == if f != p then old(mem[f, j])
                     else if j == UVPT_PDE then p * 0x1000 + 5 else old(mem[kernPgdir, j])
    }

    // The page directory of a new environment; None is the panic when no page is left.
    method EnvSetupVm() returns (pgdir: Option<nat>)
      requires Valid() && Inv(View()) && CacheOk()
      modifies `freeHead, `free, `dirs, ppRef, mem
      ensures Valid() && (View(), pgdir) == EnvSetup(old(View())) && CacheOk()
      ensures if pgdir.None? then Words() == old(Words()) else pgdir.value < npages && CopiesKernel(pgdir.value)
    {
      hide InvPinned, Inv, CoherentBut, CopyFrame, IsPresent, Decode, ClearFrame, Zeroed, Chain;
      SetupCached(View(), tlb);
      var p := PageAlloc(true);
      if p.None? {
        return None;
      }
      TakeRef(p.value);
      FillDirectory(p.value);
      dirs := dirs + {p.value};
      return p;
    }

    // The memcpy of kern_pgdir and the self-map.
    method FillDirectory(p: nat)
      requires Valid() && kernPgdir < npages && p < npages && p != kernPgdir
      modifies mem
      ensures Valid() && Ents() == CopyFrame(old(Ents()), kernPgdir, p)[Slot(p, UVPT_PDE) := Ent(p, SELF_FLAGS)]
      ensures forall f, j :: 0 <= f < npages && 0 <= j < NPTENTRIES ==>
                mem[f, j] == if f != p then old(mem[f, j])
                             else if j == UVPT_PDE then p * 0x1000 + 5 else old(mem[kernPgdir, j])
    {
      hide CopyFrame, IsPresent, Decode, Chain, Or, Page2pa;
      CopyPage(kernPgdir, p);
      SelfWord(p);
      ghost var was := Words();
      Store(Slot(p, UVPT_PDE), Or(Or(Page2pa(p), PTE_P), PTE_U));
      StoredAt(was, Slot(p, UVPT_PDE), p * 0x1000 + 5);
    }

    // region_alloc's loop body; false is the panic.
    method RegionRound(dir: nat, begin: Word, ghost end: nat) returns (ok: bool)
      requires Valid() && Inv(View()) && dir in dirs && PGNUM(begin) < end <= USER_VPNS && CacheOk()
      modifies `freeHead, `free, `tables, `ktables, `tlb, ppRef, ppLink, mem
      ensures Valid() && Inv(View()) && dir in dirs && CacheOk()
      ensures var goal := VmState.RegionAlloc(old(View()), dir, PGNUM(begin), end);
        if ok then VmState.RegionAlloc(View(), dir, PGNUM(begin) + 1, end) == goal else goal == None
      ensures Grown(old(View()), old(Words()), View(), Words())
    {
      hide Inv, CanInsert, Insert, VmState.RegionAlloc, PGNUM, CoherentBut, Grown, InsertedWords, Chain;
      ghost var s, words := View(), Words();
      RegionPage(s, dir, PGNUM(begin), end);
      SevenIsTableFlags();
      var pg := TakePage();
      ghost var s1 := View();
      GrownTaken(s, words);
      if pg.None? {
        return false;
      }
      GrownInsert(words, s1, dir, pg.value, PGNUM(begin));
      var _ := PageInsert(dir, pg.value, begin, PTE_W + PTE_U);
      GrownTwice(s, words, s1, words, View(), Words());
      return true;
    }

    // Maps a fresh page at every page of [va, va + len) rounded outwards, ignoring the result of
    // page_insert as the source does.  false is the panic when no page is left.
    method RegionAlloc(dir: nat, va: Word, len: Word) returns (ok: bool)
      requires Valid() && Inv(View()) && dir in dirs && CacheOk()
      requires EndPage(va, len) <= USER_VPNS
      modifies `freeHead, `free, `tables, `ktables, `tlb, ppRef, ppLink, mem
      ensures Valid() && Inv(View()) && CacheOk()
      ensures var r := VmState.RegionAlloc(old(View()), dir, FirstPage(va), EndPage(va, len));
        ok == r.Some? && (ok ==> View() == r.value)
      ensures Grown(old(View()), old(Words()), View(), Words())
    {
      hide Inv, VmState.RegionAlloc, PGNUM, RoundUp, RoundDown, CoherentBut, Grown, Chain, Ents, Words;
      GrownNot(View(), Words());
      Aligned(va);
      Aligned((va + len) % TWO32);
      var begin, end := RoundDown(va, PGSIZE), RoundUp((va + len) % TWO32, PGSIZE);
      PageNumber(begin);
      PageNumber(end);
      ghost var goal := VmState.RegionAlloc(View(), dir, PGNUM(begin), PGNUM(end));
      ok := true;
      while ok && begin < end
        invariant Valid() && Inv(View()) && dir in dirs && CacheOk()
        invariant begin % PGSIZE == 0 && begin < TWO32
        invariant if ok then goal == VmState.RegionAlloc(View(), dir, PGNUM(begin), PGNUM(end)) else goal == None
        invariant Grown(old(View()), old(Words()), View(), Words())
        decreases end - begin, ok
      {
        PageOrder(begin, end);
        ghost var s1, words := View(), Words();
        ok := RegionRound(dir, begin, PGNUM(end));
        GrownTwice(old(View()), old(Words()), s1, words, View(), Words());
        if ok {
          begin := begin + PGSIZE;
        }
      }
      PageOrder(begin, end);
      if ok {
        RegionDone(View(), dir, PGNUM(begin), PGNUM(end));
      }
    }

    // env_free's inner loop body.
    method UnmapEntry(dir: nat, pdeno: nat, t: nat, pteno: nat)
      requires Valid() && Inv(View()) && Hangs(View(), dir, pdeno, t) && pteno < NPTENTRIES && CacheOk()
      modifies `freeHead, `free, `tables, `ktables, `tlb, ppRef, ppLink, mem
      ensures Valid() && View() == UnmapStep(old(View()), dir, pdeno, t, pteno)
      ensures Inv(View()) && Hangs(View(), dir, pdeno, t) && CacheOk()
      ensures OnlyCleared(old(Words()), Words())
    {
      hide Inv, InvPinned, Hangs, Remove, PGADDR, PGNUM, CoherentBut, RemovedWords, OnlyCleared, Chain, Words;
      ClearedNot(Words());
      UnmapStepEffect(View(), dir, pdeno, t, pteno);
      TableFacts(View(), dir, pdeno, t);
      var w := Load(Slot(t, pteno));
      if IsPresent(w) {
        UserAddress(pdeno, pteno);
        RemovedCleared(dir, pdeno * NPTENTRIES + pteno);
        PageRemove(dir, PGADDR(pdeno, pteno, 0), None);
      }
    }

    // The body of env_free's outer loop for the table t named by entry pdeno: unmap every entry of the
    // table, unhook it, drop it.
    method FreePageTable(dir: nat, pdeno: nat, t: nat)
      requires Valid() && Idle(View(), dir) && Hangs(View(), dir, pdeno, t) && CacheOk()
      modifies `freeHead, `free, `tables, `ktables, `tlb, ppRef, ppLink, mem
      ensures Valid() && View() == FreeTable(old(View()), dir, pdeno, t) && CacheOk()
      ensures OnlyCleared(old(Words()), Words())
    {
      hide Inv, InvPinned, Hangs, UnmapTable, UnmapStep, CoherentBut, OnlyCleared, Chain, Words, Ents, IsPresent;
      ghost var s, was := View(), Words();
      ClearedNot(was);
      var pteno := 0;
      while pteno < NPTENTRIES
        invariant pteno <= NPTENTRIES
        invariant Valid() && Inv(View()) && Hangs(View(), dir, pdeno, t) && CacheOk()
        invariant UnmapTable(View(), dir, pdeno, t, pteno) == UnmapTable(s, dir, pdeno, t, 0)
        invariant OnlyCleared(was, Words())
      {
        UnmapTableStep(View(), dir, pdeno, t, pteno);
        ghost var words := Words();
        UnmapEntry(dir, pdeno, t, pteno);
        ClearedTwice(was, words, Words());
        pteno := pteno + 1;
      }
      TableDone(s, View(), dir, pdeno, t);
      OtherDirOff(View(), dir);
      ghost var words := Words();
      Unhook(dir, pdeno, t);
      ClearedTwice(was, words, Words());
    }

    method Unhook(dir: nat, pdeno: nat, t: nat)
      requires Valid() && dir < npages && t < npages && pdeno < NPTENTRIES && t !in free
      requires OffFrame(View(), dir) && CacheOk() && Slot(dir, pdeno) in Ents()
      modifies `freeHead, `free, `tables, `tlb, ppRef, ppLink, mem
      ensures Valid() && View() == Unhooked(old(View()), dir, pdeno, t) && CacheOk()
      ensures OnlyCleared(old(Words()), Words())
    {
      hide CoherentBut;
      AndOne(0);
      PresentWord(Slot(dir, pdeno));
      ClearedOne(Words(), Slot(dir, pdeno));
      ghost var s := Full();
      Store(Slot(dir, pdeno), 0);
      WriteOff(s, Slot(dir, pdeno), None);
      Fills({});
      ghost var t1 := Full();
      tables := tables - {t};
      CountsOnly(t1, Full());
      DropRef(t);
    }

    method EnvFree(dir: nat, current: bool)
      requires Valid() && Inv(View()) && CanFree(View(), dir, current) && CacheOk()
      modifies `freeHead, `free, `tables, `ktables, `tlb, `cr3, `dirs, ppRef, ppLink, mem
      ensures Valid() && View() == VmState.EnvFree(old(View()), dir, current) && CacheOk()
      ensures OnlyCleared(old(Words()), Words())
    {
      hide Inv, FreeUser, FreeTable, CoherentBut, OnlyCleared, Chain, Words, Ents, IsPresent;
      ghost var s, was := View(), Words();
      ClearedNot(was);
      if current {
        Lcr3(kernPgdir);
        Fills({});
      }
      EnvFreeStarts(s, dir, current);
      ghost var s0 := View();
      var pdeno := 0;
      while pdeno < USER_PDES
        invariant pdeno <= USER_PDES
        invariant Valid() && Idle(View(), dir) && dir < npages && CacheOk()
        invariant FreeUser(View(), dir, pdeno) == FreeUser(s0, dir, 0)
        invariant OnlyCleared(was, Words())
      {
        ghost var words := Words();
        var pde := Load(Slot(dir, pdeno));
        FreeUserStep(View(), dir, pdeno);
        if IsPresent(pde) {
          FreePageTable(dir, pdeno, PGNUM(PTE_ADDR(pde)));
          ClearedTwice(was, words, Words());
        }
        pdeno := pdeno + 1;
      }
      FreeUserDone(s0, View(), dir);
      RetireDirectory(dir);
    }

    method RetireDirectory(dir: nat)
      requires CacheOk() && dir < npages && dir !in free
      modifies `freeHead, `free, `tlb, `dirs, ppRef, ppLink
      ensures CacheOk() && View() == Retired(old(View()), dir) && Words() == old(Words())
    {
      hide CoherentBut;
      ghost var t := Full();
      dirs := dirs - {dir};
      CountsOnly(t, Full());
      DropRef(dir);
    }

    // pg->pp_ref++ and the page-directory entry for the new table
    method InstallTable(dir: nat, dindex: nat, p: nat)
      requires Valid() && dir < npages && dindex < NPTENTRIES && p < npages
      modifies `tables, `ktables, ppRef, mem
      ensures Valid() && View() == NewTable(old(View()), dir, dindex, p)
      ensures Words() == old(Words())[Slot(dir, dindex) := p * 0x1000 + 7]
    {
      TakeRef(p);
      TableWord(p);
      Store(Slot(dir, dindex), Or(Or(Or(Page2pa(p), PTE_P), PTE_U), PTE_W));
      if dindex < USER_PDES {
        tables := tables + {p};
      } else {
        ktables := ktables + {p};
      }
    }
  }

  lemma UserFlags()
    ensures Flags(PTE_U) == SELF_FLAGS == USER_RO && Flags(PTE_W) == KERNEL_RW
  {
    FlagsRange(PTE_U);
    FlagsRange(PTE_W);
  }

  // PADDR(kern_pgdir) | PTE_U | PTE_P
  lemma KernSelfWord(page: nat)
    requires page < 0x10_0000
    ensures var w := Or(Or(Page2pa(page), PTE_U), PTE_P);
      w == page * 0x1000 + 5 < TWO32 && IsPresent(w) && Decode(w) == Ent(page, SELF_FLAGS)
  {
    PteRoundTrip(page, PTE_U);
    UserFlags();
    hide Or, Shl, IsPresent, PGNUM, PGOFF, PTE_ADDR;
  }

  // Where mem_init's four calls map, and with which flags.
  lemma KernelRanges()
    ensures PGNUM(UPAGES) == UPAGES_VPN && PGNUM(UENVS) == UENVS_VPN
    ensures PGNUM(KERNBASE - KSTKSIZE) == STACK_VPN && PGNUM(KERNBASE) == KERNBASE_VPN && PGNUM(0) == 0
    ensures Flags(PTE_U) == USER_RO && Flags(PTE_W) == KERNEL_RW
    ensures forall v: nat :: UPAGES_VPN <= v < UPAGES_VPN + 1024 ==> KernelVpn(v)
    ensures forall v: nat :: UENVS_VPN <= v < UENVS_VPN + 1024 ==> KernelVpn(v)
    ensures forall v: nat :: STACK_VPN <= v < STACK_VPN + 8 ==> KernelVpn(v)
    ensures forall v: nat :: KERNBASE_VPN <= v < KERNBASE_VPN + 65536 ==> KernelVpn(v)
  {
    hide PGNUM, Flags;
    UserFlags();
    KernelPages();
  }

  lemma KernelPages()
    ensures PGNUM(UPAGES) == UPAGES_VPN && PGNUM(UENVS) == UENVS_VPN
    ensures PGNUM(KERNBASE - KSTKSIZE) == STACK_VPN && PGNUM(KERNBASE) == KERNBASE_VPN && PGNUM(0) == 0
  {
    hide PGNUM, PDX, PTX, PGOFF, PTE_ADDR;
    Fields(UPAGES);
    Fields(UENVS);
    Fields(KERNBASE - KSTKSIZE);
    Fields(KERNBASE);
    Fields(0);
  }

  lemma TargetRanges(pages: Word, envs: Word, stack: Word)
    requires pages + PTSIZE <= TWO32 && envs + PTSIZE <= TWO32 && stack + KSTKSIZE <= TWO32
    ensures PGNUM(pages) + 1024 <= 0x10_0000 && PGNUM(envs) + 1024 <= 0x10_0000 && PGNUM(stack) + 8 <= 0x10_0000
  {
    Fields(pages);
    Fields(envs);
    Fields(stack);
  }

  lemma ChainHasNoRepeats(head: Option<nat>, q: seq<nat>, links: seq<Option<nat>>)
    requires Chain(head, q, links)
    ensures Distinct(q)
  {
    SortStart(head, q, 0, links);
  }

  // Reordering the list changes nothing about the state but the order.
  lemma ReorderedBooted(s: Vm, limit: nat)
    requires Booted(s) && Distinct(Low(s.free, limit) + High(s.free, limit))
    ensures Booted(s.(free := Low(s.free, limit) + High(s.free, limit)))
  {
    var q := Low(s.free, limit) + High(s.free, limit);
    forall p ensures p in q <==> p in s.free {
      SelectMember(s.free, LowTest(limit), p);
      SelectMember(s.free, HighTest(limit), p);
    }
  }

  // Writing on free pages leaves it such a state.
  lemma MarkedBooted(s: Vm, s0: Vm)
    requires Booted(s) && s0 == s.(ents := s0.ents) && SameBut(s.ents, s0.ents, Listed(s.free))
    requires forall sl :: sl in s0.ents ==> sl.frame < |s.refs| && sl.idx < NPTENTRIES
    ensures Booted(s0)
  {}

  lemma ReorderedLength(q: seq<nat>, limit: nat)
    ensures |Low(q, limit) + High(q, limit)| == |q|
  {
    PartitionKeepsPages(q, limit);
    assert |multiset(Low(q, limit) + High(q, limit))| == |multiset(q)|;
  }

  // The directory entries below KERNBASE that check_kern_pgdir wants to be 0.
  predicate EmptyPde(d: nat) { d < 955 || d == 958 }

  lemma GuardFree()
    ensures !EmptyPde(UVPT_PDE)
  {}

  lemma KernNotListed(s: Vm)
    requires Booted(s)
    ensures s.kern !in s.free && s.kern < |s.refs|
  {}

  lemma PoolIsListed(s: Vm, s0: Vm, s1: Vm, list: seq<nat>)
    requires Booted(s) && s.free == list && s0.pool == s.pool && s1.pool == s0.pool
    ensures forall p :: p in s1.pool ==> p in list
  {}

  lemma BootedCache(s: Vm)
    requires Booted(s)
    ensures s.tlb == map[]
  {}

  lemma MemInitEnds(s0: Vm, s: Vm, pages: nat, envs: nat, stack: nat, infoSize: nat, envSize: nat)
    requires Booted(s0) && BootMap.MemInit(s0, pages, envs, stack) == Some(s)
    ensures Kernel(s) && s.dirs == {} && s.tlb == map[] && s.pool == s0.pool
    ensures |s0.refs| <= 65536 && |s0.refs| * infoSize <= PTSIZE && 1024 * envSize <= PTSIZE ==>
              CheckKernPgdir(s, pages, envs, stack, |s0.refs|, infoSize, envSize)
    ensures forall d :: 0 <= d < NPTENTRIES && EmptyPde(d) ==> Slot(s.kern, d) !in s.ents
  {
    NothingThere(s, pages, envs, stack);
    hide BootMap.MemInit, CheckKernPgdir, Inv, Booted, KernUserEmpty, Shaped;
    BootedInv(s0);
    assert s0.tlb == map[] by { BootedCache(s0); }
    MemInitPool(s0, pages, envs, stack);
    MemInitChecks(s0, pages, envs, stack, 0, 0, 0);
    MemInitShaped(s0, pages, envs, stack);
    BootingIsInv(s);
    if |s0.refs| <= 65536 && |s0.refs| * infoSize <= PTSIZE && 1024 * envSize <= PTSIZE {
      MemInitChecks(s0, pages, envs, stack, |s0.refs|, infoSize, envSize);
    }
  }

  lemma NothingThere(s: Vm, pages: nat, envs: nat, stack: nat)
    ensures CheckKernPgdir(s, pages, envs, stack, 0, 0, 0) ==>
              forall d :: 0 <= d < NPTENTRIES && EmptyPde(d) ==> Slot(s.kern, d) !in s.ents
  {}

  lemma WalkCached(s: Vm, tlb: map<nat, Xlate>, dir: nat, vpn: nat)
    requires InvPinned(s, None) && dir in Roots(s) && Coherent(s.(tlb := tlb))
    ensures Coherent(Walk(s, dir, vpn, true).0.(tlb := tlb))
  {
    hide InvPinned, CoherentBut, Quiet, Walk, WalkOps;
    var t := s.(tlb := tlb);
    InvSame(s, t);
    WalkQuiet(t, dir, vpn);
    QuietNow(t, WalkOps(t, dir, vpn), Walk(t, dir, vpn, true).0);
    WalkIgnoresCache(s, tlb, dir, vpn);
  }

  lemma WalkIgnoresCache(s: Vm, tlb: map<nat, Xlate>, dir: nat, vpn: nat)
    ensures Walk(s.(tlb := tlb), dir, vpn, true).0 == Walk(s, dir, vpn, true).0.(tlb := tlb)
  {}

  lemma SetupCached(s: Vm, tlb: map<nat, Xlate>)
    requires Inv(s) && Coherent(s.(tlb := tlb))
    ensures Coherent(EnvSetup(s).0.(tlb := tlb))
    ensures s.kern < |s.refs| && s.kern !in s.free
  {
    var t := s.(tlb := tlb);
    InvSame(s, t);
    SetupQuiet(t);
    assert Roles(s) && FreeList(s);
    hide Inv, Coherent, Quiet, CopyFrame;
    QuietNow(t, SetupOps(t), EnvSetup(t).0);
    assert EnvSetup(t).0 == EnvSetup(s).0.(tlb := tlb);
  }

  lemma WriteOff(s: Vm, sl: Slot, word: Option<Ent>)
    requires Coherent(s) && OffFrame(s, sl.frame)
    ensures Coherent(Exec(s, Write(sl, word)))
  {
    OffFrameQuiet(s, sl, word);
    hide Coherent, Quiet, Exec;
    QuietNow(s, [Write(sl, word)], Exec(s, Write(sl, word)));
  }

  lemma RemoveIs(s: Vm, dir: nat, vpn: nat)
    requires s.tlb == map[]
    ensures match Lookup(s, dir, vpn)
            case None => Remove(s, dir, vpn) == s
            case Some(sl) =>
              && sl in s.ents && VmState.PageDecref(s, s.ents[sl].page).ents == s.ents
              && Remove(s, dir, vpn) == VmState.PageDecref(s, s.ents[sl].page).(ents := s.ents - {sl})
  {
    assert s.tlb - {vpn} == s.tlb;
  }

  lemma RemoveClears(s: Vm, dir: nat, vpn: nat)
    requires Lookup(s, dir, vpn).Some?
    ensures Lookup(s, dir, vpn).value !in Remove(s, dir, vpn).ents
  {}

  lemma WriteAbsent(s: Vm, sl: Slot, word: Option<Ent>)
    requires Coherent(s) && sl !in s.ents
    ensures Coherent(Exec(s, Write(sl, word)))
  {
    AbsentQuiet(s, sl, word);
    hide Coherent, Quiet, Exec;
    QuietNow(s, [Write(sl, word)], Exec(s, Write(sl, word)));
  }

  // Nothing the walk reads has changed.
  lemma CountsOnly(s: Vm, t: Vm)
    requires Coherent(s) && t.ents == s.ents && t.cr3 == s.cr3 && t.tlb == s.tlb
    ensures Coherent(t)
  {
    assert forall v :: Translate(t, t.cr3, v) == Translate(s, s.cr3, v);
  }

  lemma WriteExposes(s: Vm, t: Vm, sl: Slot, word: Option<Ent>, exposed: set<nat>)
    requires Coherent(s) && t == Exec(s, Write(sl, word)) && Changed(s, Write(sl, word)) <= exposed
    ensures CoherentBut(t, exposed)
  {
    ExecCoherent(s, Write(sl, word), {});
    hide Changed;
  }

  lemma FlushCovers(s: Vm, vpn: nat)
    requires CoherentBut(s, {vpn})
    ensures Coherent(Invlpg(s, vpn))
  {
    ExecCoherent(s, Flush(vpn), {vpn});
  }

  lemma LookupInRange(s: Vm, pin: Option<nat>, dir: nat, vpn: nat)
    requires InvPinned(s, pin) && dir in Roots(s) && vpn < USER_VPNS
    ensures Lookup(s, dir, vpn).Some? ==>
              Lookup(s, dir, vpn).value in s.ents && s.ents[Lookup(s, dir, vpn).value].page < |s.refs|
  {
    if Lookup(s, dir, vpn).Some? {
      LeafInRange(s, pin, dir, vpn);
    }
  }

  lemma LeafInRange(s: Vm, pin: Option<nat>, dir: nat, vpn: nat)
    requires InvPinned(s, pin) && dir in Roots(s) && vpn < USER_VPNS && Lookup(s, dir, vpn).Some?
    ensures var sl := Lookup(s, dir, vpn).value;
      sl in s.ents && s.ents[sl].page < |s.refs| && (Ref(s, s.ents[sl].page) == 1 ==> s.ents[sl].page !in s.free)
    ensures dir in s.pool || dir == s.kern
  {
    LookupUser(s, dir, vpn);
  }

  // page_insert case by case, in the terms PageInsert works with.
  lemma PageInsertFacts(s: Vm, dir: nat, p: nat, va: Word, flags: nat)
    requires CanInsert(s, dir, p, PGNUM(va))
    ensures InvPinned(s, None) && dir in Roots(s) && p < |s.refs| && va < UTOP
    ensures Inv(Insert(s, dir, p, PGNUM(va), flags).0)
    ensures var vpn := PGNUM(va);
      var (s1, slot) := Walk(s, dir, vpn, true);
      if slot.None? then s1 == s && Insert(s, dir, p, vpn, flags) == (s, false)
      else
        var s2 := AddRef(s1, p, 1);
        var mapped := Lookup(s2, dir, vpn).Some?;
        && InvPinned(s2, Some(p)) && dir in Roots(s2)
        && Lookup(s2, dir, vpn) == (if slot.value in s2.ents then Some(slot.value) else None)
        && Insert(s, dir, p, vpn, flags) ==
           (Mapped(if mapped then Remove(s2, dir, vpn) else s2, slot.value, p, flags), true)
  {
    var vpn := PGNUM(va);
    Fields(va);
    InsertInv(s, dir, p, vpn, flags);
    InsertStages(s, dir, p, vpn, flags);
    WalkedRoots(s, dir, vpn);
    assert p < |s.refs| && va < UTOP && InvPinned(s, None);
    hide Inv, InvPinned;
  }

  lemma DirInRange(s: Vm, pin: Option<nat>, dir: nat, i: nat)
    requires InvPinned(s, pin) && dir in Roots(s)
    ensures dir < |s.refs|
    ensures Slot(dir, i) in s.ents ==> s.ents[Slot(dir, i)].page < |s.refs|
  {
    if Slot(dir, i) in s.ents {
      PdeTarget(s, pin, dir, i);
    }
  }

  lemma MapStaticFacts(s: Vm, va: Word, pa: Word, perm: nat, k: nat)
    requires Booting(s) && KernelVpn(PGNUM(va)) && perm < 0x1000 && pa % PGSIZE == 0
    ensures InvPinned(s, None) && s.kern in Roots(s)
    ensures var w := Or(Or(pa, perm), PTE_P);
      w < TWO32 && IsPresent(w) && Decode(w) == Ent(PGNUM(pa), Flags(perm))
    ensures var (s1, slot) := Walk(s, s.kern, PGNUM(va), true);
      var goal := BootMap.BootMapRegion(s, PGNUM(va), k + 1, PGNUM(pa), Flags(perm));
      if slot.None? then goal == None
      else
        var s2 := Mapped(s1, slot.value, PGNUM(pa), Flags(perm));
        Booting(s2) && goal == BootMap.BootMapRegion(s2, PGNUM(va) + 1, k, PGNUM(pa) + 1, Flags(perm))
  {
    hide Walk, KernelVpn, Flags, PGNUM, Or, Decode, IsPresent, MakePte, Inv, InvPinned, Booting, Region, Mapped,
        Roots;
    BootParts(s);
    PaWord(pa, perm);
    BootMapStep(s, PGNUM(va), k, PGNUM(pa), Flags(perm));
    if Walk(s, s.kern, PGNUM(va), true).1.Some? {
      OnePage(s, PGNUM(va), PGNUM(pa), Flags(perm));
    }
  }

  lemma InvIsPinned(s: Vm)
    requires Inv(s)
    ensures InvPinned(s, None)
  {}

  lemma PageSteps(a: Word, end: Word)
    requires a % PGSIZE == 0 && end % PGSIZE == 0 && a < end
    ensures PGNUM(a) == a / PGSIZE < end / PGSIZE
    ensures a + PGSIZE <= end && (a + PGSIZE) / PGSIZE == a / PGSIZE + 1 && (a + PGSIZE) % PGSIZE == 0
    ensures a == a / PGSIZE * PGSIZE
  {
    Fields(a);
  }

  lemma BootParts(s: Vm)
    requires Booting(s)
    ensures InvPinned(s, None) && s.kern in Roots(s)
  {}

  lemma BootMapStep(s: Vm, vpn: nat, k: nat, page: nat, flags: nat)
    ensures var (s1, slot) := Walk(s, s.kern, vpn, true);
      BootMap.BootMapRegion(s, vpn, k + 1, page, flags) ==
      if slot.None? then None else BootMap.BootMapRegion(Mapped(s1, slot.value, page, flags), vpn + 1, k, page + 1,
          flags)
  {}

  lemma BootMapDone(s: Vm, vpn: nat, page: nat, flags: nat)
    ensures BootMap.BootMapRegion(s, vpn, 0, page, flags) == Some(s)
  {}

  lemma KernelRange(v: nat)
    requires KernelVpn(v)
    ensures v < NVPNS
  {}

  // pa | perm | PTE_P
  lemma PaWord(pa: Word, perm: nat)
    requires pa % PGSIZE == 0 && perm < 0x1000
    ensures Or(Or(pa, perm), PTE_P) == MakePte(PGNUM(pa), perm) < TWO32
    ensures IsPresent(MakePte(PGNUM(pa), perm)) && Decode(MakePte(PGNUM(pa), perm)) == Ent(PGNUM(pa), Flags(perm))
  {
    hide And, Or, Shl, Shr;
    Powers();
    Fields(pa);
    ShlIsProduct(PGNUM(pa), 12);
    PteRoundTrip(PGNUM(pa), perm);
  }

  lemma NextPage(a: Word)
    requires a % PGSIZE == 0
    ensures PGNUM(a) < 0x10_0000 && (a + PGSIZE) % TWO32 % PGSIZE == 0
    ensures PGNUM(a) + 1 < 0x10_0000 ==> PGNUM((a + PGSIZE) % TWO32) == PGNUM(a) + 1
  {
    hide PGNUM, PDX, PTX, PGOFF, PTE_ADDR;
    Fields(a);
    var p := a / 4096;
    assert a == 4096 * p;
    if p == 0xF_FFFF {
      assert (a + PGSIZE) % TWO32 == 0;
    } else {
      assert (a + PGSIZE) % TWO32 == 4096 * (p + 1);
      Fields(4096 * (p + 1));
    }
  }

  lemma PageNumber(a: Word)
    ensures PGNUM(a) == a / PGSIZE
    ensures a % PGSIZE == 0 && a / PGSIZE <= USER_VPNS ==> a <= UTOP
  {
    Fields(a);
  }

  lemma PageOrder(begin: Word, end: Word)
    requires begin % PGSIZE == 0 && end % PGSIZE == 0 && end <= UTOP
    ensures begin < end ==>
              begin + PGSIZE <= end && PGNUM(begin + PGSIZE) == PGNUM(begin) + 1 && PGNUM(begin) < USER_VPNS
    ensures begin < end <==> PGNUM(begin) < PGNUM(end)
    ensures PGNUM(end) <= USER_VPNS
  {
    hide PGNUM, PDX, PTX, PGOFF, PTE_ADDR;
    Fields(begin);
    Fields(end);
    var b, e := begin / 4096, end / 4096;
    assert begin == 4096 * b && end == 4096 * e;
    if begin < end {
      assert b + 1 <= e;
      Fields(begin + PGSIZE);
    }
  }

  lemma Aligned(a: Word)
    ensures RoundDown(a, PGSIZE) % PGSIZE == 0 && RoundUp(a, PGSIZE) % PGSIZE == 0
  {}

  lemma RegionPage(s: Vm, dir: nat, vpn: nat, end: nat)
    requires Inv(s) && dir in s.dirs && vpn < end <= USER_VPNS
    ensures var s1 := PageAlloc(s, false).0;
      if s.free == [] then s1 == s && VmState.RegionAlloc(s, dir, vpn, end) == None
      else
        var s2 := Insert(s1, dir, s.free[0], vpn, TABLE_FLAGS).0;
        CanInsert(s1, dir, s.free[0], vpn) && s2.dirs == s.dirs
        && VmState.RegionAlloc(s, dir, vpn, end) == VmState.RegionAlloc(s2, dir, vpn + 1, end)
  {
    if s.free != [] {
      RegionStep(s, dir, vpn);
    }
  }

  lemma RegionDone(s: Vm, dir: nat, vpn: nat, end: nat)
    requires vpn >= end
    ensures VmState.RegionAlloc(s, dir, vpn, end) == Some(s)
  {}

  lemma SevenIsTableFlags()
    ensures Flags(PTE_W + PTE_U) == TABLE_FLAGS
  {
    FlagsRange(6);
  }

  lemma TableFacts(s: Vm, dir: nat, d: nat, t: nat)
    requires Inv(s) && Hangs(s, dir, d, t)
    ensures InvPinned(s, None) && t < |s.refs| && dir < |s.refs| && dir in Roots(s) && d < USER_PDES
  {}

  lemma UserAddress(d: nat, j: nat)
    requires d < USER_PDES && j < NPTENTRIES
    ensures PGADDR(d, j, 0) < UTOP && PGNUM(PGADDR(d, j, 0)) == d * NPTENTRIES + j
  {
    Recompose(d, j, 0);
    Fields(PGADDR(d, j, 0));
  }

  lemma UnmapTableStep(s: Vm, dir: nat, d: nat, t: nat, j: nat)
    requires j < NPTENTRIES
    ensures UnmapTable(s, dir, d, t, j) == UnmapTable(UnmapStep(s, dir, d, t, j), dir, d, t, j + 1)
  {}

  lemma TableDone(s: Vm, s1: Vm, dir: nat, d: nat, t: nat)
    requires Inv(s) && Hangs(s, dir, d, t) && Inv(s1)
    requires UnmapTable(s1, dir, d, t, NPTENTRIES) == UnmapTable(s, dir, d, t, 0)
    ensures s1 == UnmapTable(s, dir, d, t, 0) && t !in s1.free && t < |s1.refs| && dir < |s1.refs| && d < USER_PDES
    ensures Slot(dir, d) in s1.ents
  {
    UnmapTableEffect(s, dir, d, t, 0);
    HangsTable(s, dir, d, t);
  }

  lemma EnvFreeStarts(s: Vm, dir: nat, current: bool)
    requires Inv(s) && CanFree(s, dir, current)
    ensures var s0 := if current then Lcr3(s, s.kern) else s;
      Idle(s0, dir) && dir < |s0.refs|
  {
    Lcr3Inv(s, s.kern);
  }

  lemma FreeUserStep(s: Vm, dir: nat, d: nat)
    requires Idle(s, dir) && d < USER_PDES
    ensures var s' := if Slot(dir, d) in s.ents then FreeTable(s, dir, d, s.ents[Slot(dir, d)].page) else s;
      Idle(s', dir) && FreeUser(s, dir, d) == FreeUser(s', dir, d + 1)
  {
    if Slot(dir, d) in s.ents {
      FreeTableEffect(s, dir, d, s.ents[Slot(dir, d)].page);
    }
  }

  lemma FreeUserDone(s: Vm, s1: Vm, dir: nat)
    requires Inv(s1) && dir in s1.dirs && FreeUser(s1, dir, USER_PDES) == FreeUser(s, dir, 0)
    ensures s1 == FreeUser(s, dir, 0) && dir !in s1.free
  {}

  // A word made of a page's address and an odd number of flag bits.
  lemma WordFields(page: nat, flags: nat)
    requires page < 0x10_0000 && flags < 0x1000 && flags % 2 == 1
    ensures var w := page * 0x1000 + flags;
      w < TWO32 && IsPresent(w) && Decode(w) == Ent(page, flags)
  {
    hide And, Shr;
    var w := page * 0x1000 + flags;
    DivModUnique(w, 0x1000, page, flags);
    AndOne(w);
    Fields(w);
    DivModUnique(page * 0x1000, 0x1000, page, 0);
    Fields(page * 0x1000);
  }

  lemma AddressOfPage(w: Word)
    ensures PTE_ADDR(w) == PGNUM(PTE_ADDR(w)) * 0x1000 < TWO32
  {
    Fields(w);
    Fields(PTE_ADDR(w));
  }

  lemma PageAddress(page: nat)
    requires page < 0x10_0000
    ensures Page2pa(page) == page * 0x1000 < TWO32 && Page2pa(page) % 8 == 0
  {
    hide Shl;
    Powers();
    ShlIsProduct(page, 12);
  }

  lemma TableWord(page: nat)
    requires page < 0x10_0000
    ensures Page2pa(page) < TWO32
    ensures var w := Or(Or(Or(Page2pa(page), PTE_P), PTE_U), PTE_W);
      w == page * 0x1000 + 7 < TWO32 && IsPresent(w) && Decode(w) == Ent(page, TABLE_FLAGS)
  {
    hide Or, Page2pa, IsPresent, Decode;
    PageAddress(page);
    var x := Page2pa(page);
    OrOne(x);
    OrFour(x + 1);
    OrTwo(x + 5);
    WordFields(page, 7);
  }

  lemma SelfWord(page: nat)
    requires page < 0x10_0000
    ensures Page2pa(page) < TWO32
    ensures var w := Or(Or(Page2pa(page), PTE_P), PTE_U);
      w == page * 0x1000 + 5 < TWO32 && IsPresent(w) && Decode(w) == Ent(page, SELF_FLAGS)
  {
    hide Or, Page2pa, IsPresent, Decode;
    PageAddress(page);
    var x := Page2pa(page);
    OrOne(x);
    OrFour(x + 1);
    WordFields(page, 5);
  }

  lemma OrTwo(x: nat)
    requires x % 4 == 1
    ensures Or(x, 2) == x + 2
  {
    OrOne(x / 2);
  }

  lemma OrFour(x: nat)
    requires x % 8 == 1
    ensures Or(x, 4) == x + 4
  {
    OrOne(x / 4);
    assert Or(x / 2, 2) == 2 * Or(x / 4, 1);
  }
}
