/** The operations of pmap.c and env.c one memory access at a time, with a processor that may fill its
    translation cache before, between and after any two of them.  What an operation must do in which
    order so that the cache holds nothing stale when it returns, whatever was cached on the way. */
module MicroSteps {
  import opened Wrappers
  import opened VmState
  import opened VmInvariant
  import opened AddressSpace
  import opened Translation

  // One access: a reference count, the list head, one word of memory, invlpg, a load of cr3.  Assign
  // records the roles of pages and touches nothing.
  datatype Micro =
    | RefBy(p: nat, k: int)
    | SetFree(free: seq<nat>)
    | Write(sl: Slot, word: Option<Ent>)
    | Flush(vpn: nat)
    | Load(dir: nat)
    | Assign(dirs: set<nat>, tables: set<nat>, ktables: set<nat>)

  function SetWord(ents: map<Slot, Ent>, sl: Slot, word: Option<Ent>): map<Slot, Ent> {
    match word
    case None => ents - {sl}
    case Some(e) => ents[sl := e]
  }

  function Exec(s: Vm, m: Micro): Vm {
    match m
    case RefBy(p, k) => AddRef(s, p, k)
    case SetFree(free) => s.(free := free)
    case Write(sl, word) => s.(ents := SetWord(s.ents, sl, word))
    case Flush(vpn) => Invlpg(s, vpn)
    case Load(dir) => Lcr3(s, dir)
    case Assign(dirs, tables, ktables) => s.(dirs := dirs, tables := tables, ktables := ktables)
  }

  function ExecAll(s: Vm, ms: seq<Micro>): Vm
    decreases |ms|
  {
    if ms == [] then s else ExecAll(Exec(s, ms[0]), ms[1..])
  }

  // The processor caches the current translations of the pages vs, those that have one.
  ghost function Fill(s: Vm, vs: set<nat>): Vm {
    s.(tlb := s.tlb + map v | v in vs && v < NVPNS && Translate(s, s.cr3, v).Some? :: Translate(s, s.cr3, v).value)
  }

  // The accesses ms with fills before each of them and after the last; a list that is too short stands
  // for no more fills.
  ghost function Interleaved(s: Vm, ms: seq<Micro>, fills: seq<set<nat>>): Vm
    decreases |ms|
  {
    var s1 := if fills == [] then s else Fill(s, fills[0]);
    var rest := if fills == [] then [] else fills[1..];
    if ms == [] then s1 else Interleaved(Exec(s1, ms[0]), ms[1..], rest)
  }

  // -------------------------------------------------------------------------
  // Coherence, access by access
  // -------------------------------------------------------------------------

  // Every cached translation of a page outside exposed is what the current tables give.
  ghost predicate CoherentBut(s: Vm, exposed: set<nat>) {
    forall v :: v in s.tlb && v !in exposed ==> v < NVPNS && Translate(s, s.cr3, v) == Some(s.tlb[v])
  }

  ghost predicate Coherent(s: Vm) { CoherentBut(s, {}) }

  // The same but for the cache.
  ghost predicate SameMemory(s: Vm, t: Vm) { s.(tlb := t.tlb) == t }

  // The pages whose present translation the access takes away or alters.
  ghost function Changed(s: Vm, m: Micro): set<nat> {
    set v | 0 <= v < NVPNS && Translate(s, s.cr3, v).Some?
        && Translate(Exec(s, m), s.cr3, v) != Translate(s, s.cr3, v)
  }

  // The pages that may be cached stale after the access, given those that may be before.
  ghost function Exposed(s: Vm, m: Micro, exposed: set<nat>): set<nat> {
    match m
    case Flush(vpn) => exposed - {vpn}
    case Load(_) => {}
    case _ => exposed + Changed(s, m)
  }

  ghost function ExposedAll(s: Vm, ms: seq<Micro>, exposed: set<nat>): set<nat>
    decreases |ms|
  {
    if ms == [] then exposed else ExposedAll(Exec(s, ms[0]), ms[1..], Exposed(s, ms[0], exposed))
  }

  lemma FillCoherent(s: Vm, exposed: set<nat>, vs: set<nat>)
    requires CoherentBut(s, exposed)
    ensures CoherentBut(Fill(s, vs), exposed) && SameMemory(s, Fill(s, vs))
  {
    assert forall v :: Translate(Fill(s, vs), s.cr3, v) == Translate(s, s.cr3, v);
  }

  lemma ExecCoherent(s: Vm, m: Micro, exposed: set<nat>)
    requires CoherentBut(s, exposed)
    ensures CoherentBut(Exec(s, m), Exposed(s, m, exposed))
  {
    if m.Flush? {
      assert forall v :: Translate(Exec(s, m), s.cr3, v) == Translate(s, s.cr3, v);
    } else if !m.Load? {
      assert Exec(s, m).tlb == s.tlb && Exec(s, m).cr3 == s.cr3;
      hide Translate, Exec;
    }
  }

  lemma ExecSame(s: Vm, t: Vm, m: Micro, exposed: set<nat>)
    requires SameMemory(s, t)
    ensures SameMemory(Exec(s, m), Exec(t, m)) && Exposed(s, m, exposed) == Exposed(t, m, exposed)
  {
    assert forall v :: Translate(s, s.cr3, v) == Translate(t, t.cr3, v);
    assert forall v :: Translate(Exec(s, m), s.cr3, v) == Translate(Exec(t, m), t.cr3, v);
  }

  // Whatever is cached on the way, only exposed pages can be stale at the end, and memory is as without
  // any fill.
  lemma {:induction false} InterleavedCoherent(s: Vm, t: Vm, ms: seq<Micro>, fills: seq<set<nat>>, exposed: set<nat>)
    requires SameMemory(s, t) && CoherentBut(t, exposed)
    ensures var r := Interleaved(t, ms, fills);
      SameMemory(ExecAll(s, ms), r) && CoherentBut(r, ExposedAll(s, ms, exposed))
    decreases |ms|
  {
    hide CoherentBut, Exposed, Fill, Exec;
    var t1 := if fills == [] then t else Fill(t, fills[0]);
    var rest := if fills == [] then [] else fills[1..];
    if fills != [] {
      FillCoherent(t, exposed, fills[0]);
    }
    if ms != [] {
      ExecSame(s, t1, ms[0], exposed);
      ExecCoherent(t1, ms[0], exposed);
      InterleavedCoherent(Exec(s, ms[0]), Exec(t1, ms[0]), ms[1..], rest, Exposed(s, ms[0], exposed));
    }
  }

  lemma {:induction false} NoFills(s: Vm, ms: seq<Micro>)
    ensures Interleaved(s, ms, []) == ExecAll(s, ms)
    decreases |ms|
  {
    hide Exec;
    if ms != [] {
      NoFills(Exec(s, ms[0]), ms[1..]);
    }
  }

  // The accesses ms take s to s', and leave no page exposed.
  ghost predicate Quiet(s: Vm, ms: seq<Micro>, s': Vm) {
    ExecAll(s, ms) == s' && ExposedAll(s, ms, {}) == {}
  }

  lemma QuietCoherent(s: Vm, ms: seq<Micro>, s': Vm, fills: seq<set<nat>>)
    requires Quiet(s, ms, s') && Coherent(s)
    ensures Coherent(Interleaved(s, ms, fills)) && SameMemory(s', Interleaved(s, ms, fills))
  {
    InterleavedCoherent(s, s, ms, fills, {});
  }

  lemma QuietNow(s: Vm, ms: seq<Micro>, s': Vm)
    requires Quiet(s, ms, s') && Coherent(s)
    ensures Coherent(s')
  {
    QuietCoherent(s, ms, s', []);
    NoFills(s, ms);
  }

  lemma {:induction false} Concatenated(s: Vm, a: seq<Micro>, b: seq<Micro>, exposed: set<nat>)
    ensures ExecAll(s, a + b) == ExecAll(ExecAll(s, a), b)
    ensures ExposedAll(s, a + b, exposed) == ExposedAll(ExecAll(s, a), b, ExposedAll(s, a, exposed))
    decreases |a|
  {
    hide Exec, Exposed;
    if a == [] {
      assert a + b == b;
    } else {
      assert (a + b)[1..] == a[1..] + b;
      Concatenated(Exec(s, a[0]), a[1..], b, Exposed(s, a[0], exposed));
    }
  }

  lemma QuietJoin(s: Vm, a: seq<Micro>, s1: Vm, b: seq<Micro>, s2: Vm)
    requires Quiet(s, a, s1) && Quiet(s1, b, s2)
    ensures Quiet(s, a + b, s2)
  {
    Concatenated(s, a, b, {});
  }

  lemma QuietNone(s: Vm)
    ensures Quiet(s, [], s)
  {}

  lemma QuietOne(s: Vm, m: Micro)
    requires m.Flush? || m.Load? || Changed(s, m) == {}
    ensures Quiet(s, [m], Exec(s, m))
  {
    var s1 := Exec(s, m);
    assert [m][1..] == [];
    assert ExecAll(s1, []) == s1 && ExposedAll(s1, [], {}) == {};
    hide Changed, Exec;
    assert Exposed(s, m, {}) == {};
  }

  // -------------------------------------------------------------------------
  // Accesses that expose nothing
  // -------------------------------------------------------------------------

  lemma BookkeepingQuiet(s: Vm, m: Micro)
    requires m.RefBy? || m.SetFree? || m.Assign?
    ensures Quiet(s, [m], Exec(s, m))
  {
    assert forall v :: Translate(Exec(s, m), s.cr3, v) == Translate(s, s.cr3, v);
    QuietOne(s, m);
  }

  // A word that was not present was cached for no page.
  lemma AbsentQuiet(s: Vm, sl: Slot, word: Option<Ent>)
    requires sl !in s.ents
    ensures Quiet(s, [Write(sl, word)], Exec(s, Write(sl, word)))
  {
    var m := Write(sl, word);
    forall v | Translate(s, s.cr3, v).Some? ensures Translate(Exec(s, m), s.cr3, v) == Translate(s, s.cr3, v) {
    }
    QuietOne(s, m);
  }

  // Frame p is not on any translation path of the current directory.
  ghost predicate OffFrame(s: Vm, p: nat) {
    s.cr3 != p && forall i :: Slot(s.cr3, i) in s.ents ==> s.ents[Slot(s.cr3, i)].page != p
  }

  lemma OffFrameQuiet(s: Vm, sl: Slot, word: Option<Ent>)
    requires OffFrame(s, sl.frame)
    ensures Quiet(s, [Write(sl, word)], Exec(s, Write(sl, word))) && OffFrame(Exec(s, Write(sl, word)), sl.frame)
  {
    var m := Write(sl, word);
    assert forall v: nat :: Translate(Exec(s, m), s.cr3, v) == Translate(s, s.cr3, v);
    QuietOne(s, m);
  }

  lemma DataOff(s: Vm, pin: Option<nat>, p: nat)
    requires InvPinned(s, pin) && IsData(s, p)
    ensures OffFrame(s, p)
  {
    forall i | Slot(s.cr3, i) in s.ents ensures s.ents[Slot(s.cr3, i)].page != p {
      PdeTarget(s, pin, s.cr3, i);
    }
  }

  lemma OtherDirOff(s: Vm, dir: nat)
    requires Inv(s) && dir in s.dirs && s.cr3 != dir
    ensures OffFrame(s, dir)
  {
    forall i | Slot(s.cr3, i) in s.ents ensures s.ents[Slot(s.cr3, i)].page != dir {
      PdeTarget(s, None, s.cr3, i);
    }
  }

  // -------------------------------------------------------------------------
  // page_alloc, page_decref
  // -------------------------------------------------------------------------

  // memset of a page, word by word.
  function ZeroOps(p: nat, j: nat): seq<Micro>
    decreases NPTENTRIES - j
  {
    if j >= NPTENTRIES then [] else [Write(Slot(p, j), None)] + ZeroOps(p, j + 1)
  }

  function AllocOps(s: Vm, zero: bool): seq<Micro> {
    if s.free == [] then [] else [SetFree(s.free[1..])] + if zero then ZeroOps(s.free[0], 0) else []
  }

  function DecrefOps(s: Vm, p: nat): seq<Micro> {
    [RefBy(p, -1)] + if Ref(AddRef(s, p, -1), p) == 0 then [SetFree([p] + s.free)] else []
  }

  lemma {:induction false} ZeroQuiet(s: Vm, p: nat, j: nat)
    requires OffFrame(s, p) && j <= NPTENTRIES
    ensures Quiet(s, ZeroOps(p, j), s.(ents := Cut(s.ents, p, j)))
    decreases NPTENTRIES - j
  {
    hide OffFrame, Quiet;
    if j == NPTENTRIES {
      assert Cut(s.ents, p, j) == s.ents;
      QuietNone(s);
    } else {
      var m := Write(Slot(p, j), None);
      OffFrameQuiet(s, m.sl, None);
      ZeroQuiet(Exec(s, m), p, j + 1);
      CutStep(s.ents, p, j);
      QuietJoin(s, [m], Exec(s, m), ZeroOps(p, j + 1), s.(ents := Cut(s.ents, p, j)));
    }
  }

  // Without the words j to 1023 of frame p.
  ghost function Cut(ents: map<Slot, Ent>, p: nat, j: nat): map<Slot, Ent> {
    map sl | sl in ents && !(sl.frame == p && j <= sl.idx < NPTENTRIES) :: ents[sl]
  }

  lemma CutStep(ents: map<Slot, Ent>, p: nat, j: nat)
    requires j < NPTENTRIES
    ensures Cut(ents - {Slot(p, j)}, p, j + 1) == Cut(ents, p, j)
  {
    forall sl: Slot | sl.frame == p && j <= sl.idx ensures sl == Slot(p, j) || j + 1 <= sl.idx {
    }
  }

  lemma CutAll(s: Vm, p: nat)
    requires Layered(s)
    ensures Cut(s.ents, p, 0) == ClearFrame(s.ents, p)
  {}

  lemma AllocQuiet(s: Vm, zero: bool)
    requires Inv(s)
    ensures Quiet(s, AllocOps(s, zero), PageAlloc(s, zero).0)
  {
    hide Quiet, Exec;
    if s.free == [] {
      QuietNone(s);
    } else {
      var p, m := s.free[0], SetFree(s.free[1..]);
      var s1 := Exec(s, m);
      AllocPops(s);
      BookkeepingQuiet(s, m);
      if zero {
        ZeroQuiet(s1, p, 0);
        CutAll(s, p);
        QuietJoin(s, [m], s1, ZeroOps(p, 0), PageAlloc(s, zero).0);
      } else {
        assert AllocOps(s, zero) == [m];
      }
    }
  }

  lemma AllocPops(s: Vm)
    requires Inv(s) && s.free != []
    ensures var s1 := Exec(s, SetFree(s.free[1..])); s1 == s.(free := s.free[1..]) && OffFrame(s1, s.free[0])
    ensures Layered(s)
  {
    assert s.free[0] in s.free;
    DataOff(s, None, s.free[0]);
  }

  lemma DecrefQuiet(s: Vm, p: nat)
    ensures Quiet(s, DecrefOps(s, p), PageDecref(s, p))
  {
    var m, s1 := RefBy(p, -1), AddRef(s, p, -1);
    BookkeepingQuiet(s, m);
    if Ref(s1, p) == 0 {
      var m2 := SetFree([p] + s.free);
      BookkeepingQuiet(s1, m2);
      QuietJoin(s, [m], s1, [m2], PageDecref(s, p));
    } else {
      assert DecrefOps(s, p) == [m];
    }
  }

  // -------------------------------------------------------------------------
  // pgdir_walk, page_remove, page_insert
  // -------------------------------------------------------------------------

  // The new page's count, and the directory entry that hooks it in.
  function HookOps(s: Vm, dir: nat, d: nat, p: nat): seq<Micro> {
    [RefBy(p, 1)] + ([Assign(s.dirs, NewTable(s, dir, d, p).tables, NewTable(s, dir, d, p).ktables)]
                     + [Write(Slot(dir, d), Some(Ent(p, TABLE_FLAGS)))])
  }

  function WalkOps(s: Vm, dir: nat, vpn: nat): seq<Micro> {
    if Slot(dir, Pdx(vpn)) in s.ents then []
    else
      AllocOps(s, true) + if s.free == [] then [] else HookOps(PageAlloc(s, true).0, dir, Pdx(vpn), s.free[0])
  }

  function RemoveOps(s: Vm, dir: nat, vpn: nat): seq<Micro> {
    match Lookup(s, dir, vpn)
    case None => []
    case Some(sl) => DecrefOps(s, s.ents[sl].page) + ([Write(sl, None)] + [Flush(vpn)])
  }

  function InsertOps(s: Vm, dir: nat, p: nat, vpn: nat, flags: nat): seq<Micro> {
    var (s1, slot) := Walk(s, dir, vpn, true);
    WalkOps(s, dir, vpn) +
    match slot
    case None => []
    case Some(sl) =>
      var s2 := AddRef(s1, p, 1);
      [RefBy(p, 1)] + ((if sl in s2.ents then RemoveOps(s2, dir, vpn) else []) + [Write(sl, Some(Ent(p, flags)))])
  }

  lemma HookQuiet(s: Vm, dir: nat, d: nat, p: nat)
    requires Slot(dir, d) !in s.ents
    ensures Quiet(s, HookOps(s, dir, d, p), NewTable(s, dir, d, p))
  {
    var m1, s1 := RefBy(p, 1), AddRef(s, p, 1);
    var m2 := Assign(s.dirs, NewTable(s, dir, d, p).tables, NewTable(s, dir, d, p).ktables);
    var s2 := Exec(s1, m2);
    var m3 := Write(Slot(dir, d), Some(Ent(p, TABLE_FLAGS)));
    BookkeepingQuiet(s, m1);
    BookkeepingQuiet(s1, m2);
    AbsentQuiet(s2, m3.sl, m3.word);
    assert Exec(s2, m3) == NewTable(s, dir, d, p);
    hide Quiet;
    QuietJoin(s1, [m2], s2, [m3], NewTable(s, dir, d, p));
    QuietJoin(s, [m1], s1, [m2] + [m3], NewTable(s, dir, d, p));
  }

  lemma WalkQuiet(s: Vm, dir: nat, vpn: nat)
    requires Inv(s) && dir in Roots(s)
    ensures Quiet(s, WalkOps(s, dir, vpn), Walk(s, dir, vpn, true).0)
  {
    hide Quiet, InvPinned;
    if Slot(dir, Pdx(vpn)) in s.ents {
      QuietNone(s);
    } else {
      AllocQuiet(s, true);
      var s1 := PageAlloc(s, true).0;
      if s.free == [] {
        assert WalkOps(s, dir, vpn) == AllocOps(s, true);
      } else {
        var p := s.free[0];
        HookQuiet(s1, dir, Pdx(vpn), p);
        QuietJoin(s, AllocOps(s, true), s1, HookOps(s1, dir, Pdx(vpn), p), NewTable(s1, dir, Pdx(vpn), p));
      }
    }
  }

  // Clearing the word exposes the one page it maps, invlpg then covers it.
  lemma RemoveQuiet(s: Vm, pin: Option<nat>, dir: nat, vpn: nat)
    requires InvPinned(s, pin) && dir in Roots(s) && vpn < USER_VPNS
    ensures Quiet(s, RemoveOps(s, dir, vpn), Remove(s, dir, vpn))
  {
    match Lookup(s, dir, vpn)
    case None => QuietNone(s);
    case Some(sl) =>
      var s1 := PageDecref(s, s.ents[sl].page);
      DecrefQuiet(s, s.ents[sl].page);
      ClearExposes(s, s1, pin, dir, vpn, sl);
      hide InvPinned;
      ClearThenFlush(s1, sl, vpn);
      QuietJoin(s, DecrefOps(s, s.ents[sl].page), s1, [Write(sl, None)] + [Flush(vpn)], Remove(s, dir, vpn));
  }

  lemma ClearThenFlush(s: Vm, sl: Slot, vpn: nat)
    requires Changed(s, Write(sl, None)) <= {vpn}
    ensures Quiet(s, [Write(sl, None)] + [Flush(vpn)], Invlpg(s.(ents := s.ents - {sl}), vpn))
  {
    var m := Write(sl, None);
    var ms := [m] + [Flush(vpn)];
    var s1 := Exec(s, m);
    assert ms[1..] == [Flush(vpn)] && [Flush(vpn)][1..] == [];
    hide Changed;
    var exposed := Exposed(s, m, {});
    assert Exposed(s1, Flush(vpn), exposed) == {};
    assert ExecAll(s1, [Flush(vpn)]) == Exec(s1, Flush(vpn));
    assert ExposedAll(s1, [Flush(vpn)], exposed) == {};
  }

  lemma ClearExposes(s: Vm, s1: Vm, pin: Option<nat>, dir: nat, vpn: nat, sl: Slot)
    requires InvPinned(s, pin) && dir in Roots(s) && vpn < USER_VPNS && Lookup(s, dir, vpn) == Some(sl)
    requires s1.ents == s.ents && s1.cr3 == s.cr3
    ensures Changed(s1, Write(sl, None)) <= {vpn}
  {
    hide InvPinned, Lookup;
    forall v | v in Changed(s1, Write(sl, None)) ensures v == vpn {
      SameTranslations(s, s1, sl, v);
      RemovedWord(s, pin, dir, vpn, sl, v);
    }
  }

  lemma SameTranslations(s: Vm, s1: Vm, sl: Slot, v: nat)
    requires s1.ents == s.ents && s1.cr3 == s.cr3
    ensures Translate(s1, s1.cr3, v) == Translate(s, s.cr3, v)
    ensures Translate(Exec(s1, Write(sl, None)), s1.cr3, v) == Translate(s.(ents := s.ents - {sl}), s.cr3, v)
  {}

  // A page whose translation uses the cleared word is the one being removed.
  lemma RemovedWord(s: Vm, pin: Option<nat>, dir: nat, vpn: nat, sl: Slot, v: nat)
    requires InvPinned(s, pin) && dir in Roots(s) && vpn < USER_VPNS && v < NVPNS && Lookup(s, dir, vpn) == Some(sl)
    requires Translate(s, s.cr3, v).Some?
    ensures Translate(s.(ents := s.ents - {sl}), s.cr3, v) == Translate(s, s.cr3, v) || (v == vpn && s.cr3 == dir)
  {
    hide InvPinned;
    LookupFrame(s, pin, dir, vpn);
    if LeafSlot(s, s.cr3, v) == Some(sl) {
      LeafSlotInjective(s, pin, dir, vpn, s.cr3, v);
    }
  }

  lemma LookupFrame(s: Vm, pin: Option<nat>, dir: nat, vpn: nat)
    requires InvPinned(s, pin) && dir in Roots(s) && vpn < USER_VPNS && Lookup(s, dir, vpn).Some?
    ensures Lookup(s, dir, vpn).value.frame != s.cr3 && s.cr3 in Roots(s)
  {
    LookupUser(s, dir, vpn);
  }

  // What page_insert does once the page table is there.
  lemma ReplaceQuiet(s: Vm, p: nat, dir: nat, vpn: nat, sl: Slot, flags: nat)
    requires InvPinned(s, Some(p)) && dir in Roots(s) && vpn < USER_VPNS && LeafSlot(s, dir, vpn) == Some(sl)
    ensures var s3 := if sl in s.ents then Remove(s, dir, vpn) else s;
      var ms := if sl in s.ents then RemoveOps(s, dir, vpn) else [];
      Quiet(s, ms + [Write(sl, Some(Ent(p, flags)))], Mapped(s3, sl, p, flags))
  {
    var s3 := if sl in s.ents then Remove(s, dir, vpn) else s;
    var ms := if sl in s.ents then RemoveOps(s, dir, vpn) else [];
    if sl in s.ents {
      RemoveQuiet(s, Some(p), dir, vpn);
    } else {
      QuietNone(s);
    }
    hide InvPinned, Quiet;
    var m := Write(sl, Some(Ent(p, flags)));
    AbsentQuiet(s3, sl, m.word);
    QuietJoin(s, ms, s3, [m], Mapped(s3, sl, p, flags));
  }

  lemma InsertQuiet(s: Vm, dir: nat, p: nat, vpn: nat, flags: nat)
    requires CanInsert(s, dir, p, vpn)
    ensures Quiet(s, InsertOps(s, dir, p, vpn, flags), Insert(s, dir, p, vpn, flags).0)
  {
    InsertStages(s, dir, p, vpn, flags);
    WalkQuiet(s, dir, vpn);
    WalkedRoots(s, dir, vpn);
    hide Inv, InvPinned, Quiet;
    var (s1, slot) := Walk(s, dir, vpn, true);
    match slot
    case None =>
      assert InsertOps(s, dir, p, vpn, flags) == WalkOps(s, dir, vpn);
    case Some(sl) =>
      var s2, s' := AddRef(s1, p, 1), Insert(s, dir, p, vpn, flags).0;
      BookkeepingQuiet(s1, RefBy(p, 1));
      ReplaceQuiet(s2, p, dir, vpn, sl, flags);
      var ms := (if sl in s2.ents then RemoveOps(s2, dir, vpn) else []) + [Write(sl, Some(Ent(p, flags)))];
      hide Remove, RemoveOps, Walk, WalkOps;
      QuietJoin(s1, [RefBy(p, 1)], s2, ms, s');
      QuietJoin(s, WalkOps(s, dir, vpn), s1, [RefBy(p, 1)] + ms, s');
  }

  // -------------------------------------------------------------------------
  // env_setup_vm
  // -------------------------------------------------------------------------

  // memcpy of frame src, whose words are those of `from`, to frame dst, word by word.
  function CopyOps(from: map<Slot, Ent>, src: nat, dst: nat, j: nat): seq<Micro>
    decreases NPTENTRIES - j
  {
    if j >= NPTENTRIES then []
    else
      var word := if Slot(src, j) in from then Some(from[Slot(src, j)]) else None;
      [Write(Slot(dst, j), word)] + CopyOps(from, src, dst, j + 1)
  }

  function SetupOps(s: Vm): seq<Micro> {
    AllocOps(s, true) + if s.free == [] then [] else InstallOps(PageAlloc(s, true).0, s.free[0])
  }

  function InstallOps(s: Vm, p: nat): seq<Micro> {
    [RefBy(p, 1)] + ([Assign(s.dirs + {p}, s.tables, s.ktables)]
                     + (CopyOps(s.ents, s.kern, p, 0) + [Write(Slot(p, UVPT_PDE), Some(Ent(p, SELF_FLAGS)))]))
  }

  // Words j to 1023 of frame dst are those of frame src of `from`.
  ghost predicate Pasted(was: map<Slot, Ent>, now: map<Slot, Ent>, from: map<Slot, Ent>, src: nat, dst: nat, j: nat) {
    && (forall sl: Slot :: sl in now <==>
          if sl.frame == dst && j <= sl.idx < NPTENTRIES then Slot(src, sl.idx) in from else sl in was)
    && (forall sl: Slot :: sl in now ==>
          now[sl] == if sl.frame == dst && j <= sl.idx < NPTENTRIES then from[Slot(src, sl.idx)] else was[sl])
  }

  lemma PasteStep(was: map<Slot, Ent>, now: map<Slot, Ent>, from: map<Slot, Ent>, src: nat, dst: nat, j: nat)
    requires j < NPTENTRIES
    requires Pasted(SetWord(was, Slot(dst, j), if Slot(src, j) in from then Some(from[Slot(src, j)]) else None),
        now, from, src, dst, j + 1)
    ensures Pasted(was, now, from, src, dst, j)
  {
    forall sl: Slot | sl.frame == dst && j <= sl.idx ensures sl == Slot(dst, j) || j + 1 <= sl.idx {
    }
  }

  lemma {:induction false} CopyQuiet(s: Vm, from: map<Slot, Ent>, src: nat, dst: nat, j: nat)
    requires OffFrame(s, dst) && j <= NPTENTRIES
    ensures var s' := ExecAll(s, CopyOps(from, src, dst, j));
      Quiet(s, CopyOps(from, src, dst, j), s') && s' == s.(ents := s'.ents)
          && Pasted(s.ents, s'.ents, from, src, dst, j)
    decreases NPTENTRIES - j
  {
    hide OffFrame, Quiet, Pasted;
    if j == NPTENTRIES {
      QuietNone(s);
      assert Pasted(s.ents, s.ents, from, src, dst, j) by { PastedNone(s.ents, from, src, dst); }
    } else {
      var m := Write(Slot(dst, j), if Slot(src, j) in from then Some(from[Slot(src, j)]) else None);
      OffFrameQuiet(s, m.sl, m.word);
      CopyQuiet(Exec(s, m), from, src, dst, j + 1);
      var s' := ExecAll(Exec(s, m), CopyOps(from, src, dst, j + 1));
      PasteStep(s.ents, s'.ents, from, src, dst, j);
      QuietJoin(s, [m], Exec(s, m), CopyOps(from, src, dst, j + 1), s');
      QuietEnds(s, CopyOps(from, src, dst, j), s');
    }
  }

  lemma QuietEnds(s: Vm, ms: seq<Micro>, s': Vm)
    requires Quiet(s, ms, s')
    ensures ExecAll(s, ms) == s'
  {}

  lemma PastedNone(was: map<Slot, Ent>, from: map<Slot, Ent>, src: nat, dst: nat)
    ensures Pasted(was, was, from, src, dst, NPTENTRIES)
  {}

  lemma PastedAll(s: Vm, now: map<Slot, Ent>, src: nat, dst: nat)
    requires Layered(s) && Pasted(s.ents, now, s.ents, src, dst, 0)
    ensures now == CopyFrame(s.ents, src, dst)
  {
    CopyIs(s.ents, now, src, dst);
  }

  lemma SetupQuiet(s: Vm)
    requires Inv(s)
    ensures Quiet(s, SetupOps(s), EnvSetup(s).0)
  {
    hide Quiet, InvPinned, CopyFrame;
    AllocQuiet(s, true);
    var s1 := PageAlloc(s, true).0;
    if s.free == [] {
      assert SetupOps(s) == AllocOps(s, true);
    } else {
      var p := s.free[0];
      BlankOff(s);
      InstallQuiet(s1, p);
      QuietJoin(s, AllocOps(s, true), s1, InstallOps(s1, p), Installed(s1, p));
    }
  }

  lemma BlankOff(s: Vm)
    requires Inv(s) && s.free != []
    ensures var s1 := PageAlloc(s, true).0; OffFrame(s1, s.free[0]) && Layered(s1)
  {
    AllocInv(s, true);
    DataOff(PageAlloc(s, true).0, None, s.free[0]);
  }

  lemma InstallQuiet(s: Vm, p: nat)
    requires OffFrame(s, p) && Layered(s)
    ensures Quiet(s, InstallOps(s, p), Installed(s, p))
  {
    hide Quiet, CopyFrame, CopyOps, Pasted, Layered, OffFrame, ExecAll;
    var m1, m2 := RefBy(p, 1), Assign(s.dirs + {p}, s.tables, s.ktables);
    var s2 := Exec(s, m1);
    var s3 := Exec(s2, m2);
    SameOff(s, s3, p);
    var copy := CopyOps(s.ents, s.kern, p, 0);
    var s4 := ExecAll(s3, copy);
    var m5 := Write(Slot(p, UVPT_PDE), Some(Ent(p, SELF_FLAGS)));
    BookkeepingQuiet(s, m1);
    BookkeepingQuiet(s2, m2);
    CopyQuiet(s3, s.ents, s.kern, p, 0);
    PastedAll(s, s4.ents, s.kern, p);
    StillOff(s3, s4, s.ents, s.kern, p);
    OffFrameQuiet(s4, m5.sl, m5.word);
    QuietJoin(s3, copy, s4, [m5], Installed(s, p));
    QuietJoin(s2, [m2], s3, copy + [m5], Installed(s, p));
    QuietJoin(s, [m1], s2, [m2] + (copy + [m5]), Installed(s, p));
  }

  lemma SameOff(s: Vm, s': Vm, p: nat)
    requires OffFrame(s, p) && s'.ents == s.ents && s'.cr3 == s.cr3
    ensures OffFrame(s', p)
  {}

  lemma StillOff(s: Vm, s': Vm, from: map<Slot, Ent>, src: nat, dst: nat)
    requires OffFrame(s, dst) && s'.cr3 == s.cr3 && Pasted(s.ents, s'.ents, from, src, dst, 0)
    ensures OffFrame(s', dst)
  {}

  // -------------------------------------------------------------------------
  // env_free
  // -------------------------------------------------------------------------

  function UnmapOps(s: Vm, dir: nat, d: nat, t: nat, j: nat): seq<Micro>
    decreases NPTENTRIES - j
  {
    if j >= NPTENTRIES then []
    else
      (if Slot(t, j) in s.ents then RemoveOps(s, dir, d * NPTENTRIES + j) else [])
      + UnmapOps(UnmapStep(s, dir, d, t, j), dir, d, t, j + 1)
  }

  function UnhookOps(s: Vm, dir: nat, d: nat, t: nat): seq<Micro> {
    [Write(Slot(dir, d), None)] + ([Assign(s.dirs, s.tables - {t}, s.ktables)] + DecrefOps(s, t))
  }

  function FreeTableOps(s: Vm, dir: nat, d: nat, t: nat): seq<Micro> {
    UnmapOps(s, dir, d, t, 0) + UnhookOps(UnmapTable(s, dir, d, t, 0), dir, d, t)
  }

  function FreeUserOps(s: Vm, dir: nat, d: nat): seq<Micro>
    decreases USER_PDES - d
  {
    if d >= USER_PDES then []
    else if Slot(dir, d) !in s.ents then FreeUserOps(s, dir, d + 1)
    else
      var t := s.ents[Slot(dir, d)].page;
      FreeTableOps(s, dir, d, t) + FreeUserOps(FreeTable(s, dir, d, t), dir, d + 1)
  }

  function EnvFreeOps(s: Vm, dir: nat, current: bool): seq<Micro> {
    var s0 := if current then Lcr3(s, s.kern) else s;
    var s1 := FreeUser(s0, dir, 0);
    (if current then [Load(s.kern)] else [])
    + (FreeUserOps(s0, dir, 0) + ([Assign(s1.dirs - {dir}, s1.tables, s1.ktables)] + DecrefOps(s1, dir)))
  }

  lemma UnmapOneQuiet(s: Vm, dir: nat, d: nat, t: nat, j: nat)
    requires Inv(s) && Hangs(s, dir, d, t) && j < NPTENTRIES
    ensures var ms := if Slot(t, j) in s.ents then RemoveOps(s, dir, d * NPTENTRIES + j) else [];
      Quiet(s, ms, UnmapStep(s, dir, d, t, j))
  {
    if Slot(t, j) in s.ents {
      RemoveQuiet(s, None, dir, d * NPTENTRIES + j);
    } else {
      QuietNone(s);
    }
  }

  lemma {:induction false} UnmapQuiet(s: Vm, dir: nat, d: nat, t: nat, j: nat)
    requires Inv(s) && Hangs(s, dir, d, t) && j <= NPTENTRIES
    ensures Quiet(s, UnmapOps(s, dir, d, t, j), UnmapTable(s, dir, d, t, j))
    decreases NPTENTRIES - j
  {
    hide Inv, Hangs, Quiet, RemoveOps, Remove;
    if j == NPTENTRIES {
      QuietNone(s);
    } else {
      UnmapOneQuiet(s, dir, d, t, j);
      UnmapStepEffect(s, dir, d, t, j);
      var s1 := UnmapStep(s, dir, d, t, j);
      UnmapQuiet(s1, dir, d, t, j + 1);
      QuietJoin(s, if Slot(t, j) in s.ents then RemoveOps(s, dir, d * NPTENTRIES + j) else [], s1,
                UnmapOps(s1, dir, d, t, j + 1), UnmapTable(s, dir, d, t, j));
    }
  }

  lemma UnhookQuiet(s: Vm, dir: nat, d: nat, t: nat)
    requires OffFrame(s, dir)
    ensures Quiet(s, UnhookOps(s, dir, d, t), Unhooked(s, dir, d, t))
  {
    var m1, m2 := Write(Slot(dir, d), None), Assign(s.dirs, s.tables - {t}, s.ktables);
    var s1 := Exec(s, m1);
    var s2 := Exec(s1, m2);
    OffFrameQuiet(s, m1.sl, None);
    BookkeepingQuiet(s1, m2);
    DecrefQuiet(s2, t);
    assert DecrefOps(s2, t) == DecrefOps(s, t);
    hide Quiet;
    QuietJoin(s1, [m2], s2, DecrefOps(s, t), Unhooked(s, dir, d, t));
    QuietJoin(s, [m1], s1, [m2] + DecrefOps(s, t), Unhooked(s, dir, d, t));
  }

  // The directory being freed is live and not in use.
  ghost predicate Idle(s: Vm, dir: nat) { Inv(s) && dir in s.dirs && s.cr3 != dir }

  lemma FreeTableQuiet(s: Vm, dir: nat, d: nat, t: nat)
    requires Idle(s, dir) && Hangs(s, dir, d, t)
    ensures Quiet(s, FreeTableOps(s, dir, d, t), FreeTable(s, dir, d, t)) && Idle(FreeTable(s, dir, d, t), dir)
  {
    UnmapQuiet(s, dir, d, t, 0);
    UnmapTableEffect(s, dir, d, t, 0);
    FreeTableEffect(s, dir, d, t);
    var s1 := UnmapTable(s, dir, d, t, 0);
    OtherDirOff(s1, dir);
    UnhookQuiet(s1, dir, d, t);
    hide Quiet, Inv;
    QuietJoin(s, UnmapOps(s, dir, d, t, 0), s1, UnhookOps(s1, dir, d, t), FreeTable(s, dir, d, t));
  }

  lemma {:induction false} FreeUserQuiet(s: Vm, dir: nat, d: nat)
    requires Idle(s, dir) && d <= USER_PDES
    ensures Quiet(s, FreeUserOps(s, dir, d), FreeUser(s, dir, d)) && Idle(FreeUser(s, dir, d), dir)
    decreases USER_PDES - d
  {
    hide Quiet, Idle, FreeTable, FreeTableOps;
    if d == USER_PDES {
      QuietNone(s);
    } else if Slot(dir, d) !in s.ents {
      FreeUserQuiet(s, dir, d + 1);
    } else {
      var t := s.ents[Slot(dir, d)].page;
      IdleHangs(s, dir, d, t);
      FreeTableQuiet(s, dir, d, t);
      var s1 := FreeTable(s, dir, d, t);
      FreeUserQuiet(s1, dir, d + 1);
      QuietJoin(s, FreeTableOps(s, dir, d, t), s1, FreeUserOps(s1, dir, d + 1), FreeUser(s, dir, d));
    }
  }

  lemma IdleHangs(s: Vm, dir: nat, d: nat, t: nat)
    requires Idle(s, dir) && d < USER_PDES && Slot(dir, d) in s.ents && s.ents[Slot(dir, d)].page == t
    ensures Hangs(s, dir, d, t)
  {}

  lemma EnvFreeQuiet(s: Vm, dir: nat, current: bool)
    requires Inv(s) && CanFree(s, dir, current)
    ensures Quiet(s, EnvFreeOps(s, dir, current), EnvFree(s, dir, current))
  {
    var s0 := if current then Lcr3(s, s.kern) else s;
    Lcr3Inv(s, s.kern);
    FreeUserQuiet(s0, dir, 0);
    var s1 := FreeUser(s0, dir, 0);
    var m := Assign(s1.dirs - {dir}, s1.tables, s1.ktables);
    var s2 := Exec(s1, m);
    BookkeepingQuiet(s1, m);
    DecrefQuiet(s2, dir);
    assert DecrefOps(s2, dir) == DecrefOps(s1, dir);
    LoadQuiet(s, current);
    hide Quiet, Inv, FreeUser, FreeUserOps;
    QuietJoin(s1, [m], s2, DecrefOps(s1, dir), EnvFree(s, dir, current));
    QuietJoin(s0, FreeUserOps(s0, dir, 0), s1, [m] + DecrefOps(s1, dir), EnvFree(s, dir, current));
    QuietJoin(s, if current then [Load(s.kern)] else [], s0, FreeUserOps(s0, dir, 0) + ([m] + DecrefOps(s1, dir)),
              EnvFree(s, dir, current));
  }

  lemma LoadQuiet(s: Vm, current: bool)
    ensures Quiet(s, if current then [Load(s.kern)] else [], if current then Lcr3(s, s.kern) else s)
  {
    if current {
      QuietOne(s, Load(s.kern));
    } else {
      QuietNone(s);
    }
  }

  // -------------------------------------------------------------------------
  // The order matters
  // -------------------------------------------------------------------------

  // page_remove with invlpg before the word is cleared: memory ends up the same, but one fill in between
  // leaves the page cached for ever.
  function SwappedOps(s: Vm, dir: nat, vpn: nat): seq<Micro> {
    match Lookup(s, dir, vpn)
    case None => []
    case Some(sl) => DecrefOps(s, s.ents[sl].page) + ([Flush(vpn)] + [Write(sl, None)])
  }

  lemma SwappedOrderFails(s: Vm, dir: nat, vpn: nat)
    requires Inv(s) && dir == s.cr3 && vpn < USER_VPNS && Lookup(s, dir, vpn).Some?
    ensures ExecAll(s, SwappedOps(s, dir, vpn)) == Remove(s, dir, vpn)
    ensures exists fills :: !Coherent(Interleaved(s, SwappedOps(s, dir, vpn), fills))
  {
    var sl := Lookup(s, dir, vpn).value;
    var ms := DecrefOps(s, s.ents[sl].page);
    var s1 := PageDecref(s, s.ents[sl].page);
    LookupFrame(s, None, dir, vpn);
    LookupWord(s, dir, vpn);
    DecrefQuiet(s, s.ents[sl].page);
    hide Inv, Translate, Lookup, PageDecref, DecrefOps, Quiet;
    SwappedTail(s1, sl, vpn);
    FillsOnlyThere(s, ms, s1, [Flush(vpn)] + [Write(sl, None)], [{}, {vpn}]);
  }

  lemma FillsOnlyThere(s: Vm, a: seq<Micro>, s1: Vm, b: seq<Micro>, fills: seq<set<nat>>)
    requires Quiet(s, a, s1) && !Coherent(Interleaved(s1, b, fills))
    ensures ExecAll(s, a + b) == ExecAll(s1, b)
    ensures exists fills :: !Coherent(Interleaved(s, a + b, fills))
  {
    hide Coherent, Interleaved, Exec;
    Concatenated(s, a, b, {});
    var all := seq(|a|, _ => {}) + fills;
    assert all[|a|..] == fills;
    LateFills(s, a, b, all);
    assert !Coherent(Interleaved(s, a + b, all));
  }

  lemma LookupWord(s: Vm, dir: nat, vpn: nat)
    requires Inv(s) && Lookup(s, dir, vpn).Some?
    ensures Slot(dir, Pdx(vpn)) in s.ents
    ensures Slot(s.ents[Slot(dir, Pdx(vpn))].page, Ptx(vpn)) == Lookup(s, dir, vpn).value
    ensures Lookup(s, dir, vpn).value in s.ents
    ensures var p := s.ents[Lookup(s, dir, vpn).value].page;
      Remove(s, dir, vpn) == Invlpg(PageDecref(s, p).(ents := s.ents - {Lookup(s, dir, vpn).value}), vpn)
  {
    hide Inv;
  }

  lemma SwappedTail(s: Vm, sl: Slot, vpn: nat)
    requires vpn < NVPNS && sl in s.ents && sl.frame != s.cr3
    requires Slot(s.cr3, Pdx(vpn)) in s.ents && Slot(s.ents[Slot(s.cr3, Pdx(vpn))].page, Ptx(vpn)) == sl
    ensures ExecAll(s, [Flush(vpn)] + [Write(sl, None)]) == Invlpg(s.(ents := s.ents - {sl}), vpn)
    ensures !Coherent(Interleaved(s, [Flush(vpn)] + [Write(sl, None)], [{}, {vpn}]))
  {
    var s1 := Exec(Fill(s, {}), Flush(vpn));
    var s2 := Exec(Fill(s1, {vpn}), Write(sl, None));
    assert vpn in s2.tlb && Translate(s2, s2.cr3, vpn) == None;
    assert !Coherent(s2);
    hide Fill, Coherent, Translate;
    TwoOps(s, Flush(vpn), Write(sl, None), {}, {vpn});
  }

  lemma TwoOps(s: Vm, m1: Micro, m2: Micro, f1: set<nat>, f2: set<nat>)
    ensures ExecAll(s, [m1] + [m2]) == Exec(Exec(s, m1), m2)
    ensures Interleaved(s, [m1] + [m2], [f1, f2]) == Exec(Fill(Exec(Fill(s, f1), m1), f2), m2)
  {
    hide Exec, Fill;
    var ms, fs := [m1] + [m2], [f1, f2];
    assert ms[1..] == [m2] && [m2][1..] == [] && fs[1..] == [f2] && [f2][1..] == [];
    var s1 := Exec(s, m1);
    assert ExecAll(s1, [m2]) == ExecAll(Exec(s1, m2), []) == Exec(s1, m2);
    var t1 := Exec(Fill(s, f1), m1);
    var t2 := Exec(Fill(t1, f2), m2);
    assert Interleaved(t2, [], []) == t2;
    assert Interleaved(t1, [m2], [f2]) == t2;
  }

  // Empty fills change nothing.
  lemma {:induction false} LateFills(s: Vm, a: seq<Micro>, b: seq<Micro>, fills: seq<set<nat>>)
    requires |a| <= |fills| && forall i :: 0 <= i < |a| ==> fills[i] == {}
    ensures Interleaved(s, a + b, fills) == Interleaved(ExecAll(s, a), b, fills[|a|..])
    decreases |a|
  {
    if a == [] {
      assert a + b == b && fills[0..] == fills;
    } else {
      assert (a + b)[1..] == a[1..] + b && fills[1..][|a| - 1..] == fills[|a|..];
      assert Fill(s, {}) == s;
      LateFills(Exec(s, a[0]), a[1..], b, fills[1..]);
    }
  }
}
