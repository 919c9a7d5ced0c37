/** The environment table together with the memory it owns: env_alloc, env_free, env_run and envid2env
    as functions, and what every run of them keeps. */
module EnvSystem {
  import opened Wrappers
  import opened FreeLists
  import opened EnvIds
  import opened VmState
  import opened VmInvariant
  import opened AddressSpace
  import opened Lifetime
  import opened MicroSteps
  import opened Runs
  import opened Isolation

  datatype Status = ENV_FREE | ENV_RUNNABLE | ENV_RUNNING

  datatype Tab = Tab(
    ids: seq<int>,
    parents: seq<int>,
    status: seq<Status>,
    pgdirs: seq<Option<nat>>,   // frame of env_pgdir
    free: seq<nat>,             // env_free_list
    cur: Option<nat>)           // curenv

  // allocs counts how often each slot has been allocated.
  datatype Sys = Sys(vm: Vm, tab: Tab, allocs: seq<nat>)

  datatype AllocResult = NoFreeEnv | Panic | NewEnv(e: nat)

  ghost predicate Shape(t: Tab) {
    && |t.ids| == |t.parents| == |t.status| == |t.pgdirs| == NENV
    && (t.cur.Some? ==> t.cur.value < NENV)
    && forall e :: e in t.free ==> e < NENV
  }

  function EnvAlloc(s: Sys, parent: int): (r: (Sys, AllocResult))
    requires Shape(s.tab) && |s.allocs| == NENV
    ensures Shape(r.0.tab) && |r.0.allocs| == NENV
  {
    var t := s.tab;
    if t.free == [] then (s, NoFreeEnv)
    else
      var e := t.free[0];
      assert e in t.free;
      assert forall x :: x in t.free[1..] ==> x in t.free;
      var (vm, p) := EnvSetup(s.vm);
      if p.None? then (s, Panic)
      else
        (Sys(vm,
             Tab(t.ids[e := NextId(t.ids[e], e)], t.parents[e := parent], t.status[e := ENV_RUNNABLE],
                 t.pgdirs[e := p], t.free[1..], t.cur),
             s.allocs[e := s.allocs[e] + 1]),
         NewEnv(e))
  }

  function EnvDrop(s: Sys, e: nat): Sys
    requires Shape(s.tab) && e < NENV && s.tab.pgdirs[e].Some?
  {
    var t := s.tab;
    Sys(EnvFree(s.vm, t.pgdirs[e].value, t.cur == Some(e)),
        t.(pgdirs := t.pgdirs[e := None], status := t.status[e := ENV_FREE], free := [e] + t.free),
        s.allocs)
  }

  function EnvRun(s: Sys, e: nat): Sys
    requires Shape(s.tab) && e < NENV && s.tab.pgdirs[e].Some?
  {
    Sys(Lcr3(s.vm, s.tab.pgdirs[e].value), s.tab.(status := s.tab.status[e := ENV_RUNNING], cur := Some(e)), s.allocs)
  }

  // Without a current environment, checkperm reads through a NULL curenv if the id belongs to a live
  // environment, and only then.
  predicate MayAsk(t: Tab, envid: int, checkperm: bool)
    requires Shape(t)
  {
    EnvxIsMod(envid);
    var e := ENVX(envid);
    checkperm && t.cur.None? ==> envid == 0 || t.status[e] == ENV_FREE || t.ids[e] != envid
  }

  // The environment *env_store is set to, and whether 0 is returned (-E_BAD_ENV otherwise).
  function Envid2env(t: Tab, envid: int, checkperm: bool): (Option<nat>, bool)
    requires Shape(t) && MayAsk(t, envid, checkperm)
  {
    if envid == 0 then (t.cur, true)
    else
      EnvxIsMod(envid);
      var e := ENVX(envid);
      if t.status[e] == ENV_FREE || t.ids[e] != envid then (None, false)
      else if checkperm && Some(e) != t.cur && t.parents[e] != t.ids[t.cur.value] then (None, false)
      else (Some(e), true)
  }

  // -------------------------------------------------------------------------
  // The invariant
  // -------------------------------------------------------------------------

  ghost predicate Alive(t: Tab, e: nat)
    requires Shape(t)
  {
    e < NENV && t.status[e] != ENV_FREE
  }

  ghost predicate Slots(t: Tab) {
    && Shape(t) && Distinct(t.free)
    && (forall e :: 0 <= e < NENV ==> (e in t.free <==> t.status[e] == ENV_FREE))
    && (forall e :: 0 <= e < NENV ==> (t.pgdirs[e].Some? <==> t.status[e] != ENV_FREE))
  }

  ghost predicate Ids(s: Sys)
    requires Shape(s.tab)
  {
    && |s.allocs| == NENV
    && (forall e :: 0 <= e < NENV ==> s.tab.ids[e] == IdAfter(s.allocs[e], e))
    && (forall e :: 0 <= e < NENV && s.tab.status[e] != ENV_FREE ==> s.allocs[e] > 0)
  }

  // Live environments own distinct directories, and there are no others.
  ghost predicate Directories(s: Sys)
    requires Shape(s.tab)
  {
    && (forall e :: 0 <= e < NENV && s.tab.pgdirs[e].Some? ==> s.tab.pgdirs[e].value in s.vm.dirs)
    && (forall e, f :: 0 <= e < NENV && 0 <= f < NENV ==>
          s.tab.pgdirs[e].Some? && s.tab.pgdirs[e] == s.tab.pgdirs[f] ==> e == f)
    && (forall d :: d in s.vm.dirs ==> Some(d) in s.tab.pgdirs)
  }

  // The processor uses kern_pgdir or the current, live environment's directory.
  ghost predicate Current(s: Sys)
    requires Shape(s.tab)
  {
    s.vm.cr3 == s.vm.kern || (s.tab.cur.Some? && s.tab.pgdirs[s.tab.cur.value] == Some(s.vm.cr3))
  }

  ghost predicate Memory(vm: Vm) { Kernel(vm) && Coherent(vm) }

  lemma StepMemory(vm: Vm, step: Step)
    requires Memory(vm) && Usual(vm, step)
    ensures Memory(After(vm, step))
  {
    StepKernel(vm, step);
    assert Inv(vm);
    hide Inv, Coherent, Shaped, KernUserEmpty, Enabled, After;
    AtomicCoherent(vm, step);
  }

  ghost predicate SysInv(s: Sys) {
    Slots(s.tab) && Ids(s) && Directories(s) && Current(s) && Memory(s.vm)
  }

  // -------------------------------------------------------------------------
  // Steps
  // -------------------------------------------------------------------------

  datatype EnvStep =
    | AllocEnv(parent: int)
    | FreeEnvSlot(e: nat)
    | RunEnv(e: nat)
    | MemStep(step: Step)     // memory operations on live environments' directories

  ghost predicate MemEnabled(vm: Vm, step: Step) {
    Usual(vm, step) && !step.SetupEnv? && !step.FreeEnv? && !step.LoadCr3?
  }

  ghost predicate SysEnabled(s: Sys, step: EnvStep) {
    && Shape(s.tab) && |s.allocs| == NENV
    && match step
       case AllocEnv(_) => true
       case FreeEnvSlot(e) => Alive(s.tab, e) && s.tab.pgdirs[e].Some?
       case RunEnv(e) => Alive(s.tab, e) && s.tab.pgdirs[e].Some?
       case MemStep(step) => MemEnabled(s.vm, step)
  }

  function SysAfter(s: Sys, step: EnvStep): Sys
    requires SysEnabled(s, step)
  {
    match step
    case AllocEnv(parent) => EnvAlloc(s, parent).0
    case FreeEnvSlot(e) => EnvDrop(s, e)
    case RunEnv(e) => EnvRun(s, e)
    case MemStep(step) => s.(vm := After(s.vm, step))
  }

  // The memory operation within a step.
  function VmStep(s: Sys, step: EnvStep): Option<Step>
    requires SysEnabled(s, step)
  {
    match step
    case AllocEnv(_) => if s.tab.free == [] then None else Some(SetupEnv)
    case FreeEnvSlot(e) => Some(FreeEnv(s.tab.pgdirs[e].value, s.tab.cur == Some(e)))
    case RunEnv(e) => Some(LoadCr3(s.tab.pgdirs[e].value))
    case MemStep(step) => Some(step)
  }

  // A step, and what the processor caches on the way.
  datatype EnvMove = EnvMove(step: EnvStep, fills: seq<set<nat>>)

  ghost function SysNext(s: Sys, move: EnvMove): Sys
    requires SysEnabled(s, move.step)
  {
    match VmStep(s, move.step)
    case None => SysAfter(s, move.step)
    case Some(step) => SysAfter(s, move.step).(vm := Next(s.vm, Move(step, move.fills)))
  }

  // No memory step adds, drops or switches a directory.
  lemma MemDirs(s: Vm, step: Step)
    requires Inv(s) && MemEnabled(s, step)
    ensures var s' := After(s, step); s'.dirs == s.dirs && s'.cr3 == s.cr3 && s'.kern == s.kern
  {
    match step
    case MapPage(dir, p, vpn, flags) => InsertOnlyDir(s, dir, p, vpn, flags);
    case WalkCreate(dir, vpn) => WalkOnlyDir(s, dir, vpn);
    case _ => hide Inv, Translate;
  }

  lemma MemStepInv(s: Sys, step: Step)
    requires SysInv(s) && MemEnabled(s.vm, step)
    ensures SysInv(s.(vm := After(s.vm, step)))
  {
    hide Kernel, Inv, Coherent, Usual, After, Slots, Ids;
    StepMemory(s.vm, step);
    MemoryInv(s.vm);
    MemDirs(s.vm, step);
    SameTab(s, s.(vm := After(s.vm, step)));
  }

  lemma MemoryInv(vm: Vm)
    requires Memory(vm)
    ensures Inv(vm) && Coherent(vm) && KernUserEmpty(vm)
  {}

  lemma SameTab(s: Sys, s': Sys)
    requires SysInv(s) && s'.tab == s.tab && s'.allocs == s.allocs
    ensures Slots(s'.tab) && Ids(s')
  {}

  lemma AllocEnvInv(s: Sys, parent: int)
    requires SysInv(s)
    ensures SysInv(EnvAlloc(s, parent).0)
  {
    hide Kernel, Inv, Coherent, KernUserEmpty, EnvSetup, NextId, IdAfter, Slots, Ids, Directories, Current;
    var t := s.tab;
    if t.free != [] && EnvSetup(s.vm).1.Some? {
      var e, p := t.free[0], EnvSetup(s.vm).1;
      HeadInRange(s);
      MemoryInv(s.vm);
      EnvSetupInv(s.vm);
      StepMemory(s.vm, SetupEnv);
      SetupFields(s.vm);
      AllocIds(s, parent);
      AllocSlots(t, e, parent, p);
      FreshDirectory(s.vm, p.value);
      AllocDirectories(s, parent, p.value);
      assert SysInv(EnvAlloc(s, parent).0);
    }
  }

  lemma HeadInRange(s: Sys)
    requires SysInv(s) && s.tab.free != []
    ensures Shape(s.tab) && |s.allocs| == NENV && s.tab.free[0] < NENV
  {
    assert s.tab.free[0] in s.tab.free;
  }

  lemma AllocIds(s: Sys, parent: int)
    requires SysInv(s)
    ensures Ids(EnvAlloc(s, parent).0)
  {
    hide Memory, EnvSetup, NextId, IdAfter, Directories, Current;
    if s.tab.free != [] {
      var e := s.tab.free[0];
      assert e in s.tab.free;
      Successor(s.allocs[e], e);
    }
  }

  lemma SetupFields(vm: Vm)
    requires EnvSetup(vm).1.Some?
    ensures EnvSetup(vm).0.cr3 == vm.cr3 && EnvSetup(vm).0.kern == vm.kern
  {}

  lemma AllocSlots(t: Tab, e: nat, parent: int, p: Option<nat>)
    requires Slots(t) && t.free != [] && e == t.free[0] && e < NENV && p.Some?
    ensures Slots(Tab(t.ids[e := NextId(t.ids[e], e)], t.parents[e := parent], t.status[e := ENV_RUNNABLE],
                      t.pgdirs[e := p], t.free[1..], t.cur))
  {
    assert t.free == [e] + t.free[1..];
    assert forall f :: f in t.free[1..] ==> f in t.free;
    assert e !in t.free[1..];
    hide NextId;
  }

  lemma FreshDirectory(vm: Vm, p: nat)
    requires Inv(vm) && p in vm.free
    ensures p !in vm.dirs
  {}

  lemma AllocDirectories(s: Sys, parent: int, p: nat)
    requires SysInv(s) && s.tab.free != [] && EnvSetup(s.vm).1 == Some(p)
    requires p !in s.vm.dirs && EnvSetup(s.vm).0.dirs == s.vm.dirs + {p}
    requires EnvSetup(s.vm).0.cr3 == s.vm.cr3 && EnvSetup(s.vm).0.kern == s.vm.kern
    ensures var s' := EnvAlloc(s, parent).0; Directories(s') && Current(s')
  {
    hide EnvSetup, Memory, Ids;
    var e := s.tab.free[0];
    assert e in s.tab.free && s.tab.pgdirs[e] == None;
    var ds := s.tab.pgdirs[e := Some(p)];
    assert ds[e] == Some(p);
    forall d | d in s.vm.dirs + {p} ensures Some(d) in ds {
      if d != p {
        var f :| 0 <= f < NENV && s.tab.pgdirs[f] == Some(d);
        assert ds[f] == Some(d);
      }
    }
  }

  lemma DropEnabled(s: Sys, e: nat)
    requires SysInv(s) && Alive(s.tab, e)
    ensures s.tab.pgdirs[e].Some? && CanFree(s.vm, s.tab.pgdirs[e].value, s.tab.cur == Some(e))
  {
    KernNoDir(s.vm);
    hide Memory, Ids;
  }

  lemma KernNoDir(vm: Vm)
    requires Memory(vm)
    ensures vm.kern !in vm.dirs
  {}

  lemma DropEnvInv(s: Sys, e: nat)
    requires SysInv(s) && Alive(s.tab, e)
    ensures s.tab.pgdirs[e].Some? && SysInv(EnvDrop(s, e))
  {
    DropEnabled(s, e);
    var dir, cur := s.tab.pgdirs[e].value, s.tab.cur == Some(e);
    DropMemory(s.vm, dir, cur);
    DropSlots(s.tab, e);
    DropDirectories(s, e);
    DropIds(s, e);
    hide Inv, Memory, EnvFree, Slots, Ids, Directories, Current;
  }

  lemma DropMemory(vm: Vm, dir: nat, cur: bool)
    requires Memory(vm) && CanFree(vm, dir, cur)
    ensures var vm' := EnvFree(vm, dir, cur);
      Memory(vm') && vm'.dirs == vm.dirs - {dir} && vm'.kern == vm.kern && vm'.cr3 == if cur then vm.kern else vm.cr3
  {
    MemoryInv(vm);
    hide Memory, Inv, KernUserEmpty, CanFree, EnvFree;
    StepMemory(vm, FreeEnv(dir, cur));
    FreeRoles(vm, dir, cur);
  }

  lemma FreeRoles(vm: Vm, dir: nat, cur: bool)
    requires Inv(vm) && CanFree(vm, dir, cur)
    ensures var vm' := EnvFree(vm, dir, cur);
      vm'.dirs == vm.dirs - {dir} && vm'.kern == vm.kern && vm'.cr3 == if cur then vm.kern else vm.cr3
  {
    hide Inv, CanFree, EnvFree, Torn, TablesFrom;
    EnvFreeEffect(vm, dir, cur);
    ReleasedKern(vm, EnvFree(vm, dir, cur));
  }

  lemma ReleasedKern(vm: Vm, vm': Vm)
    requires Released(vm, vm')
    ensures vm'.kern == vm.kern
  {}

  lemma DropIds(s: Sys, e: nat)
    requires SysInv(s) && Alive(s.tab, e) && s.tab.pgdirs[e].Some?
    ensures Ids(EnvDrop(s, e))
  {
    hide Memory, EnvFree, IdAfter;
  }

  lemma DropSlots(t: Tab, e: nat)
    requires Slots(t) && Alive(t, e)
    ensures Slots(t.(pgdirs := t.pgdirs[e := None], status := t.status[e := ENV_FREE], free := [e] + t.free))
  {}

  lemma DropDirectories(s: Sys, e: nat)
    requires SysInv(s) && Alive(s.tab, e) && s.tab.pgdirs[e].Some?
    requires var vm := EnvFree(s.vm, s.tab.pgdirs[e].value, s.tab.cur == Some(e));
      && vm.dirs == s.vm.dirs - {s.tab.pgdirs[e].value} && vm.kern == s.vm.kern
      && vm.cr3 == if s.tab.cur == Some(e) then s.vm.kern else s.vm.cr3
    ensures Directories(EnvDrop(s, e)) && Current(EnvDrop(s, e))
  {
    hide EnvFree, Memory, Ids;
    var ds := s.tab.pgdirs[e := None];
    forall d | d in s.vm.dirs && d != s.tab.pgdirs[e].value ensures Some(d) in ds {
      var f :| 0 <= f < NENV && s.tab.pgdirs[f] == Some(d);
      assert ds[f] == Some(d);
    }
  }

  lemma RunEnvInv(s: Sys, e: nat)
    requires SysInv(s) && Alive(s.tab, e)
    ensures s.tab.pgdirs[e].Some? && SysInv(EnvRun(s, e))
  {
    var dir := s.tab.pgdirs[e].value;
    assert dir in s.vm.dirs;
    StepMemory(s.vm, LoadCr3(dir));
    RunTable(s, e);
    hide Memory, Slots, Ids, Directories, Current, Coherent;
  }

  lemma RunTable(s: Sys, e: nat)
    requires SysInv(s) && Alive(s.tab, e) && s.tab.pgdirs[e].Some?
    ensures var s' := EnvRun(s, e); Slots(s'.tab) && Ids(s') && Directories(s') && Current(s')
  {
    hide Memory, IdAfter;
  }

  lemma SysStepInv(s: Sys, step: EnvStep)
    requires SysInv(s) && SysEnabled(s, step)
    ensures SysInv(SysAfter(s, step))
  {
    hide SysInv, MemEnabled;
    match step
    case AllocEnv(parent) => AllocEnvInv(s, parent);
    case FreeEnvSlot(e) => DropEnvInv(s, e);
    case RunEnv(e) => RunEnvInv(s, e);
    case MemStep(step) => MemStepInv(s, step);
  }

  // The memory operation within a step is enabled, and does to memory what the step does.
  lemma VmStepEnabled(s: Sys, step: EnvStep)
    requires SysInv(s) && SysEnabled(s, step)
    ensures match VmStep(s, step)
            case None => SysAfter(s, step).vm == s.vm
            case Some(st) => Enabled(s.vm, st) && SysAfter(s, step).vm == After(s.vm, st)
  {
    hide SysInv, Kernel, Usual, CanFree;
    match step
    case AllocEnv(parent) => SetupEnabled(s, parent);
    case FreeEnvSlot(e) => DropEnabled(s, e);
    case RunEnv(e) => LoadEnabled(s, e);
    case MemStep(step) => UsualEnabled(s.vm, step);
  }

  lemma SetupEnabled(s: Sys, parent: int)
    requires SysInv(s)
    ensures Enabled(s.vm, SetupEnv)
    ensures EnvAlloc(s, parent).0.vm == if s.tab.free == [] then s.vm else EnvSetup(s.vm).0
  {
    hide Inv, Shaped, Coherent, Directories, Ids, Current, CopyFrame;
    assert EnvSetup(s.vm).1.None? ==> EnvSetup(s.vm).0 == s.vm;
  }

  lemma LoadEnabled(s: Sys, e: nat)
    requires SysInv(s) && Alive(s.tab, e) && s.tab.pgdirs[e].Some?
    ensures Enabled(s.vm, LoadCr3(s.tab.pgdirs[e].value))
  {
    hide Memory, Ids, Current;
  }

  lemma UsualEnabled(vm: Vm, step: Step)
    requires Usual(vm, step)
    ensures Enabled(vm, step)
  {}

  lemma SysMoveInv(s: Sys, move: EnvMove)
    requires SysInv(s) && SysEnabled(s, move.step)
    ensures SysInv(SysNext(s, move))
  {
    hide SysInv, SysEnabled, SysAfter, VmStep, Enabled, After, Next;
    SysStepInv(s, move.step);
    VmStepEnabled(s, move.step);
    if VmStep(s, move.step).Some? {
      var vmove := Move(VmStep(s, move.step).value, move.fills);
      MemoryParts(s);
      StepCoherent(s.vm, vmove);
      MoveKeeps(s.vm, vmove);
      SameSysInv(SysAfter(s, move.step), Next(s.vm, vmove));
    }
  }

  lemma MemoryParts(s: Sys)
    requires SysInv(s)
    ensures Inv(s.vm) && Coherent(s.vm)
  {}

  lemma SameSysInv(s: Sys, vm: Vm)
    requires SysInv(s) && SameMemory(s.vm, vm) && Inv(vm) && Coherent(vm)
    ensures SysInv(s.(vm := vm))
  {
    ShapeSame(s.vm, vm);
    hide Inv, Shaped, Coherent, Slots, IdAfter;
  }

  ghost predicate SysAllEnabled(s: Sys, moves: seq<EnvMove>)
    decreases |moves|
  {
    moves == [] || (SysEnabled(s, moves[0].step) && SysAllEnabled(SysNext(s, moves[0]), moves[1..]))
  }

  ghost function SysRun(s: Sys, moves: seq<EnvMove>): Sys
    requires SysAllEnabled(s, moves)
    decreases |moves|
  {
    if moves == [] then s else SysRun(SysNext(s, moves[0]), moves[1..])
  }

  // Over every sequence of env_alloc, env_free, env_run and memory operations, whatever the processor
  // caches while they run: table and memory agree.  In particular env_free never tears down the directory
  // the processor is using.
  lemma {:induction false} SysRunInv(s: Sys, moves: seq<EnvMove>)
    requires SysInv(s) && SysAllEnabled(s, moves)
    ensures SysInv(SysRun(s, moves))
    decreases |moves|
  {
    hide SysInv, SysEnabled, SysNext;
    if moves != [] {
      SysMoveInv(s, moves[0]);
      SysRunInv(SysNext(s, moves[0]), moves[1..]);
    }
  }

  // From the first table through any run: what a user can write, in any address space or through a cached
  // translation, is a page of user data.
  lemma SysUserWritesOnlyData(s: Sys, moves: seq<EnvMove>, d: nat, v: nat)
    requires SysInv(s) && SysAllEnabled(s, moves)
    ensures var vm := SysRun(s, moves).vm;
      && (d in Roots(vm) && v < NVPNS && Translate(vm, d, v).Some? && UserWritable(Translate(vm, d, v).value) ==>
            IsData(vm, Translate(vm, d, v).value.pte.page))
      && (v in vm.tlb && UserWritable(vm.tlb[v]) ==> IsData(vm, vm.tlb[v].pte.page))
  {
    hide SysInv, SysRun, SysAllEnabled, Inv, Shaped, UserWritable, Coherent;
    SysRunInv(s, moves);
    MemoryShaped(SysRun(s, moves));
    UserWritesOnlyData(SysRun(s, moves).vm, [], d, v);
  }

  lemma MemoryShaped(s: Sys)
    requires SysInv(s)
    ensures Inv(s.vm) && Coherent(s.vm) && Shaped(s.vm)
  {}

  // -------------------------------------------------------------------------
  // Ids over runs
  // -------------------------------------------------------------------------

  // Live environments have distinct positive ids whose low ten bits are the slot, and envid2env finds
  // exactly the environment an id belongs to.
  lemma LiveIds(s: Sys, e: nat, f: nat)
    requires SysInv(s) && Alive(s.tab, e) && Alive(s.tab, f)
    ensures 0 < s.tab.ids[e] < 0x8000_0000 && ENVX(s.tab.ids[e]) == e
    ensures e != f ==> s.tab.ids[e] != s.tab.ids[f]
    ensures Envid2env(s.tab, s.tab.ids[e], false) == (Some(e), true)
  {
    hide IdAfter, ENVX;
    SlotId(s, e);
    SlotId(s, f);
    IdShape(s.allocs[e], e);
    IdShape(s.allocs[f], f);
    hide SysInv;
  }

  // A nonzero id names the environment that looking through the whole table would find; with checkperm
  // it must be the current environment or one of its children, on top.
  lemma FindsByIdIff(s: Sys, envid: int, checkperm: bool, e: nat)
    requires SysInv(s) && envid != 0 && MayAsk(s.tab, envid, checkperm)
    ensures Envid2env(s.tab, envid, checkperm) == (Some(e), true) <==>
            Alive(s.tab, e) && s.tab.ids[e] == envid
            && (checkperm ==>
                  s.tab.cur.Some? && (s.tab.cur == Some(e) || s.tab.parents[e] == s.tab.ids[s.tab.cur.value]))
    ensures Envid2env(s.tab, envid, checkperm).1 <==> Envid2env(s.tab, envid, checkperm).0.Some?
  {
    hide IdAfter, ENVX;
    EnvxIsMod(envid);
    if Alive(s.tab, e) && s.tab.ids[e] == envid {
      SlotId(s, e);
      IdShape(s.allocs[e], e);
    }
  }

  // Id 0 is the current environment, whoever asks.
  lemma ZeroIsCurrent(t: Tab, checkperm: bool)
    requires Shape(t)
    ensures MayAsk(t, 0, checkperm) && Envid2env(t, 0, checkperm) == (t.cur, true)
  {}

  // env_alloc panics exactly when a slot is free and no page is; it never returns -E_NO_MEM.
  lemma AllocPanicsIff(s: Sys, parent: int)
    requires Shape(s.tab) && |s.allocs| == NENV
    ensures EnvAlloc(s, parent).1.Panic? <==> s.tab.free != [] && s.vm.free == []
    ensures EnvAlloc(s, parent).1.NoFreeEnv? <==> s.tab.free == []
    ensures !EnvAlloc(s, parent).1.NewEnv? ==> EnvAlloc(s, parent).0 == s
  {
    hide CopyFrame, ClearFrame;
  }

  // env_alloc revives one dead slot, leaves all others, and under checkperm the new id is usable exactly
  // by the parent (or when curenv still names the slot).
  lemma NewEnvironment(s: Sys, parent: int)
    requires SysInv(s) && EnvAlloc(s, parent).1.NewEnv?
    ensures var (s', r) := EnvAlloc(s, parent);
      && SysInv(s') && !Alive(s.tab, r.e) && Alive(s'.tab, r.e)
      && s.tab.free == [r.e] + s'.tab.free && s'.tab.cur == s.tab.cur
      && s'.tab.status[r.e] == ENV_RUNNABLE && s'.tab.parents[r.e] == parent
      && (forall f :: 0 <= f < NENV && f != r.e ==>
            s'.tab.ids[f] == s.tab.ids[f] && s'.tab.parents[f] == s.tab.parents[f]
            && s'.tab.status[f] == s.tab.status[f] && s'.tab.pgdirs[f] == s.tab.pgdirs[f])
      && (s.tab.cur.Some? ==>
            var caller := s.tab.cur.value;
            Envid2env(s'.tab, s'.tab.ids[r.e], true) == (Some(r.e), true) <==>
            caller == r.e || s.tab.ids[caller] == parent)
  {
    hide IdAfter, ENVX, NextId, EnvSetup, Memory, Directories, Current;
    AllocEnvInv(s, parent);
    HeadInRange(s);
    var (s', r) := EnvAlloc(s, parent);
    SlotId(s', r.e);
    IdShape(s'.allocs[r.e], r.e);
    if s.tab.cur.Some? {
      FindsByIdIff(s', s'.tab.ids[r.e], true, r.e);
    }
  }

  lemma StepAllocs(s: Sys, move: EnvMove, e: nat)
    requires SysEnabled(s, move.step) && e < NENV
    ensures |SysNext(s, move).allocs| == NENV && SysNext(s, move).allocs[e] >= s.allocs[e]
  {
    hide Next, After, EnvSetup, EnvFree, MemEnabled;
  }

  lemma {:induction false} AllocsGrow(s: Sys, moves: seq<EnvMove>, e: nat)
    requires SysAllEnabled(s, moves) && e < NENV && |s.allocs| == NENV
    ensures |SysRun(s, moves).allocs| == NENV && SysRun(s, moves).allocs[e] >= s.allocs[e]
    decreases |moves|
  {
    hide SysEnabled, SysNext;
    if moves != [] {
      StepAllocs(s, moves[0], e);
      AllocsGrow(SysNext(s, moves[0]), moves[1..], e);
    }
  }

  // What SysInv says about one slot's id.
  lemma SlotId(s: Sys, e: nat)
    requires SysInv(s) && e < NENV
    ensures Shape(s.tab) && |s.allocs| == NENV && s.tab.ids[e] == IdAfter(s.allocs[e], e)
    ensures s.tab.status[e] != ENV_FREE ==> s.allocs[e] > 0
  {
    hide IdAfter;
  }

  // An id handed out earlier finds an environment again exactly when the slot is live and has been
  // reallocated a multiple of 524287 times since; in particular it fails through the next 524286
  // reallocations.
  lemma StaleIdIff(s: Sys, moves: seq<EnvMove>, e: nat)
    requires SysInv(s) && SysAllEnabled(s, moves) && e < NENV && s.allocs[e] > 0
    ensures var s' := SysRun(s, moves);
      && SysInv(s') && s'.allocs[e] >= s.allocs[e]
      && (Envid2env(s'.tab, s.tab.ids[e], false).1 <==>
            Alive(s'.tab, e) && (s'.allocs[e] - s.allocs[e]) % CYCLE == 0)
  {
    hide SysInv, IdAfter, ENVX, SysRun, SysAllEnabled;
    var s' := SysRun(s, moves);
    SysRunInv(s, moves);
    SlotId(s, e);
    SlotId(s', e);
    AllocsGrow(s, moves, e);
    IdShape(s.allocs[e], e);
    IdRepeatsIff(s.allocs[e], s'.allocs[e], e);
  }

  // -------------------------------------------------------------------------
  // The first table
  // -------------------------------------------------------------------------

  function Up(lo: nat): seq<nat>
    decreases NENV - lo
  {
    if lo >= NENV then [] else [lo] + Up(lo + 1)
  }

  lemma {:induction false} UpSlots(lo: nat)
    requires lo <= NENV
    ensures |Up(lo)| == NENV - lo && forall k :: 0 <= k < |Up(lo)| ==> Up(lo)[k] == lo + k
    ensures forall e :: e in Up(lo) <==> lo <= e < NENV
    decreases NENV - lo
  {
    if lo < NENV {
      UpSlots(lo + 1);
    }
  }

  // As env_init leaves it: every slot free, in the order of the array.
  ghost predicate FirstTab(t: Tab) {
    && |t.ids| == |t.parents| == |t.status| == |t.pgdirs| == NENV && t.cur == None && t.free == Up(0)
    && (forall e :: 0 <= e < NENV ==> t.ids[e] == 0 && t.status[e] == ENV_FREE && t.pgdirs[e] == None)
  }

  lemma FirstSys(s: Sys)
    requires FirstTab(s.tab) && |s.allocs| == NENV && forall e :: 0 <= e < NENV ==> s.allocs[e] == 0
    requires Memory(s.vm) && s.vm.dirs == {}
    ensures SysInv(s)
  {
    UpSlots(0);
    OnlyKern(s.vm);
    hide Memory;
  }

  lemma OnlyKern(vm: Vm)
    requires Memory(vm) && vm.dirs == {}
    ensures vm.cr3 == vm.kern
  {}
}
