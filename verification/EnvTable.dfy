/** env.c as it runs: the envs array updated in place on top of the memory of Machine. */
module EnvTable {
  import opened Wrappers
  import opened Bits
  import opened Mmu
  import opened FreeLists
  import opened EnvIds
  import opened VmState
  import opened VmInvariant
  import opened AddressSpace
  import opened Machine
  import opened EnvSystem
  import opened Isolation
  import BootMap
  import MicroSteps

  const E_BAD_ENV: int := 2

  class EnvTable {
    const machine: Machine
    const envId: array<int>
    const envParentId: array<int>
    const envStatus: array<Status>
    const envLink: array<Option<nat>>
    const envPgdir: array<Option<nat>>
    var envFreeHead: Option<nat>
    var curenv: Option<nat>
    ghost var free: seq<nat>
    ghost var allocs: seq<nat>

    // The zeroed envs array.
    constructor (m: Machine)
      requires m.Valid()
      ensures Valid() && machine == m && free == [] && curenv == None
      ensures forall e :: 0 <= e < NENV ==> envStatus[e] == ENV_FREE && envPgdir[e] == None
      ensures fresh(envId) && fresh(envParentId) && fresh(envStatus) && fresh(envLink) && fresh(envPgdir)
    {
      machine := m;
      envId := new int[NENV](_ => 0);
      envParentId := new int[NENV](_ => 0);
      envStatus := new Status[NENV](_ => ENV_FREE);
      envLink := new Option<nat>[NENV](_ => None);
      envPgdir := new Option<nat>[NENV](_ => None);
      envFreeHead, curenv, free, allocs := None, None, [], seq(NENV, _ => 0);
    }

    ghost predicate Valid()
      reads this, machine, machine.ppLink, envLink
    {
      && machine.Valid()
      && envId.Length == envParentId.Length == envStatus.Length == envLink.Length == envPgdir.Length == NENV
      && envId != envParentId && envLink != envPgdir
      && envId != machine.ppRef && envParentId != machine.ppRef
      && envLink != machine.ppLink && envPgdir != machine.ppLink
      && Chain(envFreeHead, free, envLink[..])
    }

    ghost function TabView(): Tab
      reads this, envId, envParentId, envStatus, envPgdir
    {
      Tab(envId[..], envParentId[..], envStatus[..], envPgdir[..], free, curenv)
    }

    ghost function View(): Sys
      reads this, machine, machine.ppRef, machine.ppLink, machine.mem, envId, envParentId, envStatus, envLink,
          envPgdir
      requires Valid()
    {
      Sys(machine.View(), TabView(), allocs)
    }

    // Env structures start zeroed; only env_id and the links are written.
    method EnvInit()
      requires Valid() && free == [] && curenv == None
      requires forall e :: 0 <= e < NENV ==> envStatus[e] == ENV_FREE && envPgdir[e] == None
      modifies this, envId, envLink
      ensures Valid() && machine.View() == old(machine.View())
      ensures FirstTab(View().tab) && allocs == seq(NENV, _ => 0)
    {
      hide Chain, Up;
      var i := NENV;
      UpEnds();
      while i > 0
        invariant 0 <= i <= NENV && Valid() && free == Up(i) && curenv == None
        invariant forall e :: i <= e < NENV ==> envId[e] == 0
      {
        i := i - 1;
        UpStep(i);
        ClearSlotEntry(i);
      }
      allocs := seq(NENV, _ => 0);
    }

    // envs[i].env_id = 0 and the push onto env_free_list
    method ClearSlotEntry(i: nat)
      requires Valid() && i < NENV && i !in free
      modifies `envFreeHead, `free, envId, envLink
      ensures Valid() && free == [i] + old(free) && envId[..] == old(envId[..])[i := 0]
    {
      envId[i] := 0;
      PushSlot(i);
    }

    // e->env_link = env_free_list; env_free_list = e
    method PushSlot(e: nat)
      requires Valid() && e < NENV && e !in free
      modifies `envFreeHead, `free, envLink
      ensures Valid() && free == [e] + old(free)
    {
      ChainPush(envFreeHead, free, envLink[..], e);
      hide Chain;
      envLink[e] := envFreeHead;
      envFreeHead := Some(e);
      free := [e] + free;
      assert envLink[..] == old(envLink[..])[e := old(envFreeHead)];
    }

    // i386_init: mem_init, then env_init.  From memory with arbitrary contents to the first state of every
    // run; false is boot_map_region's panic.
    method Boot(npagesBasemem: nat, med: nat, firstFree: Word, pages: Word, envs: Word, stack: Word) returns (ok: bool)
      requires Valid() && free == [] && curenv == None && machine.Unused()
      requires forall e :: 0 <= e < NENV ==> envStatus[e] == ENV_FREE && envPgdir[e] == None
      requires npagesBasemem <= machine.kernPgdir < med
      requires pages % PGSIZE == envs % PGSIZE == stack % PGSIZE == 0
      requires pages + PTSIZE <= TWO32 && envs + PTSIZE <= TWO32 && stack + KSTKSIZE <= TWO32
      modifies this, envId, envLink, machine, machine.ppRef, machine.ppLink, machine.mem
      ensures ok ==> Valid() && SysInv(View()) && machine.CacheOk()
    {
      hide Kernel, SysInv, Chain, BootMap.CheckKernPgdir;
      ok := machine.MemInit(npagesBasemem, med, firstFree, pages, envs, stack, 0, 0);
      if ok {
        EnvInit();
        FirstSys(View());
      }
    }

    method Envid2Env(envid: int, checkperm: bool) returns (r: int, store: Option<nat>)
      requires Valid() && Shape(View().tab) && MayAsk(View().tab, envid, checkperm)
      ensures (store, r == 0) == Envid2env(View().tab, envid, checkperm)
      ensures r == 0 || r == -E_BAD_ENV
      ensures envid == 0 ==> r == 0 && store == curenv
      ensures envid != 0 ==>
                var e := envid % NENV;
                if envStatus[e] != ENV_FREE && envId[e] == envid
                   && (checkperm ==>
                         curenv.Some? && (curenv == Some(e) || envParentId[e] == envId[curenv.value]))
                then r == 0 && store == Some(e) else r == -E_BAD_ENV && store == None
    {
      if envid == 0 {
        return 0, curenv;
      }
      EnvxIsMod(envid);
      var e := ENVX(envid);
      if envStatus[e] == ENV_FREE || envId[e] != envid {
        return -E_BAD_ENV, None;
      }
      if checkperm && Some(e) != curenv && envParentId[e] != envId[curenv.value] {
        return -E_BAD_ENV, None;
      }
      return 0, Some(e);
    }

    twostate predicate SlotSame(f: nat)
      requires f < envId.Length == envParentId.Length == envStatus.Length == envPgdir.Length
      reads envId, envParentId, envStatus, envPgdir
    {
      && envId[f] == old(envId[f]) && envParentId[f] == old(envParentId[f])
      && envStatus[f] == old(envStatus[f]) && envPgdir[f] == old(envPgdir[f])
    }

    method EnvAlloc(parent: int) returns (r: AllocResult)
      requires Valid() && SysInv(View()) && machine.CacheOk()
      modifies this, envId, envParentId, envStatus, envPgdir, machine, machine.ppRef, machine.mem
      ensures Valid() && SysInv(View()) && machine.CacheOk()
      ensures old(Shape(View().tab) && |View().allocs| == NENV)
      ensures (View(), r) == EnvSystem.EnvAlloc(old(View()), parent)
    {
      hide SysInv, EnvSetup, NextId, EnvSystem.EnvAlloc, Inv, Shape, MicroSteps.CoherentBut, Machine.Ents,
           Machine.Words, Machine.CopiesKernel;
      assert envFreeHead == At(free, 0);
      hide Chain;
      ghost var s := View();
      AllocEnvInv(s, parent);
      SysParts(s);
      AllocCases(s, parent);
      if envFreeHead.None? {
        return NoFreeEnv;
      }
      var e := envFreeHead.value;
      var pgdir := machine.EnvSetupVm();
      if pgdir.None? {
        return Panic;
      }
      FillSlot(e, parent, pgdir);
      assert View() == EnvSystem.EnvAlloc(s, parent).0;
      return NewEnv(e);
    }

    // env_alloc's writes to the new environment, and its commit.
    method FillSlot(e: nat, parent: int, pgdir: Option<nat>)
      requires Valid() && free != [] && e == free[0] && e < NENV && |allocs| == NENV
      modifies `envFreeHead, `free, `allocs, envId, envParentId, envStatus, envPgdir
      ensures Valid() && allocs == old(allocs)[e := old(allocs)[e] + 1]
      ensures var t := old(TabView());
        TabView() == Tab(t.ids[e := NextId(old(envId[e]), e)], t.parents[e := parent], t.status[e := ENV_RUNNABLE],
                         t.pgdirs[e := pgdir], t.free[1..], t.cur)
    {
      ChainPop(envFreeHead, free, envLink[..]);
      hide Chain;
      envPgdir[e] := pgdir;
      var generation := ClearSlot(Int32(envId[e] + ENVGEN));
      if generation <= 0 {
        generation := ENVGEN;
      }
      envId[e] := Or(generation, e);
      envParentId[e] := parent;
      envStatus[e] := ENV_RUNNABLE;
      envFreeHead := envLink[e];
      free := free[1..];
      allocs := allocs[e := allocs[e] + 1];
    }

    method EnvFree(e: nat)
      requires Valid() && SysInv(View()) && machine.CacheOk() && Alive(View().tab, e)
      modifies this, envStatus, envLink, envPgdir, machine, machine.ppRef, machine.ppLink, machine.mem
      ensures Valid() && SysInv(View()) && machine.CacheOk()
      ensures old(Shape(View().tab) && View().tab.pgdirs[e].Some?)
      ensures View() == EnvDrop(old(View()), e)
      ensures envStatus[e] == ENV_FREE && envPgdir[e] == None && envId[e] == old(envId[e])
      ensures free == [e] + old(free) && curenv == old(curenv)
      ensures forall f :: 0 <= f < NENV && f != e ==> SlotSame(f)
    {
      hide SysInv, EnvDrop, VmState.EnvFree, Inv, CanFree, MicroSteps.CoherentBut, Chain;
      ghost var s := View();
      DropEnvInv(s, e);
      SysParts(s);
      DropEnabled(s, e);
      DropIs(s, e);
      LiveNotFree(s, e);
      machine.EnvFree(envPgdir[e].value, curenv == Some(e));
      EmptySlot(e);
      assert View() == EnvDrop(s, e);
    }

    // env_pgdir = 0 and the return to the free list.
    method EmptySlot(e: nat)
      requires Valid() && e < NENV && e !in free
      modifies `envFreeHead, `free, envStatus, envLink, envPgdir
      ensures Valid()
      ensures var t := old(TabView());
        TabView() == t.(pgdirs := t.pgdirs[e := None], status := t.status[e := ENV_FREE], free := [e] + t.free)
    {
      hide Chain;
      envPgdir[e] := None;
      envStatus[e] := ENV_FREE;
      PushSlot(e);
    }

    // Up to env_pop_tf, which does not return.
    method EnvRun(e: nat)
      requires Valid() && SysInv(View()) && machine.CacheOk() && Alive(View().tab, e)
      modifies this, envStatus, machine
      ensures Valid() && SysInv(View()) && machine.CacheOk()
      ensures old(Shape(View().tab) && View().tab.pgdirs[e].Some?)
      ensures View() == EnvSystem.EnvRun(old(View()), e)
      ensures envStatus[e] == ENV_RUNNING && curenv == Some(e) && envPgdir[e] == Some(machine.cr3)
      ensures forall f :: 0 <= f < NENV && f != e ==> SlotSame(f)
      ensures machine.View() == old(machine.View()).(cr3 := machine.cr3)
    {
      hide SysInv, EnvSystem.EnvRun, Inv, MicroSteps.CoherentBut, Chain;
      ghost var s := View();
      RunEnvInv(s, e);
      SysParts(s);
      RunIs(s, e);
      SetCurrent(e);
      machine.Lcr3(envPgdir[e].value);
      assert View() == EnvSystem.EnvRun(s, e);
    }

    // The status changes of env_run and the switch of curenv.
    method SetCurrent(e: nat)
      requires Valid() && e < NENV
      modifies `curenv, envStatus
      ensures Valid()
      ensures var t := old(TabView()); TabView() == t.(status := t.status[e := ENV_RUNNING], cur := Some(e))
    {
      hide Chain;
      if envStatus[e] == ENV_RUNNING {
        envStatus[e] := ENV_RUNNABLE;
      }
      curenv := Some(e);
      envStatus[e] := ENV_RUNNING;
    }
  }

  lemma RunIs(s: Sys, e: nat)
    requires Shape(s.tab) && e < NENV && s.tab.pgdirs[e].Some?
    ensures EnvSystem.EnvRun(s, e) ==
            Sys(Lcr3(s.vm, s.tab.pgdirs[e].value),
                s.tab.(status := s.tab.status[e := ENV_RUNNING], cur := Some(e)),
                s.allocs)
  {}

  lemma UpEnds()
    ensures Up(NENV) == []
  {}

  lemma UpStep(i: nat)
    requires i < NENV
    ensures Up(i) == [i] + Up(i + 1) && i !in Up(i + 1)
  {
    UpSlots(i + 1);
  }

  lemma SysParts(s: Sys)
    requires SysInv(s)
    ensures Shape(s.tab) && |s.allocs| == NENV && Inv(s.vm) && s.vm.kern < |s.vm.refs| && s.vm.kern !in s.vm.free
  {}

  lemma AllocCases(s: Sys, parent: int)
    requires SysInv(s)
    ensures Shape(s.tab) && |s.allocs| == NENV
    ensures var r := EnvSystem.EnvAlloc(s, parent);
      var t := s.tab;
      if t.free == [] then r == (s, NoFreeEnv)
      else
        var e := t.free[0];
        var (vm, p) := EnvSetup(s.vm);
        e < NENV &&
        if p.None? then vm == s.vm && r == (s, Panic)
        else r == (Sys(vm, Tab(t.ids[e := NextId(t.ids[e], e)], t.parents[e := parent], t.status[e := ENV_RUNNABLE],
                               t.pgdirs[e := p], t.free[1..], t.cur),
                       s.allocs[e := s.allocs[e] + 1]), NewEnv(e))
  {
    SysParts(s);
    hide NextId, Memory, Ids, Directories, Current;
    if s.tab.free != [] {
      assert s.tab.free[0] in s.tab.free;
    }
  }

  lemma DropIs(s: Sys, e: nat)
    requires Shape(s.tab) && e < NENV && s.tab.pgdirs[e].Some?
    ensures var t := s.tab;
      EnvDrop(s, e) ==
      Sys(VmState.EnvFree(s.vm, t.pgdirs[e].value, t.cur == Some(e)),
          t.(pgdirs := t.pgdirs[e := None], status := t.status[e := ENV_FREE], free := [e] + t.free),
          s.allocs)
  {}

  lemma LiveNotFree(s: Sys, e: nat)
    requires SysInv(s) && Alive(s.tab, e)
    ensures e !in s.tab.free && e < NENV
  {}
}
