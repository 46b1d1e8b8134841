/** The environments and the system calls of kern/env.c, kern/syscall.c and kern/sched.c in place.
    Each method is proved to do what the function of the same purpose in Envs, Syscalls or Machine
    does to the value `View()`; `cur` is the slot of the calling CPU's curenv. */
module Kernel {
  import opened Mmu
  import opened Pmap
  import opened EnvVm
  import opened FreeList
  import opened PhysMem
  import opened Envs
  import opened Syscalls
  import Sched
  import Machine

  const NO_ENV := Env(0, 0, Free, None, INITIAL_TF, 0, false, 0, 0, 0, 0)

  class Kernel {
    const pm: Memory
    const envs: array<Env>
    const envLink: array<Option<nat>>
    var envFreeList: Option<nat>
    ghost var free: seq<nat>

    ghost function View(): Kern
      reads this, envs, pm, pm.mem, pm.ppRef
    {
      Kern(pm.View(), envs[..], free)
    }

    /** env_link keeps its old value off the list. */
    ghost predicate Ok()
      reads this, envs, envLink, pm, pm.mem, pm.ppRef, pm.ppLink
    {
      && pm.Ok() && envs.Length == envLink.Length == NENV && envLink != pm.ppLink
      && Spells(envLink[..], envFreeList, free)
    }

    // ----------------------------------------------------------------
    // kern/env.c.
    // ----------------------------------------------------------------

    /** env_init: every slot free, and the list in the order of the array. */
    constructor (pm: Memory)
      requires pm.Ok() && Valid(pm.View()) && pm.roots == {}
      ensures this.pm == pm && fresh(envs) && fresh(envLink)
      ensures Ok() && KValid(View()) && |free| == NENV && forall i: nat | i < NENV :: free[i] == i
    {
      this.pm := pm;
      envs := new Env[NENV](_ => NO_ENV);
      envLink := new Option<nat>[NENV](_ => None);
      envFreeList := None;
      free := [];
      new;
      EnvInit();
      hide Valid;
    }

    method EnvInit()
      requires envs.Length == envLink.Length == NENV && envFreeList == None && free == []
      requires forall i: nat | i < NENV :: envs[i] == NO_ENV
      modifies this`free, this`envFreeList, envs, envLink
      ensures Spells(envLink[..], envFreeList, free) && |free| == NENV
      ensures forall i: nat | i < NENV :: free[i] == i && envs[i] == NO_ENV
    {
      var i: int := NENV - 1;
      while i >= 0
        invariant -1 <= i < NENV && Spells(envLink[..], envFreeList, free)
        invariant |free| == NENV - 1 - i && forall j: nat | j < |free| :: free[j] == i + 1 + j
        invariant forall j: nat | j < NENV :: envs[j] == NO_ENV
      {
        envs[i] := envs[i].(id := 0, status := Free);
        Link(i);
        i := i - 1;
      }
    }

    /** The insertion at the head of env_free_list that env_init and env_free share. */
    method Link(i: nat)
      requires i < envLink.Length && i !in free && Spells(envLink[..], envFreeList, free)
      modifies this`free, this`envFreeList, envLink
      ensures free == [i] + old(free) && Spells(envLink[..], envFreeList, free)
    {
      SpellsElsewhere(envLink[..], envFreeList, free, i, envFreeList);
      envLink[i] := envFreeList;
      envFreeList := Some(i);
      free := [i] + free;
      assert envLink[..] == old(envLink[..])[i := old(envFreeList)];
      assert free[1..] == old(free);
    }

    method Envid2env(cur: nat, envid: int, checkperm: bool) returns (e: Option<nat>)
      requires Ok() && cur < NENV
      ensures e == Lookup(View(), cur, envid, checkperm)
    {
      if envid == 0 { return Some(cur); }
      var i := EnvX(envid);
      if envs[i].status.Free? || envs[i].id != envid { return None; }
      if checkperm && i != cur && envs[i].parent != envs[cur].id { return None; }
      e := Some(i);
    }

    method EnvAlloc(parent: int) returns (r: Result)
      requires Ok() && KValid(View())
      modifies this`free, this`envFreeList, envs, envLink, pm, pm.mem, pm.ppRef, pm.ppLink
      ensures Ok() && KValid(View())
      ensures old(free) != [] ==> old(free)[0] < NENV
      ensures (View(), r) == Envs.EnvAlloc(old(View()), parent)
    {
      hide Valid, Setup;
      EnvAllocValid(View(), parent);
      if envFreeList.None? { return Error(E_NO_FREE_ENV); }
      var i := envFreeList.value;
      var pgdir := pm.EnvSetupVm();
      if pgdir.None? { return Error(E_NO_MEM); }
      FillIn(i, parent, pgdir.value);
      envFreeList := envLink[i];
      free := free[1..];
      r := Done(i);
    }

    /** The assignments of env_alloc to the new Env. */
    method FillIn(i: nat, parent: int, pgdir: Frame)
      requires i < envs.Length
      modifies envs
      ensures envs[..] == old(envs[..])[i := FreshEnv(old(envs[i]), i, parent, pgdir)]
    {
      var generation := Wrap32(envs[i].id + 0x1000);
      generation := generation - generation % NENV;
      if generation <= 0 {
        generation := 0x1000;
      }
      assert generation + i == NextId(envs[i].id, i);
      hide NextId, Wrap32;
      envs[i] := envs[i].(id := generation + i, pgdir := Some(pgdir));
      envs[i] := envs[i].(parent := parent, status := Runnable);
      envs[i] := envs[i].(tf := INITIAL_TF, upcall := 0, recving := false);
    }

    method EnvFree(i: nat)
      requires Ok() && KValid(View()) && Live(View(), i)
      modifies this`free, this`envFreeList, envs, envLink, pm, pm.mem, pm.ppRef, pm.ppLink
      ensures Ok() && KValid(View())
      ensures old(envs[i].pgdir).Some? && old(envs[i].pgdir).value < |old(View()).vm.mem|
      ensures View() == Envs.EnvFree(old(View()), i)
    {
      hide Valid, Teardown;
      EnvFreeValid(View(), i);
      pm.EnvFreeVm(envs[i].pgdir.value);
      envs[i] := envs[i].(pgdir := None);
      envs[i] := envs[i].(status := Free);
      Link(i);
      assert View().envs == old(View()).envs[i := old(envs[i]).(status := Free, pgdir := None)];
    }

    method EnvDestroy(cur: nat, i: nat)
      requires Ok() && KValid(View()) && Live(View(), cur) && Live(View(), i)
      modifies this`free, this`envFreeList, envs, envLink, pm, pm.mem, pm.ppRef, pm.ppLink
      ensures Ok() && KValid(View()) && View() == Syscalls.EnvDestroy(old(View()), cur, i)
    {
      hide Valid, Teardown;
      EnvDestroyCorrect(View(), cur, i);
      if envs[i].status.Running? && i != cur {
        envs[i] := envs[i].(status := Dying);
        assert View().envs == old(View()).envs[i := old(envs[i]).(status := Dying)];
        return;
      }
      EnvFree(i);
    }

    // ----------------------------------------------------------------
    // kern/syscall.c.
    // ----------------------------------------------------------------

    method SysPageAlloc(cur: nat, envid: int, va: Addr, perm: Flags) returns (r: int)
      requires Ok() && KValid(View()) && Live(View(), cur)
      modifies pm, pm.mem, pm.ppRef, pm.ppLink
      ensures Ok() && (View(), r) == Syscalls.SysPageAlloc(old(View()), cur, envid, va, perm)
    {
      hide Valid, DataPage, Insert, AllocZero, Lookup, FreeSlots, IdsOk, PgdirsOk, RecvOk, Known;
      var e := Envid2env(cur, envid, true);
      if e.None? { return E_BAD_ENV; }
      LookupLive(View(), cur, envid, true);
      if va >= UTOP || PGOFF(va) != 0 { return E_INVAL; }
      if perm & (PTE_U | PTE_P) != PTE_U | PTE_P { return E_INVAL; }
      if perm & !(PTE_U | PTE_P | PTE_AVAIL | PTE_W) != 0 { return E_INVAL; }
      var page := pm.PageAlloc(true);
      if page.None? { return E_NO_MEM; }
      PageAllocInserts(old(View()), e.value, va, perm);
      AllocKValid(old(View()));
      assert View() == old(View()).(vm := AllocZero(old(View()).vm));
      SpaceInUse(View(), e.value);
      var ok := pm.PageInsert(envs[e.value].pgdir.value, page.value, va, perm);
      if !ok {
        pm.PageFree(page.value);
        return E_NO_MEM;
      }
      r := 0;
    }

    method SysPageMap(cur: nat, src: int, srcva: Addr, dst: int, dstva: Addr, perm: Flags) returns (r: int)
      requires Ok() && KValid(View()) && Live(View(), cur)
      requires MapReady(View(), cur, src, srcva, dst, dstva, perm)
      modifies pm, pm.mem, pm.ppRef, pm.ppLink
      ensures Ok() && (View(), r) == Syscalls.SysPageMap(old(View()), cur, src, srcva, dst, dstva, perm)
    {
      hide Valid, DataPage, Insert, Lookup, FreeSlots, IdsOk, PgdirsOk, RecvOk, PDX, PTX;
      var e1 := Envid2env(cur, src, true);
      var e2 := Envid2env(cur, dst, true);
      if e1.None? || e2.None? { return E_BAD_ENV; }
      LookupLive(View(), cur, src, true);
      LookupLive(View(), cur, dst, true);
      if srcva >= UTOP || PGOFF(srcva) != 0 { return E_INVAL; }
      if dstva >= UTOP || PGOFF(dstva) != 0 { return E_INVAL; }
      if perm & (PTE_U | PTE_P) != PTE_U | PTE_P { return E_INVAL; }
      if perm & !(PTE_U | PTE_P | PTE_AVAIL | PTE_W) != 0 { return E_INVAL; }
      SpaceInUse(View(), e1.value);
      SpaceInUse(View(), e2.value);
      SourceCases(View(), e1.value, srcva);
      var page, pte := pm.PageLookup(envs[e1.value].pgdir.value, srcva);
      LookupFrame(pm.View(), envs[e1.value].pgdir.value, srcva);
      var w := pm.mem[pte.value.table][pte.value.index];
      assert Some(w) == Source(old(View()), e1.value, srcva);
      if w.flags & PTE_W == 0 && perm & PTE_W == 1 { return E_INVAL; }
      var ok := pm.PageInsert(envs[e2.value].pgdir.value, page.value, dstva, perm);
      r := if ok then 0 else E_NO_MEM;
    }

    method SysPageUnmap(cur: nat, envid: int, va: Addr) returns (r: int)
      requires Ok() && KValid(View()) && Live(View(), cur)
      modifies pm, pm.mem, pm.ppRef, pm.ppLink
      ensures Ok() && (View(), r) == Syscalls.SysPageUnmap(old(View()), cur, envid, va)
    {
      hide Valid, Remove, Lookup, FreeSlots, IdsOk, PgdirsOk, RecvOk, PDX, PTX;
      var e := Envid2env(cur, envid, true);
      if e.None? { return E_BAD_ENV; }
      LookupLive(View(), cur, envid, true);
      if va >= UTOP || PGOFF(va) != 0 { return E_INVAL; }
      SpaceInUse(View(), e.value);
      pm.PageRemove(envs[e.value].pgdir.value, va);
      r := 0;
    }

    method SysExofork(cur: nat) returns (r: int)
      requires Ok() && KValid(View()) && Live(View(), cur)
      modifies this`free, this`envFreeList, envs, envLink, pm, pm.mem, pm.ppRef, pm.ppLink
      ensures Ok() && (View(), r) == Syscalls.SysExofork(old(View()), cur)
    {
      hide Valid, Setup, NextId, FreeSlots, IdsOk, PgdirsOk, RecvOk;
      EnvAllocValid(View(), envs[cur].id);
      var e := EnvAlloc(envs[cur].id);
      if e.Error? { return e.code; }
      ghost var k1 := View();
      envs[e.n] := envs[e.n].(status := NotRunnable);
      envs[e.n] := envs[e.n].(tf := envs[cur].tf);
      envs[e.n] := envs[e.n].(tf := envs[e.n].tf.(eax := 0));
      assert View().envs == k1.envs[e.n := k1.envs[e.n].(status := NotRunnable, tf := old(envs[cur]).tf.(eax := 0))];
      r := envs[e.n].id;
    }

    method SysEnvSetStatus(cur: nat, envid: int, status: int) returns (r: int)
      requires Ok() && KValid(View()) && Live(View(), cur)
      modifies envs
      ensures Ok() && (View(), r) == Syscalls.SysEnvSetStatus(old(View()), cur, envid, status)
    {
      hide KValid, Lookup;
      var s := StatusOf(status);
      if s.None? { return E_INVAL; }
      var e := Envid2env(cur, envid, true);
      if e.None? { return E_BAD_ENV; }
      LookupLive(View(), cur, envid, true);
      envs[e.value] := envs[e.value].(status := s.value);
      r := 0;
    }

    method SysIpcTrySend(cur: nat, envid: int, value: int, srcva: Addr, perm: Flags) returns (r: int)
      requires Ok() && KValid(View()) && Live(View(), cur)
      modifies envs, pm, pm.mem, pm.ppRef, pm.ppLink
      ensures Ok() && (View(), r) == Syscalls.SysIpcTrySend(old(View()), cur, envid, value, srcva, perm)
    {
      hide Valid, DataPage, Insert, Lookup, FreeSlots, IdsOk, PgdirsOk, RecvOk, PDX, PTX;
      var e := Envid2env(cur, envid, false);
      if e.None? { return E_BAD_ENV; }
      LookupLive(View(), cur, envid, false);
      var i := e.value;
      if !envs[i].recving { return E_IPC_NOT_RECV; }
      if srcva < UTOP {
        SpaceInUse(View(), cur);
        SpaceInUse(View(), i);
        var pg, pte := pm.PageLookup(envs[cur].pgdir.value, srcva);
        LookupFrame(pm.View(), envs[cur].pgdir.value, srcva);
        if pg.None? { return E_INVAL; }
        SourceCases(View(), cur, srcva);
        var w := pm.mem[pte.value.table][pte.value.index];
        assert Some(w) == Source(old(View()), cur, srcva);
        PermTests(perm);
        if perm & !PTE_SYSCALL != 0 || perm & PTE_U == 0 || perm & PTE_P == 0 { return E_INVAL; }
        if perm & PTE_W != 0 && w.flags & PTE_W == 0 { return E_INVAL; }
        if PGOFF(srcva) != 0 { return E_INVAL; }
        if envs[i].dstva < UTOP {
          var ok := pm.PageInsert(envs[i].pgdir.value, pg.value, envs[i].dstva, perm);
          if !ok { return E_NO_MEM; }
          envs[i] := envs[i].(perm := perm);
        }
      }
      WakeReceiver(i, value, envs[cur].id);
      assert envs[..] == old(envs[..])[i := Delivered(old(envs[i]), value, old(envs[cur].id)).(perm := envs[i].perm)];
      r := 0;
    }

    /** The last assignments of sys_ipc_try_send. */
    method WakeReceiver(i: nat, value: int, from: int)
      requires i < envs.Length
      modifies envs
      ensures envs[..] == old(envs[..])[i := Delivered(old(envs[i]), value, from)]
    {
      envs[i] := envs[i].(recving := false);
      envs[i] := envs[i].(from := from);
      envs[i] := envs[i].(value := value);
      envs[i] := envs[i].(status := Runnable);
      envs[i] := envs[i].(tf := envs[i].tf.(eax := 0));
    }

    /** sys_ipc_recv, up to its call of sys_yield. */
    method SysIpcRecv(cur: nat, dstva: Addr) returns (r: int)
      requires Ok() && KValid(View()) && Live(View(), cur)
      modifies envs
      ensures Ok() && (View(), r) == Syscalls.SysIpcRecv(old(View()), cur, dstva)
    {
      hide KValid;
      if dstva < UTOP && PGOFF(dstva) != 0 { return E_INVAL; }
      envs[cur] := envs[cur].(recving := true);
      envs[cur] := envs[cur].(status := NotRunnable);
      envs[cur] := envs[cur].(dstva := dstva);
      assert envs[..] == old(envs[..])[cur := old(envs[cur]).(recving := true, status := NotRunnable, dstva := dstva)];
      r := 0;
    }

    // ----------------------------------------------------------------
    // kern/sched.c.
    // ----------------------------------------------------------------

    /** env_run, up to unlock_kernel. */
    method EnvRun(ghost m: Machine.Machine, ghost c: nat, cur: Option<nat>, e: nat)
      requires Ok() && m.k == View() && c < |m.cpus| && m.cpus[c].env == cur && e < NENV
      requires (cur.Some? ==> cur.value < NENV)
      modifies envs
      ensures Ok() && View() == Machine.EnvRun(m, c, e).k
    {
      if cur.Some? && envs[cur.value].status.Running? {
        envs[cur.value] := envs[cur.value].(status := Runnable);
      }
      envs[e] := envs[e].(status := Running);
    }

    /** The loop of sched_yield. */
    method FindRunnable(cur: Option<nat>) returns (next: Option<nat>)
      requires envs.Length == NENV && (cur.Some? ==> cur.value < NENV)
      ensures next == Sched.Pick(envs[..], cur)
    {
      var start := if cur.Some? then EnvX(envs[cur.value].id) + 1 else 0;
      var i := 0;
      while i < NENV
        invariant 0 <= i <= NENV && Sched.Pick(envs[..], cur) == Sched.Search(envs[..], start, i)
      {
        var index := (start + i) % NENV;
        if envs[index].status.Runnable? { return Some(index); }
        i := i + 1;
      }
      next := None;
    }

    /** sched_yield, on CPU c of the machine m: the environment it runs, or None if it halts or
        enters the monitor. */
    method SchedYield(ghost m: Machine.Machine, ghost c: nat, cur: Option<nat>) returns (next: Option<nat>)
      requires Ok() && m.k == View() && c < |m.cpus| && m.cpus[c].env == cur && (cur.Some? ==> cur.value < NENV)
      modifies envs
      ensures Ok() && View() == Machine.SchedYield(m, c).k
      ensures next.Some? <==> Machine.SchedYield(m, c).cpus[c].phase == Machine.Unlocking(false)
      ensures next.Some? ==> Machine.SchedYield(m, c).cpus[c].env == next
      ensures (exists e: nat :: e < NENV && old(envs[..])[e].status == Runnable) ==>
                var start := if cur.Some? then EnvX(old(envs[..])[cur.value].id) + 1 else 0;
                next.Some? && Sched.IsFirst(old(envs[..]), start, next.value)
      ensures (forall e: nat | e < NENV :: old(envs[..])[e].status != Runnable) ==>
                next == if cur.Some? && old(envs[..])[cur.value].status == Running then cur else None
    {
      hide Sched.Pick, Machine.Hope;
      next := FindRunnable(cur);
      Sched.PickFirst(envs[..], cur);
      if next.Some? {
        EnvRun(m, c, cur, next.value);
      } else if cur.Some? && envs[cur.value].status.Running? {
        EnvRun(m, c, cur, cur.value);
        next := cur;
      }
    }
  }

  lemma SpaceInUse(k: Kern, i: nat)
    requires KValid(k) && Live(k, i)
    ensures k.envs[i].pgdir.Some? && k.envs[i].pgdir.value as nat in k.vm.roots
  {
  }

  /** The two ways in which the system calls test a permission word agree. */
  lemma PermTests(perm: Flags)
    ensures !(perm & !PTE_SYSCALL != 0 || perm & PTE_U == 0 || perm & PTE_P == 0) <==> PermOk(perm)
  {
  }
}
