/** What a program finds in its registers after a trap (kern/trap.c, kern/syscall.c): the registers it
    trapped with, but for the result of its system call in eax. */
module Returns {
  import opened Mmu
  import opened Pmap
  import opened Envs
  import opened Sched
  import opened Syscalls
  import opened M = Machine

  // ------------------------------------------------------------------
  // One system call.
  // ------------------------------------------------------------------

  /** The call has done k1 to the kernel's data and returns r: CPU c goes on with its environment, whose
      saved registers are those of the trap with r in eax. */
  ghost predicate Answered(m: Machine, m': Machine, c: nat, k1: Kern, r: int)
    requires c < |m.cpus| && m.cpus[c].env.Some? && m.cpus[c].env.value < |m.k.envs| == NENV
  {
    var cur := m.cpus[c].env.value;
    && m'.cpus == m.cpus[c := m.cpus[c].(phase := Leaving(false))]
    && m'.k.vm == k1.vm && m'.k.free == k1.free && |m'.k.envs| == |k1.envs| == NENV
    && (forall e: nat | e < NENV && e != cur :: m'.k.envs[e] == k1.envs[e])
    && m'.k.envs[cur] == k1.envs[cur].(tf := m'.k.envs[cur].tf)
    && m'.k.envs[cur].tf.eax == r && m'.k.envs[cur].tf.others == m.k.envs[cur].tf.others
  }

  /** The call has done k1 and does not return: CPU c calls sched_yield, and the saved registers stay. */
  ghost predicate GaveWay(m: Machine, m': Machine, c: nat, k1: Kern)
    requires c < |m.cpus| && m.cpus[c].env.Some? && m.cpus[c].env.value < |m.k.envs| == NENV
  {
    var cur := m.cpus[c].env.value;
    && m'.cpus == m.cpus[c := m.cpus[c].(phase := Leaving(true))] && m'.k == k1
    && |k1.envs| == NENV && k1.envs[cur].tf == m.k.envs[cur].tf
  }

  /** The environment is no more, and CPU c, without one, calls sched_yield. */
  ghost predicate Ended(m: Machine, m': Machine, c: nat)
    requires c < |m.cpus| && m.cpus[c].env.Some?
  {
    m'.cpus == m.cpus[c := m.cpus[c].(phase := Leaving(true), env := None)] && !Live(m'.k, m.cpus[c].env.value)
  }

  /** The result of each system call, and what else it does. */
  ghost predicate Served(m: Machine, m': Machine, c: nat, call: Call)
    requires c < |m.cpus| && m.cpus[c].env.Some? && KValid(m.k) && Live(m.k, m.cpus[c].env.value)
    requires Ready(m.k, m.cpus[c].env.value, call)
  {
    var k, cur := m.k, m.cpus[c].env.value;
    match call
    case PageAlloc(envid, va, perm) =>
      Answered(m, m', c, SysPageAlloc(k, cur, envid, va, perm).0, SysPageAlloc(k, cur, envid, va, perm).1)
    case PageMap(src, srcva, dst, dstva, perm) =>
      Answered(m, m', c, SysPageMap(k, cur, src, srcva, dst, dstva, perm).0,
               SysPageMap(k, cur, src, srcva, dst, dstva, perm).1)
    case PageUnmap(envid, va) =>
      Answered(m, m', c, SysPageUnmap(k, cur, envid, va).0, SysPageUnmap(k, cur, envid, va).1)
    case Exofork => Answered(m, m', c, SysExofork(k, cur).0, SysExofork(k, cur).1)
    case SetStatus(envid, status) =>
      Answered(m, m', c, SysEnvSetStatus(k, cur, envid, status).0, SysEnvSetStatus(k, cur, envid, status).1)
    case SetUpcall(envid, func) =>
      (match Lookup(k, cur, envid, true)
       case None => Answered(m, m', c, k, E_BAD_ENV)
       case Some(i) => i < NENV && Answered(m, m', c, k.(envs := k.envs[i := k.envs[i].(upcall := func)]), 0))
    case Destroy(envid) =>
      (match Lookup(k, cur, envid, true)
       case None => Answered(m, m', c, k, E_BAD_ENV)
       case Some(i) =>
         if i == cur then Ended(m, m', c) else Live(k, i) && Answered(m, m', c, EnvDestroy(k, cur, i), 0))
    case Send(envid, value, srcva, perm) =>
      Answered(m, m', c, SysIpcTrySend(k, cur, envid, value, srcva, perm).0,
               SysIpcTrySend(k, cur, envid, value, srcva, perm).1)
    case Recv(dstva) =>
      if dstva < UTOP && dstva % PGSIZE != 0 then Answered(m, m', c, k, E_INVAL)
      else GaveWay(m, m', c, SysIpcRecv(k, cur, dstva).0)
    case Yield => GaveWay(m, m', c, k)
    case Fault(handler) =>
      if k.envs[cur].upcall == 0 || handler == None then Ended(m, m', c)
      else
        && m'.cpus == m.cpus[c := m.cpus[c].(phase := Leaving(false))]
        && m'.k == k.(envs := k.envs[cur := k.envs[cur].(tf := handler.value)])
    case Other(r) => Answered(m, m', c, k, r)
  }

  /** From e to e', nobody has written the saved registers, but for the sender that ends a receive. */
  ghost predicate TfKept(e: Env, e': Env) {
    && (e'.recving ==> e.recving)
    && e'.tf == if e.recving && !e'.recving then e.tf.(eax := 0) else e.tf
  }

  lemma SendTf(k: Kern, cur: nat, call: Call, e: nat)
    requires KValid(k) && Live(k, cur) && call.Send? && Ready(k, cur, call) && Live(k, e)
    ensures |Effect(k, cur, call).0.envs| == NENV && TfKept(k.envs[e], Effect(k, cur, call).0.envs[e])
  {
    assert |k.envs| == NENV;
    hide KValid, Lookup, SysIpcTrySend, BadPage, PageSent, NoTableFor, Source;
    var Send(envid, value, srcva, perm) := call;
    LookupLive(k, cur, envid, false);
    SysIpcTrySendCorrect(k, cur, envid, value, srcva, perm);
  }

  lemma ExoforkTf(k: Kern, cur: nat, e: nat)
    requires KValid(k) && Live(k, cur) && Live(k, e)
    ensures |SysExofork(k, cur).0.envs| == NENV && TfKept(k.envs[e], SysExofork(k, cur).0.envs[e])
  {
    SysExoforkCorrect(k, cur);
    hide Valid, FreeSlots, IdsOk, PgdirsOk, RecvOk, SysExofork, Mapping, NextId;
  }

  lemma DestroyTf(k: Kern, cur: nat, i: nat, e: nat)
    requires KValid(k) && Live(k, cur) && Live(k, i) && Live(k, e)
    ensures |EnvDestroy(k, cur, i).envs| == NENV
    ensures Live(EnvDestroy(k, cur, i), e) ==> TfKept(k.envs[e], EnvDestroy(k, cur, i).envs[e])
  {
    EnvDestroyCorrect(k, cur, i);
    hide Valid, FreeSlots, IdsOk, PgdirsOk, RecvOk, EnvDestroy, Mapping;
  }

  /** No call touches its caller's saved registers but by returning, or by a page fault upcall. */
  lemma CallerTf(k: Kern, cur: nat, call: Call)
    requires KValid(k) && Live(k, cur) && k.envs[cur].status.Running? && Ready(k, cur, call)
    ensures var (k', a) := Effect(k, cur, call);
            |k'.envs| == NENV && (a.Returned? || a.GaveUp? ==> k'.envs[cur].tf == k.envs[cur].tf)
  {
    assert |k.envs| == NENV && !k.envs[cur].recving;
    hide KValid, Insert, AllocZero, Source, Remove, SysExofork, SysIpcTrySend, EnvDestroy;
    hide Table, Entry, PDX, PTX, PGOFF, PermOk, At, MapReady;
    if call.Send? {
      SendTf(k, cur, call, cur);
    } else if call.Exofork? {
      ExoforkTf(k, cur, cur);
    } else if call.Destroy? || call.Fault? {
      var i := if call.Destroy? then Lookup(k, cur, call.envid, true) else Some(cur);
      if i.Some? {
        DestroyTf(k, cur, i.value, cur);
        DestroyedSelf(k, cur);
        DestroyKeepsCaller(k, cur, i.value);
      }
    }
  }

  lemma DestroyKeepsCaller(k: Kern, cur: nat, i: nat)
    requires KValid(k) && Live(k, cur) && Live(k, i)
    ensures i != cur ==> Live(EnvDestroy(k, cur, i), cur)
  {
    EnvDestroyCorrect(k, cur, i);
    hide Valid, FreeSlots, IdsOk, PgdirsOk, RecvOk, EnvDestroy, Mapping;
  }

  lemma DestroyedSelf(k: Kern, cur: nat)
    requires KValid(k) && Live(k, cur)
    ensures !Live(EnvDestroy(k, cur, cur), cur)
  {
    EnvDestroyCorrect(k, cur, cur);
    hide KValid, EnvDestroy, Mapping;
  }

  lemma LookupAlive(k: Kern, cur: nat, call: Call)
    requires KValid(k) && Live(k, cur)
    ensures call.Destroy? ==>
              var i := Lookup(k, cur, call.envid, true); i.Some? ==> Live(k, i.value)
  {
    if call.Destroy? {
      LookupLive(k, cur, call.envid, true);
    }
  }

  /** How SysStep turns what a call does into a step of the CPU. */
  lemma SysStepEnds(m: Machine, c: nat, call: Call)
    requires c < |m.cpus| && m.cpus[c].env.Some? && KValid(m.k) && Live(m.k, m.cpus[c].env.value)
    requires Ready(m.k, m.cpus[c].env.value, call) && |m.inbox| == |m.k.envs| == NENV
    requires m.k.envs[m.cpus[c].env.value].status.Running?
    ensures var (m', cur) := (SysStep(m, c, call), m.cpus[c].env.value);
            var (k', a) := Effect(m.k, cur, call);
            && (a.Returned? ==> Answered(m, m', c, k', a.r))
            && (a.GaveUp? ==> GaveWay(m, m', c, k'))
            && (a.Resumed? ==> m'.k == k' && m'.cpus == m.cpus[c := m.cpus[c].(phase := Leaving(false))])
            && (a.Died? ==> m'.k == k' && m'.cpus == m.cpus[c := m.cpus[c].(phase := Leaving(true), env := None)])
  {
    CallerTf(m.k, m.cpus[c].env.value, call);
    hide KValid, Effect, Ready, Inboxes;
  }

  lemma SysStepServes(m: Machine, c: nat, call: Call)
    requires c < |m.cpus| && m.cpus[c].env.Some? && KValid(m.k) && Live(m.k, m.cpus[c].env.value)
    requires Ready(m.k, m.cpus[c].env.value, call) && |m.inbox| == |m.k.envs| == NENV
    requires m.k.envs[m.cpus[c].env.value].status.Running?
    ensures Served(m, SysStep(m, c, call), c, call)
  {
    hide KValid, Ready, Inboxes, SysStep, Answered, GaveWay, EnvDestroy, Lookup;
    var cur := m.cpus[c].env.value;
    SysStepEnds(m, c, call);
    if call.Destroy? || call.Fault? {
      DestroyedSelf(m.k, cur);
      LookupAlive(m.k, cur, call);
    } else if call.SetUpcall? {
      LookupLive(m.k, cur, call.envid, true);
    }
    hide SysPageAlloc, SysPageMap, SysPageUnmap, SysExofork, SysIpcTrySend, SysEnvSetStatus;
  }

  /** Each system call and exception does what its function says, and its result is in eax, or, if it does
      not return, the CPU calls sched_yield. */
  lemma TrapServed(m: Machine, c: nat, call: Call)
    requires Inv(m) && Enabled(m, Sys(c, call))
    ensures c < |m.cpus| && m.cpus[c].env.Some? && KValid(m.k) && Live(m.k, m.cpus[c].env.value)
    ensures Ready(m.k, m.cpus[c].env.value, call)
    ensures Served(m, Next(m, Sys(c, call)), c, call)
  {
    CallerOf(m, c, call);
    assert CpuOk(m, c);
    RunningCaller(m, c);
    hide *;
    SysStepServes(m, c, call);
  }

  // ------------------------------------------------------------------
  // The saved registers of an environment that is not in the kernel.
  // ------------------------------------------------------------------

  /** A trap of environment `cur` does so for every other environment that lives on. */
  lemma OthersTf(k: Kern, cur: nat, call: Call, e: nat)
    requires KValid(k) && Live(k, cur) && k.envs[cur].status.Running? && Ready(k, cur, call)
    requires e != cur && Live(k, e) && Live(Effect(k, cur, call).0, e)
    ensures |Effect(k, cur, call).0.envs| == NENV
    ensures TfKept(k.envs[e], Effect(k, cur, call).0.envs[e])
  {
    assert |k.envs| == NENV;
    hide KValid, Insert, AllocZero, Source, Remove, SysExofork, SysIpcTrySend, EnvDestroy;
    hide Table, Entry, PDX, PTX, PGOFF, PermOk, At, MapReady;
    if call.Send? {
      SendTf(k, cur, call, e);
    } else if call.Exofork? {
      ExoforkTf(k, cur, e);
    } else if call.Destroy? || call.Fault? {
      var i := if call.Destroy? then Lookup(k, cur, call.envid, true) else Some(cur);
      if i.Some? {
        DestroyTf(k, cur, i.value, e);
      }
    }
  }

  /** The step is not one in which environment e itself enters the kernel or traps. */
  predicate NotOwn(m: Machine, step: Step, e: nat) {
    step.c < |m.cpus| && (step.Xchg? || step.Sys? ==> m.cpus[step.c].env != Some(e))
  }

  lemma StepTf(m: Machine, step: Step, e: nat)
    requires Inv(m) && Enabled(m, step) && NotOwn(m, step, e)
    requires Live(m.k, e) && Live(Next(m, step).k, e)
    ensures TfKept(m.k.envs[e], Next(m, step).k.envs[e])
  {
    if step.Sys? {
      CallerOf(m, step.c, step.call);
      assert CpuOk(m, step.c);
      RunningCaller(m, step.c);
      hide Inv, Enabled, Next;
      SysStepTf(m, step.c, step.call, e);
    } else if step.Leave? {
      LeaveChooses(m, step.c);
      hide Inv, Enabled, Next, Pick, IsFirst, Yields;
      LeaveTf(m, Next(m, step), step.c, e);
    } else {
      assert CpuOk(m, step.c);
      EnvCount(m);
      hide KValid, SysStep, LeaveStep, Ready, Respects, MayWrite, LockOk, Placed, InboxOk;
    }
  }

  lemma SysStepTf(m: Machine, c: nat, call: Call, e: nat)
    requires c < |m.cpus| && m.cpus[c].env.Some? && KValid(m.k) && Live(m.k, m.cpus[c].env.value)
    requires Ready(m.k, m.cpus[c].env.value, call) && |m.inbox| == |m.k.envs| == NENV
    requires m.k.envs[m.cpus[c].env.value].status.Running?
    requires m.cpus[c].env != Some(e) && Live(m.k, e) && Live(SysStep(m, c, call).k, e)
    ensures TfKept(m.k.envs[e], SysStep(m, c, call).k.envs[e])
  {
    hide KValid, Effect, Ready, Inboxes, TfKept;
    OthersTf(m.k, m.cpus[c].env.value, call, e);
  }

  lemma LeaveTf(m: Machine, m': Machine, c: nat, e: nat)
    requires c < |m.cpus| == |m'.cpus| && |m.k.envs| == NENV && (m.cpus[c].env.Some? ==> m.cpus[c].env.value < NENV)
    requires if Yields(m, c) then RoundRobin(m, m', c) else Dispatched(m, m', c, m.cpus[c].env.value)
    requires e < NENV
    ensures e < |m'.k.envs| && TfKept(m.k.envs[e], m'.k.envs[e])
  {
    hide Yields, IsFirst;
    if x: nat :| x < NENV && m.k.envs[x].status == Runnable {
      var y := FirstFrom(m.k.envs, if m.cpus[c].env.Some? then m.cpus[c].env.value + 1 else 0, x);
      assert Yields(m, c) ==> Dispatched(m, m', c, y);
    }
  }

  // ------------------------------------------------------------------
  // From the trap to the return.
  // ------------------------------------------------------------------

  /** Environment e, if on a CPU, is on its way out of the kernel. */
  ghost predicate OnTheWayOut(m: Machine, e: nat) {
    forall d: nat | d < |m.cpus| && m.cpus[d].env == Some(e) ::
      m.cpus[d].phase.Leaving? || m.cpus[d].phase.Unlocking? || m.cpus[d].phase.Return? || m.cpus[d].phase.Stuck?
  }

  lemma StepOut(m: Machine, step: Step, e: nat)
    requires Inv(m) && Enabled(m, step) && OnTheWayOut(m, e)
    requires !(step.Iret? && step.c < |m.cpus| && m.cpus[step.c].env == Some(e))
    ensures NotOwn(m, step, e) && OnTheWayOut(Next(m, step), e)
  {
    var m' := Next(m, step);
    assert CpuOk(m, step.c);
    forall d: nat | d < |m'.cpus| && m'.cpus[d].env == Some(e)
      ensures var p := m'.cpus[d].phase; p.Leaving? || p.Unlocking? || p.Return? || p.Stuck?
    {
      if d == step.c {
        OwnOut(m, step, e);
      } else {
        CpuCount(m, step);
        OtherCpuUntouched(m, step, d);
      }
    }
  }

  lemma CpuCount(m: Machine, step: Step)
    requires Inv(m) && Enabled(m, step)
    ensures |Next(m, step).cpus| == |m.cpus|
  {
    hide KValid, Effect, EnvFree, Ready, Respects, MayWrite, StoreWord, Inboxes, Pick;
  }

  lemma OwnOut(m: Machine, step: Step, e: nat)
    requires Inv(m) && Enabled(m, step) && OnTheWayOut(m, e) && step.c < |Next(m, step).cpus|
    requires !(step.Iret? && m.cpus[step.c].env == Some(e)) && Next(m, step).cpus[step.c].env == Some(e)
    ensures var p := Next(m, step).cpus[step.c].phase; p.Leaving? || p.Unlocking? || p.Return? || p.Stuck?
  {
    assert CpuOk(m, step.c);
    if step.Sys? {
      TrapServed(m, step.c, step.call);
      hide Inv, Enabled, Next, Live;
      ServedPhase(m, Next(m, step), step.c, step.call);
    } else if step.Leave? {
      LeaveChooses(m, step.c);
      hide Inv, Enabled, Next, Yields;
      RoundRobinPhase(m, Next(m, step), step.c);
    } else {
      EnvCount(m);
      hide KValid, SysStep, LeaveStep, EnvFree, Ready, Respects, MayWrite, StoreWord, LockOk, Placed, InboxOk;
    }
  }

  lemma ServedPhase(m: Machine, m': Machine, c: nat, call: Call)
    requires c < |m.cpus| && m.cpus[c].env.Some? && KValid(m.k) && Live(m.k, m.cpus[c].env.value)
    requires Ready(m.k, m.cpus[c].env.value, call) && Served(m, m', c, call)
    ensures c < |m'.cpus| && m'.cpus[c].phase.Leaving?
  {
    hide KValid, Ready, Live, Lookup;
  }

  lemma RoundRobinPhase(m: Machine, m': Machine, c: nat)
    requires c < |m.cpus| == |m'.cpus| && |m.k.envs| == NENV && (m.cpus[c].env.Some? ==> m.cpus[c].env.value < NENV)
    requires if Yields(m, c) then RoundRobin(m, m', c) else Dispatched(m, m', c, m.cpus[c].env.value)
    ensures m'.cpus[c].phase.Unlocking? || m'.cpus[c].phase.Stuck?
  {
    hide Yields, IsFirst;
    if x: nat :| x < NENV && m.k.envs[x].status == Runnable {
      var y := FirstFrom(m.k.envs, if m.cpus[c].env.Some? then m.cpus[c].env.value + 1 else 0, x);
      assert Yields(m, c) ==> Dispatched(m, m', c, y);
    }
  }

  /** The registers of a program are those it trapped with, but for r in eax. */
  predicate HasResult(tf: Tf, regs: Tf, r: int) {
    regs.eax == r && regs.others == tf.others
  }

  /** The registers with which a program that trapped with `tf` goes on. */
  ghost predicate Resumes(k: Kern, cur: nat, call: Call, tf: Tf, regs: Tf)
    requires KValid(k) && Live(k, cur) && Ready(k, cur, call)
  {
    match call
    case PageAlloc(envid, va, perm) => HasResult(tf, regs, SysPageAlloc(k, cur, envid, va, perm).1)
    case PageMap(src, srcva, dst, dstva, perm) =>
      HasResult(tf, regs, SysPageMap(k, cur, src, srcva, dst, dstva, perm).1)
    case PageUnmap(envid, va) => HasResult(tf, regs, SysPageUnmap(k, cur, envid, va).1)
    case Exofork => HasResult(tf, regs, SysExofork(k, cur).1)
    case SetStatus(envid, status) => HasResult(tf, regs, SysEnvSetStatus(k, cur, envid, status).1)
    case SetUpcall(envid, func) => HasResult(tf, regs, if Lookup(k, cur, envid, true) == None then E_BAD_ENV else 0)
    case Destroy(envid) => HasResult(tf, regs, if Lookup(k, cur, envid, true) == None then E_BAD_ENV else 0)
    case Send(envid, value, srcva, perm) => HasResult(tf, regs, SysIpcTrySend(k, cur, envid, value, srcva, perm).1)
    case Recv(dstva) => HasResult(tf, regs, if dstva < UTOP && dstva % PGSIZE != 0 then E_INVAL else 0)
    case Yield => regs == tf
    case Fault(handler) => handler == Some(regs)
    case Other(r) => HasResult(tf, regs, r)
  }

  /** After a trap, a program goes on, whenever and on whichever CPU that is, with the registers it trapped
      with, but for the result of its call: that of a receive is 0, given by the sender, and a page fault
      goes to its upcall. */
  lemma TrapReturns(ms: seq<Machine>, steps: seq<Step>, i: nat, s: nat, j: nat, c: nat, d: nat, e: nat, call: Call)
    requires IsRun(ms, steps) && Init(ms[0]) && i < s < j < |steps|
    requires steps[i] == Trap(c) && steps[s] == Sys(c, call) && steps[j] == Iret(d)
    requires c < |ms[i].cpus| && ms[i].cpus[c].env == Some(e) && d < |ms[j].cpus| && ms[j].cpus[d].env == Some(e)
    requires forall l: nat | i < l < s && steps[l].c == c :: steps[l].Xchg?
    requires forall l: nat | s < l < j && steps[l].Iret? && steps[l].c < |ms[l].cpus| ::
               ms[l].cpus[steps[l].c].env != Some(e)
    requires forall l: nat | i <= l <= j :: Live(ms[l].k, e)
    ensures KValid(ms[s].k) && Ready(ms[s].k, e, call) && d < |ms[j + 1].cpus|
    ensures Resumes(ms[s].k, e, call, ms[i].cpus[c].regs, ms[j + 1].cpus[d].regs)
  {
    hide Inv, Init, Next, Enabled, Live, KValid, Ready, Resumes;
    InitInv(ms[0]);
    TrapSaves(ms, steps, i, s, c, e);
    RunKeepsInv(ms, steps, s);
    RunKeepsInv(ms, steps, s + 1);
    RunKeepsInv(ms, steps, j);
    TrapServed(ms[s], c, call);
    AtTheCall(ms[s], c, call, e, ms[i].cpus[c].regs);
    assert Live(ms[s + 1].k, e) && Live(ms[j].k, e);
    LeavingIsOut(ms[s], ms[s + 1], c, call, e);
    OutTf(ms, steps, s + 1, j, e);
    IretLoads(ms[j], d, e);
    InKernelLive(ms[s], c, e);
    Assembled(ms[s], ms[s + 1], c, call, e, ms[j].k.envs[e]);
  }

  /** Until its system call, CPU c spins for the lock with the registers in it, or is in the kernel with
      the registers saved, or has collected a zombie. */
  ghost predicate Entering(m: Machine, c: nat, e: nat, tf: Tf) {
    c < |m.cpus| &&
    (|| (m.cpus[c].phase == Spin(false) && m.cpus[c].env == Some(e) && m.cpus[c].regs == tf)
     || (m.cpus[c].phase == InKernel && m.cpus[c].env == Some(e) && e < |m.k.envs| && m.k.envs[e].tf == tf)
     || m.cpus[c].phase.Leaving?)
  }

  lemma {:induction false} TrapSaves(ms: seq<Machine>, steps: seq<Step>, i: nat, s: nat, c: nat, e: nat)
    requires IsRun(ms, steps) && Inv(ms[0]) && i < s <= |steps| && steps[i] == Trap(c)
    requires c < |ms[i].cpus| && ms[i].cpus[c].env == Some(e)
    requires forall l: nat | i < l < s && steps[l].c == c :: steps[l].Xchg?
    ensures Entering(ms[s], c, e, ms[i].cpus[c].regs)
  {
    hide Inv, Next, Enabled, Entering;
    RunKeepsInv(ms, steps, s - 1);
    if s == i + 1 {
      TrapSpins(ms[i], c, e);
    } else {
      TrapSaves(ms, steps, i, s - 1, c, e);
      RunKeepsInv(ms, steps, s);
      StepEnters(ms[s - 1], steps[s - 1], c, e, ms[i].cpus[c].regs);
    }
  }

  lemma AtTheCall(m: Machine, c: nat, call: Call, e: nat, tf: Tf)
    requires Inv(m) && Enabled(m, Sys(c, call)) && Entering(m, c, e, tf)
    ensures c < |m.cpus| && m.cpus[c].phase == InKernel && m.cpus[c].env == Some(e)
    ensures e < |m.k.envs| && m.k.envs[e].tf == tf
  {
    hide KValid, Ready, Respects;
  }

  lemma TrapSpins(m: Machine, c: nat, e: nat)
    requires Inv(m) && Enabled(m, Trap(c)) && c < |m.cpus| && m.cpus[c].env == Some(e)
    ensures Entering(Next(m, Trap(c)), c, e, m.cpus[c].regs)
  {
    hide KValid;
  }

  lemma StepEnters(m: Machine, step: Step, c: nat, e: nat, tf: Tf)
    requires Inv(m) && Enabled(m, step) && Inv(Next(m, step)) && Entering(m, c, e, tf) && (step.c == c ==> step.Xchg?)
    ensures Entering(Next(m, step), c, e, tf)
  {
    if step.c == c {
      assert CpuOk(m, c);
      hide KValid, EnvFree, LockOk, Placed, InboxOk;
    } else {
      OtherCpuUntouched(m, step, c);
      if m.cpus[c].phase == InKernel {
        KernelKeepsTf(m, step, c, e);
      }
    }
  }

  /** While CPU c is in the kernel, nobody else writes what it has saved. */
  lemma KernelKeepsTf(m: Machine, step: Step, c: nat, e: nat)
    requires Inv(m) && Enabled(m, step) && Inv(Next(m, step)) && c < |m.cpus| && step.c != c
    requires m.cpus[c].phase == InKernel && m.cpus[c].env == Some(e)
    ensures e < |m.k.envs| && e < |Next(m, step).k.envs| && Next(m, step).k.envs[e].tf == m.k.envs[e].tf
  {
    CpuCount(m, step);
    OtherCpuUntouched(m, step, c);
    InKernelLive(m, c, e);
    InKernelLive(Next(m, step), c, e);
    assert NotOwn(m, step, e) by { OneHolder(m, step, c, e); }
    hide Inv, Next, Enabled;
    StepTf(m, step, e);
  }

  lemma OneHolder(m: Machine, step: Step, c: nat, e: nat)
    requires Inv(m) && Enabled(m, step) && c < |m.cpus| && step.c != c && m.cpus[c].env == Some(e)
    ensures NotOwn(m, step, e)
  {
    hide KValid;
  }

  lemma InKernelLive(m: Machine, c: nat, e: nat)
    requires Inv(m) && c < |m.cpus| && m.cpus[c].phase == InKernel && m.cpus[c].env == Some(e)
    ensures Live(m.k, e) && !m.k.envs[e].recving
  {
    assert CpuOk(m, c);
    hide Valid, FreeSlots, IdsOk, PgdirsOk;
  }

  lemma LeavingIsOut(m: Machine, m': Machine, c: nat, call: Call, e: nat)
    requires Inv(m') && c < |m.cpus| && m.cpus[c].env == Some(e) && KValid(m.k) && Live(m.k, e) && Ready(m.k, e, call)
    requires Served(m, m', c, call) && Live(m'.k, e)
    ensures OnTheWayOut(m', e)
  {
    ServedPhase(m, m', c, call);
    ServedEnv(m, m', c, call);
    hide KValid, Ready, Served;
  }

  lemma ServedEnv(m: Machine, m': Machine, c: nat, call: Call)
    requires c < |m.cpus| && m.cpus[c].env.Some? && KValid(m.k) && Live(m.k, m.cpus[c].env.value)
    requires Ready(m.k, m.cpus[c].env.value, call) && Served(m, m', c, call) && Live(m'.k, m.cpus[c].env.value)
    ensures c < |m'.cpus| && m'.cpus[c].env == m.cpus[c].env
  {
    hide KValid, Ready, Live, Lookup;
  }

  ghost predicate KeptFrom(m: Machine, m': Machine, e: nat) {
    e < |m.k.envs| && e < |m'.k.envs| && TfKept(m.k.envs[e], m'.k.envs[e])
  }

  lemma {:induction false} OutTf(ms: seq<Machine>, steps: seq<Step>, a: nat, b: nat, e: nat)
    requires |ms| == |steps| + 1 && IsRun(ms, steps) && Inv(ms[0]) && a <= b < |ms| && OnTheWayOut(ms[a], e)
    requires forall l: nat | a <= l < b && steps[l].Iret? && steps[l].c < |ms[l].cpus| ::
               ms[l].cpus[steps[l].c].env != Some(e)
    requires forall l: nat | a <= l <= b :: Live(ms[l].k, e)
    ensures OnTheWayOut(ms[b], e) && KeptFrom(ms[a], ms[b], e)
  {
    hide *;
    if a < b {
      OutTf(ms, steps, a, b - 1, e);
      RunStep(ms, steps, b - 1);
      StepOutKeeps(ms[a], ms[b - 1], steps[b - 1], e);
    } else {
      KeptFromSelf(ms[a], e);
    }
  }

  lemma KeptFromSelf(m: Machine, e: nat)
    requires Live(m.k, e)
    ensures KeptFrom(m, m, e)
  {
  }

  lemma StepOutKeeps(m0: Machine, m: Machine, step: Step, e: nat)
    requires Inv(m) && Enabled(m, step) && OnTheWayOut(m, e) && KeptFrom(m0, m, e)
    requires !(step.Iret? && step.c < |m.cpus| && m.cpus[step.c].env == Some(e))
    requires Live(m.k, e) && Live(Next(m, step).k, e)
    ensures OnTheWayOut(Next(m, step), e) && KeptFrom(m0, Next(m, step), e)
  {
    hide Inv, Enabled, Next, OnTheWayOut;
    StepOut(m, step, e);
    StepTf(m, step, e);
  }

  lemma RunStep(ms: seq<Machine>, steps: seq<Step>, n: nat)
    requires IsRun(ms, steps) && Inv(ms[0]) && n < |steps|
    ensures Inv(ms[n]) && Enabled(ms[n], steps[n]) && ms[n + 1] == Next(ms[n], steps[n])
  {
    hide Inv, Next, Enabled;
    RunKeepsInv(ms, steps, n);
  }

  lemma IretLoads(m: Machine, d: nat, e: nat)
    requires Inv(m) && Enabled(m, Iret(d)) && d < |m.cpus| && m.cpus[d].env == Some(e)
    ensures d < |Next(m, Iret(d)).cpus| && Live(m.k, e)
    ensures Next(m, Iret(d)).cpus[d].regs == m.k.envs[e].tf && !m.k.envs[e].recving
  {
    assert CpuOk(m, d);
    hide Valid, FreeSlots, IdsOk, PgdirsOk;
  }

  lemma Assembled(m: Machine, m': Machine, c: nat, call: Call, e: nat, last: Env)
    requires c < |m.cpus| && m.cpus[c].env == Some(e) && KValid(m.k) && Live(m.k, e) && Ready(m.k, e, call)
    requires Served(m, m', c, call) && !m.k.envs[e].recving && e < |m'.k.envs| && Live(m'.k, e)
    requires TfKept(m'.k.envs[e], last) && !last.recving
    ensures Resumes(m.k, e, call, m.k.envs[e].tf, last.tf)
  {
    assert |m.k.envs| == NENV;
    hide KValid, Ready, Live, Lookup, EnvDestroy;
    hide SysPageAlloc, SysPageMap, SysPageUnmap, SysExofork, SysIpcTrySend, SysEnvSetStatus;
  }
}
