/** The kernel on several CPUs: the big lock (kern/spinlock.c), entry and return (kern/trap.c,
    kern/env.c) and scheduling (kern/sched.c), as one step machine.  A step is what one CPU does
    between two points where another CPU could notice: an instruction of a user program, which may
    store a word to a page its environment maps writable, one xchg on the lock, one system call under
    the lock, a scheduling decision, the release of the lock, and the iret that follows it without the
    lock. */
module Machine {
  import opened Mmu
  import opened Pmap
  import opened Envs
  import opened Sched
  import opened Syscalls

  /** Where a CPU is.  `Spin` is spin_lock's loop, entered from user mode or after a halt;
      `Leaving` is the end of trap(), about to pick what runs next; `Return` is the window between
      unlock_kernel and iret, where `saved` is what env_tf held at the unlock; `Stuck` is the
      monitor that sched_halt never leaves. */
  datatype Phase =
    | User
    | Spin(woken: bool)
    | InKernel
    | Leaving(giveUp: bool)
    | Unlocking(halt: bool)
    | Return(saved: Tf)
    | Halted
    | Stuck

  datatype Cpu = Cpu(phase: Phase, env: Option<nat>, regs: Tf)

  /** What has been sent to an environment by sys_ipc_try_send and what its ipc_recv has returned,
      since the slot was allocated; `reading` is the stretch of ipc_recv after the system call. */
  datatype Inbox = Inbox(sent: seq<int>, got: seq<int>, reading: bool)

  datatype Machine = Machine(k: Kern, cpus: seq<Cpu>, locked: bool, owner: Option<nat>, inbox: seq<Inbox>)

  datatype Call =
    | PageAlloc(envid: int, va: Addr, perm: Flags)
    | PageMap(src: int, srcva: Addr, dst: int, dstva: Addr, perm: Flags)
    | PageUnmap(envid: int, va: Addr)
    | Exofork
    | SetStatus(envid: int, status: int)
    | SetUpcall(envid: int, func: Addr)
    | Destroy(envid: int)
    | Send(envid: int, value: int, srcva: Addr, perm: Flags)
    | Recv(dstva: Addr)
    | Yield
    | Fault(handler: Option<Tf>)
    | Other(result: int)

  datatype Step =
    | Run(c: nat, regs: Tf)
    | Write(c: nat, va: Addr, w: Word)
    | ReadValue(c: nat)
    | Trap(c: nat)
    | Wake(c: nat)
    | Xchg(c: nat)
    | Sys(c: nat, call: Call)
    | Leave(c: nat)
    | Unlock(c: nat)
    | Iret(c: nat)

  predicate Holds(cpu: Cpu) {
    cpu.phase.InKernel? || cpu.phase.Leaving? || cpu.phase.Unlocking? || cpu.phase.Stuck?
  }

  function SetCpu(m: Machine, c: nat, cpu: Cpu): Machine
    requires c < |m.cpus|
  {
    m.(cpus := m.cpus[c := cpu])
  }

  function SetPhase(m: Machine, c: nat, phase: Phase): Machine
    requires c < |m.cpus|
  {
    SetCpu(m, c, m.cpus[c].(phase := phase))
  }

  function SetEnv(k: Kern, i: nat, e: Env): Kern
    requires i < |k.envs|
  {
    k.(envs := k.envs[i := e])
  }

  // ------------------------------------------------------------------
  // The invariant.
  // ------------------------------------------------------------------

  /** The lock is held by exactly the CPU that is inside the kernel. */
  ghost predicate LockOk(m: Machine) {
    && (forall c: nat | c < |m.cpus| :: Holds(m.cpus[c]) <==> m.owner == Some(c))
    && (m.locked <==> m.owner.Some?)
    && (m.owner.Some? ==> m.owner.value < |m.cpus|)
  }

  /** What a CPU's phase says about the environment it has. */
  ghost predicate CpuOk(m: Machine, c: nat)
    requires c < |m.cpus| && |m.k.envs| == NENV
  {
    var cpu := m.cpus[c];
    && (cpu.env.Some? ==> Live(m.k, cpu.env.value))
    && match cpu.phase
       case User => cpu.env.Some? && m.k.envs[cpu.env.value].status in {Running, Dying}
       case Spin(woken) =>
         if woken then cpu.env.None? else cpu.env.Some? && m.k.envs[cpu.env.value].status in {Running, Dying}
       case InKernel => cpu.env.Some? && m.k.envs[cpu.env.value].status.Running?
       case Leaving(_) => cpu.env.Some? ==> m.k.envs[cpu.env.value].status != Dying
       case Unlocking(halt) => if halt then cpu.env.None? else cpu.env.Some? && m.k.envs[cpu.env.value].status.Running?
       case Return(saved) =>
         && cpu.env.Some? && m.k.envs[cpu.env.value].status in {Running, Dying}
         && m.k.envs[cpu.env.value].tf == saved
       case Halted => cpu.env.None?
       case Stuck => cpu.env.Some? ==> m.k.envs[cpu.env.value].status.NotRunnable?
  }

  /** No environment is on two CPUs, and the running and dying ones are on one. */
  ghost predicate Placed(m: Machine) {
    && (forall c: nat, d: nat | c < |m.cpus| && d < |m.cpus| && m.cpus[c].env.Some? && m.cpus[d].env == m.cpus[c].env ::
          c == d)
    && (forall e: nat | e < |m.k.envs| && m.k.envs[e].status in {Running, Dying} ::
          exists c: nat :: c < |m.cpus| && m.cpus[c].env == Some(e))
  }

  /** Everything sent has been received, but for the last value while the receiver has yet to read it. */
  ghost predicate InboxOk(m: Machine, e: nat)
    requires e < |m.inbox| == |m.k.envs|
  {
    var b, env := m.inbox[e], m.k.envs[e];
    if b.reading then !env.recving && b.sent == b.got + [env.value] else b.sent == b.got
  }

  ghost predicate Inv(m: Machine) {
    && KValid(m.k) && |m.inbox| == NENV
    && LockOk(m) && Placed(m)
    && (forall c: nat | c < |m.cpus| :: CpuOk(m, c))
    && (forall e: nat | e < NENV :: InboxOk(m, e))
  }

  // ------------------------------------------------------------------
  // System calls and exceptions.
  // ------------------------------------------------------------------

  /** How a trap ends: with a result for eax, with registers already set, by a call of sched_yield,
      or with the environment gone. */
  datatype After = Returned(r: int) | Resumed | GaveUp | Died

  /** What the code reads of the page tables is there. */
  ghost predicate Ready(k: Kern, cur: nat, call: Call)
    requires KValid(k) && Live(k, cur)
  {
    match call
    case PageMap(src, srcva, dst, dstva, perm) => MapReady(k, cur, src, srcva, dst, dstva, perm)
    case _ => true
  }

  /** One trap of environment `cur`, between taking its registers and the end of trap_dispatch. */
  function Effect(k: Kern, cur: nat, call: Call): (Kern, After)
    requires KValid(k) && Live(k, cur) && Ready(k, cur, call)
  {
    match call
    case PageAlloc(envid, va, perm) => var (k', r) := SysPageAlloc(k, cur, envid, va, perm); (k', Returned(r))
    case PageMap(src, srcva, dst, dstva, perm) =>
      var (k', r) := SysPageMap(k, cur, src, srcva, dst, dstva, perm); (k', Returned(r))
    case PageUnmap(envid, va) => var (k', r) := SysPageUnmap(k, cur, envid, va); (k', Returned(r))
    case Exofork => var (k', r) := SysExofork(k, cur); (k', Returned(r))
    case SetStatus(envid, status) => var (k', r) := SysEnvSetStatus(k, cur, envid, status); (k', Returned(r))
    case SetUpcall(envid, func) =>
      (match Lookup(k, cur, envid, true)
       case None => (k, Returned(E_BAD_ENV))
       case Some(i) => (SetEnv(k, i, k.envs[i].(upcall := func)), Returned(0)))
    case Destroy(envid) =>
      (match Lookup(k, cur, envid, true)
       case None => (k, Returned(E_BAD_ENV))
       case Some(i) => LookupLive(k, cur, envid, true); (EnvDestroy(k, cur, i), if i == cur then Died else Returned(0)))
    case Send(envid, value, srcva, perm) =>
      var (k', r) := SysIpcTrySend(k, cur, envid, value, srcva, perm); (k', Returned(r))
    case Recv(dstva) => var (k', r) := SysIpcRecv(k, cur, dstva); (k', if r == 0 then GaveUp else Returned(r))
    case Yield => (k, GaveUp)
    case Fault(handler) =>
      // The frame is pushed if the environment has an upcall and a stack for it.
      if k.envs[cur].upcall == 0 || handler.None? then (EnvDestroy(k, cur, cur), Died)
      else (SetEnv(k, cur, k.envs[cur].(tf := handler.value)), Resumed)
    case Other(r) => (k, Returned(r))
  }

  /** What the callers have to respect because the code does not check it: a mapping count with
      room, an unmapped page that has no table, an environment whose status may be set or that may
      be destroyed from outside, and reading a received value before receiving another. */
  ghost predicate Respects(m: Machine, cur: nat, call: Call)
    requires KValid(m.k) && Live(m.k, cur) && |m.inbox| == NENV && Ready(m.k, cur, call)
  {
    match call
    case PageMap(src, srcva, dst, dstva, perm) =>
      MapReaches(m.k, cur, src, srcva, dst, dstva, perm) ==>
        MayMap(m.k, Lookup(m.k, cur, src, true).value, srcva, Lookup(m.k, cur, dst, true).value, dstva)
    case PageUnmap(envid, va) =>
      var i := Lookup(m.k, cur, envid, true);
      i.Some? && UserPage(va) ==> MayUnmap(m.k, i.value, va)
    case SetStatus(envid, status) =>
      var i := Lookup(m.k, cur, envid, true);
      i.Some? && StatusOf(status).Some? ==> MaySetStatus(m.k, cur, i.value, status)
    case Destroy(envid) =>
      var i := Lookup(m.k, cur, envid, true);
      i.Some? ==> MayDestroy(m.k, cur, i.value)
    case Send(envid, value, srcva, perm) =>
      var i := Lookup(m.k, cur, envid, false);
      i.Some? && SendsPage(m.k, cur, i.value, srcva, perm) ==>
        MayMap(m.k, cur, srcva, i.value, m.k.envs[i.value].dstva)
    case Recv(dstva) => (dstva < UTOP && PGOFF(dstva) != 0) || !m.inbox[cur].reading
    case _ => true
  }

  /** If mapping page srcva of slot i at page dstva of slot j succeeds, the source is mapped, and its
      frame has room for one more mapping. */
  ghost predicate MayMap(k: Kern, i: nat, srcva: Addr, j: nat, dstva: Addr)
    requires KValid(k)
  {
    Live(k, i) && Live(k, j) &&
    (!NoTableFor(k, j, dstva) ==>
       && Mapping(k, i, srcva).Some? && Mapping(k, i, srcva).value.frame < |k.vm.ref|
       && Room(k, j, dstva, Mapping(k, i, srcva).value.frame))
  }

  /** A send to slot i gets as far as mapping the page. */
  ghost predicate SendsPage(k: Kern, cur: nat, i: nat, srcva: Addr, perm: Flags)
    requires KValid(k) && Live(k, cur)
  {
    Live(k, i) && k.envs[i].recving && Transfers(k, i, srcva) && !BadPage(k, cur, srcva, perm)
  }

  ghost predicate MayUnmap(k: Kern, i: nat, va: Addr)
    requires KValid(k)
  {
    Live(k, i) && (Table(k.vm, Space(k, i), PDX(va)).None? || Mapping(k, i, va).Some?)
  }

  /** The target is the caller, or on no CPU; and if it is to run, it is not receiving. */
  predicate MaySetStatus(k: Kern, cur: nat, i: nat, status: int) {
    i < |k.envs| && (i == cur || k.envs[i].status !in {Running, Dying}) && !(k.envs[i].recving && status == 2)
  }

  predicate MayDestroy(k: Kern, cur: nat, i: nat) {
    i < |k.envs| && (i == cur || k.envs[i].status != Dying)
  }

  /** The inboxes after a trap that ended in `a`. */
  function Inboxes(m: Machine, cur: nat, call: Call, a: After): (inbox: seq<Inbox>)
    requires |m.inbox| == |m.k.envs| == NENV && cur < NENV
    ensures |inbox| == NENV
  {
    match (call, a)
    case (Send(envid, value, srcva, perm), Returned(0)) =>
      (match Lookup(m.k, cur, envid, false)
       case None => m.inbox
       case Some(i) => m.inbox[i := Inbox(m.inbox[i].sent + [value], m.inbox[i].got, true)])
    case (Exofork, Returned(r)) => if r > 0 then m.inbox[EnvX(r) := Inbox([], [], false)] else m.inbox
    case _ => m.inbox
  }

  function SysStep(m: Machine, c: nat, call: Call): Machine
    requires c < |m.cpus| && m.cpus[c].env.Some? && KValid(m.k) && Live(m.k, m.cpus[c].env.value)
    requires Ready(m.k, m.cpus[c].env.value, call) && |m.inbox| == NENV
  {
    var cur := m.cpus[c].env.value;
    var (k', a) := Effect(m.k, cur, call);
    var m' := m.(k := k', inbox := Inboxes(m, cur, call, a));
    match a
    case Returned(r) =>
      if cur < |k'.envs|
      then SetPhase(m'.(k := SetEnv(k', cur, k'.envs[cur].(tf := k'.envs[cur].tf.(eax := r)))), c, Leaving(false))
      else m'
    case Resumed => SetPhase(m', c, Leaving(false))
    case GaveUp => SetPhase(m', c, Leaving(true))
    case Died => SetCpu(m', c, m.cpus[c].(phase := Leaving(true), env := None))
  }

  // ------------------------------------------------------------------
  // Entry, scheduling, return.
  // ------------------------------------------------------------------

  /** trap(), once the lock is taken from user mode: a zombie is collected, and otherwise the
      registers are saved. */
  function Enter(m: Machine, c: nat): Machine
    requires c < |m.cpus| && m.cpus[c].env.Some? && KValid(m.k) && Live(m.k, m.cpus[c].env.value)
  {
    var e := m.cpus[c].env.value;
    if m.k.envs[e].status.Dying? then
      EnvFreeValid(m.k, e);
      SetCpu(m.(k := EnvFree(m.k, e)), c, m.cpus[c].(phase := Leaving(true), env := None))
    else
      SetPhase(m.(k := SetEnv(m.k, e, m.k.envs[e].(tf := m.cpus[c].regs))), c, InKernel)
  }

  /** env_run, up to unlock_kernel. */
  function EnvRun(m: Machine, c: nat, e: nat): Machine
    requires c < |m.cpus| && e < |m.k.envs| && (m.cpus[c].env.Some? ==> m.cpus[c].env.value < |m.k.envs|)
  {
    var k1 := match m.cpus[c].env
              case None => m.k
              case Some(cur) =>
                if m.k.envs[cur].status.Running? then SetEnv(m.k, cur, m.k.envs[cur].(status := Runnable)) else m.k;
    var k2 := SetEnv(k1, e, k1.envs[e].(status := Running));
    SetCpu(m.(k := k2), c, m.cpus[c].(phase := Unlocking(false), env := Some(e)))
  }

  /** Whether sched_halt finds something that can still run. */
  ghost predicate Hope(k: Kern) {
    exists e: nat :: e < |k.envs| && k.envs[e].status in {Runnable, Running, Dying}
  }

  /** sched_yield and sched_halt. */
  ghost function SchedYield(m: Machine, c: nat): Machine
    requires c < |m.cpus| && |m.k.envs| == NENV && (m.cpus[c].env.Some? ==> m.cpus[c].env.value < NENV)
  {
    var cur := m.cpus[c].env;
    match Pick(m.k.envs, cur)
    case Some(e) => PickFirst(m.k.envs, cur); EnvRun(m, c, e)
    case None =>
      if cur.Some? && m.k.envs[cur.value].status.Running? then EnvRun(m, c, cur.value)
      else if !Hope(m.k) then SetPhase(m, c, Stuck)
      else SetCpu(m, c, m.cpus[c].(phase := Unlocking(true), env := None))
  }

  /** The end of trap(). */
  ghost function LeaveStep(m: Machine, c: nat): Machine
    requires c < |m.cpus| && m.cpus[c].phase.Leaving?
    requires |m.k.envs| == NENV && (m.cpus[c].env.Some? ==> m.cpus[c].env.value < NENV)
  {
    var cur := m.cpus[c].env;
    if !m.cpus[c].phase.giveUp && cur.Some? && m.k.envs[cur.value].status.Running? then EnvRun(m, c, cur.value)
    else SchedYield(m, c)
  }

  /** The MMU lets environment e write the word at va. */
  predicate MayWrite(k: Kern, e: nat, va: Addr)
    requires KValid(k) && Live(k, e)
  {
    va < UTOP && UserWrites(k.vm, Space(k, e), PDX(va), PTX(va))
  }

  lemma MayWriteData(k: Kern, e: nat, va: Addr)
    requires KValid(k) && Live(k, e) && MayWrite(k, e, va)
    ensures Mapping(k, e, va).Some? && Mapping(k, e, va).value.frame < |k.vm.mem|
    ensures DataPage(k.vm, Mapping(k, e, va).value.frame) && Mapping(k, e, va).value.flags & 7 == 7
  {
    UserIndexes(va);
    UserWritesData(k.vm, Space(k, e), PDX(va), PTX(va));
  }

  /** A store of w by environment e. */
  function StoreWord(k: Kern, e: nat, va: Addr, w: Word): Kern
    requires KValid(k) && Live(k, e) && MayWrite(k, e, va)
  {
    MayWriteData(k, e, va);
    k.(vm := Put(k.vm, Mapping(k, e, va).value.frame, PGOFF(va) / 4, w))
  }

  /** Which steps CPU c can take. */
  ghost predicate Enabled(m: Machine, step: Step)
    requires Inv(m)
  {
    step.c < |m.cpus| && CpuOk(m, step.c) &&
    var cpu := m.cpus[step.c];
    match step
    case Run(c, regs) => cpu.phase.User?
    case Write(c, va, w) => cpu.phase.User? && MayWrite(m.k, cpu.env.value, va)
    case ReadValue(c) => cpu.phase.User? && m.inbox[cpu.env.value].reading
    case Trap(c) => cpu.phase.User?
    case Wake(c) => cpu.phase.Halted?
    case Xchg(c) => cpu.phase.Spin?
    case Sys(c, call) => cpu.phase.InKernel? && Ready(m.k, cpu.env.value, call) && Respects(m, cpu.env.value, call)
    case Leave(c) => cpu.phase.Leaving?
    case Unlock(c) => cpu.phase.Unlocking?
    case Iret(c) => cpu.phase.Return?
  }

  ghost function Next(m: Machine, step: Step): Machine
    requires Inv(m) && Enabled(m, step)
  {
    var cpu := m.cpus[step.c];
    assert CpuOk(m, step.c);
    match step
    case Run(c, regs) => SetCpu(m, c, cpu.(regs := regs))
    case Write(c, va, w) => m.(k := StoreWord(m.k, cpu.env.value, va, w))
    case ReadValue(c) =>
      var e := cpu.env.value;
      m.(inbox := m.inbox[e := m.inbox[e].(got := m.inbox[e].got + [m.k.envs[e].value], reading := false)])
    case Trap(c) => SetPhase(m, c, Spin(false))
    case Wake(c) => SetPhase(m, c, Spin(true))
    case Xchg(c) =>
      // xchg stores 1 in any case; the lock is taken if it held 0.
      if m.locked then m.(locked := true)
      else
        var m' := m.(locked := true, owner := Some(c));
        if cpu.phase.woken then SetPhase(m', c, Leaving(true)) else Enter(m', c)
    case Sys(c, call) => SysStep(m, c, call)
    case Leave(c) => LeaveStep(m, c)
    case Unlock(c) =>
      SetPhase(m.(locked := false, owner := None), c,
               if cpu.phase.halt then Halted else Return(m.k.envs[cpu.env.value].tf))
    case Iret(c) => SetCpu(m, c, cpu.(phase := User, regs := m.k.envs[cpu.env.value].tf))
  }

  // ------------------------------------------------------------------
  // Every step keeps the invariant.
  // ------------------------------------------------------------------

  predicate OnCpu(e: Env) {
    e.status.Running? || e.status.Dying?
  }

  /** The environments of the other CPUs stay on them, with their saved registers; nothing else gets
      on a CPU. */
  ghost predicate OthersKept(k: Kern, k': Kern, cur: Option<nat>) {
    && |k.envs| == |k'.envs| == NENV
    && forall e: nat | e < NENV && cur != Some(e) ::
         (OnCpu(k'.envs[e]) <==> OnCpu(k.envs[e])) && (OnCpu(k.envs[e]) ==> k'.envs[e].tf == k.envs[e].tf)
  }

  lemma OtherCpuOk(m: Machine, m': Machine, c: nat, d: nat)
    requires Inv(m) && c < |m.cpus| == |m'.cpus| && d < |m.cpus| && d != c && m'.cpus[d] == m.cpus[d]
    requires |m'.k.envs| == NENV && CpuOk(m, c) && CpuOk(m', c)
    requires (m'.k.envs == m.k.envs && m'.cpus[c].env == m.cpus[c].env) || !Holds(m.cpus[d])
    requires forall e: nat | e < NENV && m.cpus[c].env != Some(e) && m'.cpus[c].env != Some(e) ::
               && (OnCpu(m'.k.envs[e]) <==> OnCpu(m.k.envs[e]))
               && (OnCpu(m.k.envs[e]) ==> m'.k.envs[e].tf == m.k.envs[e].tf)
    requires m'.cpus[c].env.Some? && m'.cpus[c].env != m.cpus[c].env ==> !OnCpu(m.k.envs[m'.cpus[c].env.value])
    ensures m.cpus[d].env.Some? ==> m.cpus[c].env != m.cpus[d].env && m'.cpus[c].env != m.cpus[d].env
    ensures CpuOk(m', d)
  {
    hide Valid, FreeSlots, IdsOk, PgdirsOk, RecvOk, InboxOk, LockOk;
    assert CpuOk(m, d);
    if !Holds(m.cpus[d]) && m.cpus[d].env.Some? {
      assert OnCpu(m.k.envs[m.cpus[d].env.value]);
    }
  }

  /** CPU c moved; the rest of the invariant follows from what it did to its own environment. */
  lemma Reassemble(m: Machine, m': Machine, c: nat)
    requires Inv(m) && c < |m.cpus| == |m'.cpus|
    requires forall d: nat | d < |m.cpus| && d != c :: m'.cpus[d] == m.cpus[d]
    requires KValid(m'.k) && |m'.inbox| == NENV && forall e: nat | e < NENV :: InboxOk(m', e)
    requires LockOk(m') && CpuOk(m', c)
    requires || (m'.k.envs == m.k.envs && m'.cpus[c].env == m.cpus[c].env)
             || forall d: nat | d < |m.cpus| && d != c :: !Holds(m.cpus[d])
    requires forall e: nat | e < NENV && m.cpus[c].env != Some(e) && m'.cpus[c].env != Some(e) ::
               && (OnCpu(m'.k.envs[e]) <==> OnCpu(m.k.envs[e]))
               && (OnCpu(m.k.envs[e]) ==> m'.k.envs[e].tf == m.k.envs[e].tf)
    requires m'.cpus[c].env.Some? && m'.cpus[c].env != m.cpus[c].env ==> !OnCpu(m.k.envs[m'.cpus[c].env.value])
    requires CpuOk(m, c)
    requires m.cpus[c].env.Some? && m'.cpus[c].env != m.cpus[c].env ==> !OnCpu(m'.k.envs[m.cpus[c].env.value])
    ensures Inv(m')
  {
    hide Valid, FreeSlots, IdsOk, PgdirsOk, RecvOk, InboxOk;
    forall d: nat | d < |m.cpus| && d != c
      ensures m.cpus[d].env.Some? ==> m.cpus[c].env != m.cpus[d].env && m'.cpus[c].env != m.cpus[d].env
      ensures CpuOk(m', d)
    {
      OtherCpuOk(m, m', c, d);
    }
    assert |m.k.envs| == |m'.k.envs| == NENV;
    hide CpuOk, LockOk, Holds, KValid;
    assert Placed(m') by {
      forall e: nat | e < |m'.k.envs| && m'.k.envs[e].status in {Running, Dying}
        ensures exists d: nat :: d < |m'.cpus| && m'.cpus[d].env == Some(e)
      {
        if m'.cpus[c].env != Some(e) {
          assert OnCpu(m'.k.envs[e]) && OnCpu(m.k.envs[e]);
          var d: nat :| d < |m.cpus| && m.cpus[d].env == Some(e);
          assert m'.cpus[d].env == Some(e);
        }
      }
    }
  }

  /** A trap moves no environment onto or off a CPU but the caller, which may stop or die. */
  lemma EffectSched(m: Machine, cur: nat, call: Call)
    requires KValid(m.k) && Live(m.k, cur) && |m.inbox| == NENV && m.k.envs[cur].status.Running?
    requires Ready(m.k, cur, call) && Respects(m, cur, call)
    ensures var (k', a) := Effect(m.k, cur, call);
            && KValid(k') && OthersKept(m.k, k', Some(cur))
            && (a.Died? ==> k'.envs[cur].status.Free?)
            && (!a.Died? ==> Live(k', cur) && !k'.envs[cur].status.Dying?)
  {
    hide Valid, FreeSlots, IdsOk, PgdirsOk, Entry, PDX, PTX, Known, EnvFree, NextId;
    hide SysPageAlloc, SysPageMap, SysPageUnmap, SysExofork, SysIpcTrySend, OnePageChanged, Table, MapReady, UserPage;
    hide PermOk;
    var k := m.k;
    match call
    case PageAlloc(envid, va, perm) => SysPageAllocCorrect(k, cur, envid, va, perm);
    case PageMap(src, srcva, dst, dstva, perm) =>
      SysPageMapCorrect(k, cur, src, srcva, dst, dstva, perm);
      SysPageMapKeeps(m, cur, call);
    case PageUnmap(envid, va) => SysPageUnmapKeeps(m, cur, call);
    case Exofork => SysExoforkCorrect(k, cur);
    case SetStatus(envid, status) =>
      SysEnvSetStatusCorrect(k, cur, envid, status);
    case SetUpcall(envid, func) =>
      LookupLive(k, cur, envid, true);
      if Lookup(k, cur, envid, true).Some? {
        StatusKept(k, Effect(k, cur, call).0, Lookup(k, cur, envid, true).value);
      }
    case Destroy(envid) =>
      LookupLive(k, cur, envid, true);
      if Lookup(k, cur, envid, true).Some? {
        DestroySched(k, cur, Lookup(k, cur, envid, true).value);
      }
    case Send(envid, value, srcva, perm) => SysIpcTrySendKeeps(m, cur, call);
    case Recv(dstva) => SysIpcRecvCorrect(k, cur, dstva);
    case Yield =>
    case Fault(handler) =>
      if k.envs[cur].upcall == 0 || handler.None? {
        DestroySched(k, cur, cur);
      } else {
        StatusKept(k, Effect(k, cur, call).0, cur);
      }
    case Other(r) =>
  }

  lemma DestroySched(k: Kern, cur: nat, i: nat)
    requires KValid(k) && Live(k, cur) && Live(k, i) && MayDestroy(k, cur, i) && k.envs[cur].status.Running?
    ensures var k' := EnvDestroy(k, cur, i);
            && KValid(k') && OthersKept(k, k', Some(cur))
            && (if i == cur then k'.envs[cur].status.Free? else k'.envs[cur] == k.envs[cur])
  {
    hide Valid, FreeSlots, IdsOk, PgdirsOk, RecvOk;
    EnvDestroyCorrect(k, cur, i);
    if !(k.envs[i].status.Running? && i != cur) {
      EnvFreeValid(k, i);
    }
  }

  lemma SysPageMapKeeps(m: Machine, cur: nat, call: Call)
    requires KValid(m.k) && Live(m.k, cur) && |m.inbox| == NENV && call.PageMap?
    requires Ready(m.k, cur, call) && Respects(m, cur, call)
    ensures KValid(Effect(m.k, cur, call).0) && Effect(m.k, cur, call).0.envs == m.k.envs
  {
    hide Valid, FreeSlots, IdsOk, PgdirsOk, RecvOk, Entry, PDX, PTX, Known, SysPageMap, OnePageChanged, Lookup, Room;
    var PageMap(src, srcva, dst, dstva, perm) := call;
    SysPageMapCorrect(m.k, cur, src, srcva, dst, dstva, perm);
  }

  lemma SysPageUnmapKeeps(m: Machine, cur: nat, call: Call)
    requires KValid(m.k) && Live(m.k, cur) && |m.inbox| == NENV && call.PageUnmap?
    requires Ready(m.k, cur, call) && Respects(m, cur, call)
    ensures KValid(Effect(m.k, cur, call).0) && Effect(m.k, cur, call).0.envs == m.k.envs
  {
    hide Valid, FreeSlots, IdsOk, PgdirsOk, RecvOk, Entry, PDX, PTX, Known, OnePageChanged, Lookup, Remove, Table;
    var PageUnmap(envid, va) := call;
    SysPageUnmapCorrect(m.k, cur, envid, va);
  }

  lemma SysIpcTrySendKeeps(m: Machine, cur: nat, call: Call)
    requires KValid(m.k) && Live(m.k, cur) && |m.inbox| == NENV && call.Send? && m.k.envs[cur].status.Running?
    requires Ready(m.k, cur, call) && Respects(m, cur, call)
    ensures var (k', a) := Effect(m.k, cur, call);
            && KValid(k') && OthersKept(m.k, k', Some(cur)) && k'.envs[cur] == m.k.envs[cur]
  {
    hide Valid, FreeSlots, IdsOk, PgdirsOk, Entry, PDX, PTX, Known, OnePageChanged, Lookup, Room, SysIpcTrySend;
    var Send(envid, value, srcva, perm) := call;
    LookupLive(m.k, cur, envid, false);
    SysIpcTrySendCorrect(m.k, cur, envid, value, srcva, perm);
    if srcva < UTOP {
      SourceCases(m.k, cur, srcva);
    }
    hide BadPage, Source, NoTableFor, Mapping;
  }

  /** A value sent is recorded as it is stored, and nothing else touches a value not yet read. */
  lemma EffectInbox(m: Machine, cur: nat, call: Call, e: nat)
    requires KValid(m.k) && Live(m.k, cur) && |m.inbox| == NENV && m.k.envs[cur].status.Running?
    requires Ready(m.k, cur, call) && Respects(m, cur, call)
    requires e < NENV && InboxOk(m, e)
    ensures var (k', a) := Effect(m.k, cur, call);
            |k'.envs| == NENV && InboxOk(m.(k := k', inbox := Inboxes(m, cur, call, a)), e)
  {
    hide Valid, FreeSlots, IdsOk, PgdirsOk, RecvOk, Entry, PDX, PTX, Known, Table, MapReady, UserPage, PermOk;
    EffectSched(m, cur, call);
    hide SysPageAlloc, SysPageMap, SysPageUnmap, SysExofork, SysIpcTrySend, OnePageChanged;
    var k := m.k;
    match call
    case PageAlloc(envid, va, perm) => SysPageAllocCorrect(k, cur, envid, va, perm);
    case PageMap(src, srcva, dst, dstva, perm) => SysPageMapKeeps(m, cur, call);
    case PageUnmap(envid, va) => SysPageUnmapKeeps(m, cur, call);
    case Exofork => SysExoforkCorrect(k, cur);
    case SetStatus(envid, status) =>
    case SetUpcall(envid, func) =>
    case Destroy(envid) =>
    case Send(envid, value, srcva, perm) =>
      SysIpcTrySendCorrect(k, cur, envid, value, srcva, perm);
    case Recv(dstva) =>
    case Yield =>
    case Fault(handler) =>
    case Other(r) =>
  }

  lemma SysKeepsInv(m: Machine, c: nat, call: Call)
    requires Inv(m) && Enabled(m, Sys(c, call))
    ensures Inv(Next(m, Sys(c, call)))
  {
    hide Valid, FreeSlots, IdsOk, PgdirsOk, Effect, Inboxes, Ready, Respects;
    assert CpuOk(m, c);
    var cur := m.cpus[c].env.value;
    EffectSched(m, cur, call);
    var (k', a) := Effect(m.k, cur, call);
    var m' := Next(m, Sys(c, call));
    forall e: nat | e < NENV ensures InboxOk(m', e) {
      assert InboxOk(m, e);
      EffectInbox(m, cur, call, e);
    }
    if a.Returned? {
      StatusKept(k', m'.k, cur);
    }
    Reassemble(m, m', c);
  }

  lemma EnvRunKeeps(m: Machine, c: nat, e: nat)
    requires Inv(m) && c < |m.cpus| && m.cpus[c].phase.Leaving? && e < NENV
    requires m.k.envs[e].status.Runnable? || (m.k.envs[e].status.Running? && m.cpus[c].env == Some(e))
    ensures m.cpus[c].env.Some? ==> m.cpus[c].env.value < |m.k.envs|
    ensures Inv(EnvRun(m, c, e))
  {
    hide Valid, FreeSlots, IdsOk, PgdirsOk;
    assert CpuOk(m, c);
    var m' := EnvRun(m, c, e);
    var cur := m.cpus[c].env;
    if cur.Some? && m.k.envs[cur.value].status.Running? {
      var k1 := SetEnv(m.k, cur.value, m.k.envs[cur.value].(status := Runnable));
      StatusKept(m.k, k1, cur.value);
      StatusKept(k1, m'.k, e);
    } else {
      StatusKept(m.k, m'.k, e);
    }
    forall x: nat | x < NENV ensures InboxOk(m', x) {
      assert InboxOk(m, x);
    }
    Reassemble(m, m', c);
  }

  lemma LeaveKeepsInv(m: Machine, c: nat)
    requires Inv(m) && Enabled(m, Leave(c))
    ensures Inv(Next(m, Leave(c)))
  {
    hide KValid, EnvRun, Pick;
    assert |m.k.envs| == NENV by { EnvCount(m); }
    assert CpuOk(m, c);
    var cur := m.cpus[c].env;
    PickFirst(m.k.envs, cur);
    if !m.cpus[c].phase.giveUp && cur.Some? && m.k.envs[cur.value].status.Running? {
      EnvRunKeeps(m, c, cur.value);
    } else {
      match Pick(m.k.envs, cur)
      case Some(e) => EnvRunKeeps(m, c, e);
      case None =>
        if cur.Some? && m.k.envs[cur.value].status.Running? {
          EnvRunKeeps(m, c, cur.value);
        } else {
          var m' := Next(m, Leave(c));
          forall x: nat | x < NENV ensures InboxOk(m', x) {
            assert InboxOk(m, x);
          }
          assert cur.Some? ==> m.k.envs[cur.value].status.NotRunnable?;
          Reassemble(m, m', c);
        }
    }
  }

  lemma EnvCount(m: Machine)
    requires Inv(m)
    ensures |m.k.envs| == NENV
  {
  }

  lemma XchgKeepsInv(m: Machine, c: nat)
    requires Inv(m) && Enabled(m, Xchg(c))
    ensures Inv(Next(m, Xchg(c)))
  {
    hide Valid, FreeSlots, IdsOk, PgdirsOk, EnvFree;
    assert CpuOk(m, c);
    var m' := Next(m, Xchg(c));
    if !m.locked {
      if !m.cpus[c].phase.woken {
        var e := m.cpus[c].env.value;
        if m.k.envs[e].status.Dying? {
          EnvFreeValid(m.k, e);
          FreeFrame(m.k, e);
        } else {
          StatusKept(m.k, m'.k, e);
        }
      }
      forall x: nat | x < NENV ensures InboxOk(m', x) {
        assert InboxOk(m, x);
      }
      Reassemble(m, m', c);
    } else {
      assert m' == m;
    }
  }

  lemma FreeFrame(k: Kern, i: nat)
    requires KValid(k) && Live(k, i) && k.envs[i].pgdir.Some? && k.envs[i].pgdir.value < |k.vm.mem|
    ensures EnvFree(k, i).envs == k.envs[i := k.envs[i].(status := Free, pgdir := None)]
  {
  }

  /** Every step of every CPU keeps the invariant. */
  lemma StepKeepsInv(m: Machine, step: Step)
    requires Inv(m) && Enabled(m, step)
    ensures Inv(Next(m, step))
  {
    if step.Sys? {
      SysKeepsInv(m, step.c, step.call);
    } else if step.Leave? {
      LeaveKeepsInv(m, step.c);
    } else if step.Xchg? {
      XchgKeepsInv(m, step.c);
    } else if step.ReadValue? {
      ReadValueKeepsInv(m, step.c);
    } else if step.Write? {
      WriteKeepsInv(m, step.c, step.va, step.w);
    } else {
      LocalKeepsInv(m, step);
    }
  }

  lemma ReadValueKeepsInv(m: Machine, c: nat)
    requires Inv(m) && Enabled(m, ReadValue(c))
    ensures Inv(Next(m, ReadValue(c)))
  {
    hide KValid;
    EnvCount(m);
    assert CpuOk(m, c);
    var m' := Next(m, ReadValue(c));
    forall x: nat | x < NENV ensures InboxOk(m', x) {
      assert InboxOk(m, x);
    }
    Reassemble(m, m', c);
  }

  /** What a user store leaves alone: everything but the contents of one data page. */
  lemma StoreWordCorrect(k: Kern, e: nat, va: Addr, w: Word)
    requires KValid(k) && Live(k, e) && MayWrite(k, e, va)
    ensures var k' := StoreWord(k, e, va, w);
            && KValid(k') && Mapping(k, e, va).Some? && DataPage(k.vm, Mapping(k, e, va).value.frame)
            && k' == k.(vm := k.vm.(mem := k'.vm.mem)) && |k'.vm.mem| == |k.vm.mem| && SameEntries(k.vm, k'.vm)
            && forall f: nat | f < |k.vm.mem| && f != Mapping(k, e, va).value.frame :: k'.vm.mem[f] == k.vm.mem[f]
  {
    MayWriteData(k, e, va);
    var f := Mapping(k, e, va).value.frame;
    DataWrite(k.vm, f, k.vm.mem[f][PGOFF(va) / 4 := w]);
    hide Valid, FreeSlots, IdsOk, PgdirsOk, DataPage, Mapping, MayWrite;
    SameRootsValid(k, StoreWord(k, e, va, w));
  }

  lemma WriteKeepsInv(m: Machine, c: nat, va: Addr, w: Word)
    requires Inv(m) && Enabled(m, Write(c, va, w))
    ensures Inv(Next(m, Write(c, va, w)))
  {
    EnvCount(m);
    assert CpuOk(m, c);
    hide KValid, MayWrite, StoreWord, DataPage;
    StoreWordCorrect(m.k, m.cpus[c].env.value, va, w);
    var m' := Next(m, Write(c, va, w));
    forall x: nat | x < NENV ensures InboxOk(m', x) {
      assert InboxOk(m, x);
    }
    Reassemble(m, m', c);
  }

  /** The steps that leave the kernel's data alone. */
  lemma LocalKeepsInv(m: Machine, step: Step)
    requires Inv(m) && Enabled(m, step) && (step.Run? || step.Trap? || step.Wake? || step.Unlock? || step.Iret?)
    ensures Inv(Next(m, step))
  {
    hide KValid, InboxOk;
    EnvCount(m);
    assert CpuOk(m, step.c);
    SameKern(m, Next(m, step), step.c);
  }

  lemma SameKern(m: Machine, m': Machine, c: nat)
    requires Inv(m) && c < |m.cpus| == |m'.cpus| && m'.k == m.k && m'.inbox == m.inbox
    requires m'.cpus[c].env == m.cpus[c].env
    requires forall d: nat | d < |m.cpus| && d != c :: m'.cpus[d] == m.cpus[d]
    requires CpuOk(m, c) && CpuOk(m', c) && LockOk(m')
    ensures Inv(m')
  {
    hide KValid;
    EnvCount(m);
    forall x: nat | x < NENV ensures InboxOk(m', x) {
      assert InboxOk(m, x);
    }
    Reassemble(m, m', c);
  }

  // ------------------------------------------------------------------
  // Every run.
  // ------------------------------------------------------------------

  ghost predicate IsRun(ms: seq<Machine>, steps: seq<Step>) {
    && |ms| == |steps| + 1
    && forall i: nat | i < |steps| :: Inv(ms[i]) ==> Enabled(ms[i], steps[i]) && ms[i + 1] == Next(ms[i], steps[i])
  }

  lemma {:induction false} RunKeepsInv(ms: seq<Machine>, steps: seq<Step>, n: nat)
    requires IsRun(ms, steps) && Inv(ms[0]) && n < |ms|
    ensures Inv(ms[n])
  {
    if n > 0 {
      RunKeepsInv(ms, steps, n - 1);
      StepKeepsInv(ms[n - 1], steps[n - 1]);
    }
  }

  /** Boot: CPU 0 holds the lock on its way into sched_yield, and the others wait for it. */
  ghost predicate Init(m: Machine) {
    && KValid(m.k) && |m.inbox| == NENV && 0 < |m.cpus|
    && m.locked && m.owner == Some(0)
    && (forall c: nat | c < |m.cpus| ::
          m.cpus[c].env == None && m.cpus[c].phase == if c == 0 then Leaving(true) else Spin(true))
    && (forall e: nat | e < NENV :: m.inbox[e] == Inbox([], [], false) && !OnCpu(m.k.envs[e]))
  }

  lemma InitInv(m: Machine)
    requires Init(m)
    ensures Inv(m)
  {
    hide KValid;
    assert |m.k.envs| == NENV by { InitCount(m); }
    forall e: nat | e < NENV ensures InboxOk(m, e) {
    }
    forall c: nat | c < |m.cpus| ensures CpuOk(m, c) {
    }
    assert forall e: nat | e < NENV :: !OnCpu(m.k.envs[e]);
  }

  lemma InitCount(m: Machine)
    requires Init(m)
    ensures |m.k.envs| == NENV
  {
  }

  /** In every reachable state at most one CPU is inside the kernel, no environment is on two CPUs,
      a CPU in user mode has an environment that is running or dying, spin_lock never meets its own
      lock, and while no CPU is inside the kernel the running and dying environments are exactly
      those that some CPU has. */
  lemma OneEnvOneCpu(ms: seq<Machine>, steps: seq<Step>, n: nat)
    requires IsRun(ms, steps) && Init(ms[0]) && n < |ms|
    ensures var m := ms[n];
            && Inv(m)
            && (forall c: nat, d: nat | c < |m.cpus| && d < |m.cpus| && Holds(m.cpus[c]) && Holds(m.cpus[d]) :: c == d)
            && (forall c: nat, d: nat |
                  c < |m.cpus| && d < |m.cpus| && m.cpus[c].env.Some? && m.cpus[c].env == m.cpus[d].env ::
                  c == d)
            && (forall c: nat | c < |m.cpus| && (m.cpus[c].phase.User? || m.cpus[c].phase.Return?) ::
                  m.cpus[c].env.Some? && m.cpus[c].env.value < NENV && OnCpu(m.k.envs[m.cpus[c].env.value]))
            && (forall c: nat | c < |m.cpus| && m.cpus[c].phase.Spin? :: m.owner != Some(c))
            && (!m.locked ==> forall e: nat | e < NENV ::
                  OnCpu(m.k.envs[e]) <==> exists c: nat :: c < |m.cpus| && m.cpus[c].env == Some(e))
  {
    hide KValid, CpuOk, InboxOk, Next, Enabled, Holds, OnCpu;
    InitInv(ms[0]);
    RunKeepsInv(ms, steps, n);
    OnCpus(ms[n]);
    UnlockedCpus(ms[n]);
    hide Placed, IsRun, Init;
  }

  lemma OnCpus(m: Machine)
    requires Inv(m)
    ensures |m.k.envs| == NENV
    ensures forall c: nat, d: nat | c < |m.cpus| && d < |m.cpus| && Holds(m.cpus[c]) && Holds(m.cpus[d]) :: c == d
    ensures forall c: nat, d: nat |
              c < |m.cpus| && d < |m.cpus| && m.cpus[c].env.Some? && m.cpus[c].env == m.cpus[d].env :: c == d
    ensures forall c: nat | c < |m.cpus| && (m.cpus[c].phase.User? || m.cpus[c].phase.Return?) ::
              m.cpus[c].env.Some? && m.cpus[c].env.value < NENV && OnCpu(m.k.envs[m.cpus[c].env.value])
    ensures forall c: nat | c < |m.cpus| && m.cpus[c].phase.Spin? :: m.owner != Some(c)
  {
    hide KValid, InboxOk;
    EnvCount(m);
    forall c: nat | c < |m.cpus| && (m.cpus[c].phase.User? || m.cpus[c].phase.Return?)
      ensures m.cpus[c].env.Some? && m.cpus[c].env.value < NENV && OnCpu(m.k.envs[m.cpus[c].env.value])
    {
      assert CpuOk(m, c);
    }
  }

  lemma UnlockedCpus(m: Machine)
    requires Inv(m)
    ensures |m.k.envs| == NENV
    ensures !m.locked ==> forall e: nat | e < NENV ::
              OnCpu(m.k.envs[e]) <==> exists c: nat :: c < |m.cpus| && m.cpus[c].env == Some(e)
  {
    hide KValid, InboxOk;
    EnvCount(m);
    if !m.locked {
      forall c: nat | c < |m.cpus| && m.cpus[c].env.Some?
        ensures m.cpus[c].env.value < NENV && OnCpu(m.k.envs[m.cpus[c].env.value])
      {
        assert CpuOk(m, c) && !Holds(m.cpus[c]);
      }
      forall e: nat | e < NENV
        ensures OnCpu(m.k.envs[e]) <==> exists c: nat :: c < |m.cpus| && m.cpus[c].env == Some(e)
      {
        assert OnCpu(m.k.envs[e]) <==> m.k.envs[e].status in {Running, Dying};
      }
    }
  }

  /** Everything the kernel keeps is as it was, but for the contents of data pages. */
  ghost predicate SameKernelData(k: Kern, k': Kern) {
    && k' == k.(vm := k.vm.(mem := k'.vm.mem)) && |k'.vm.mem| == |k.vm.mem| && SameEntries(k.vm, k'.vm)
    && forall f: nat | f < |k.vm.mem| && !DataPage(k.vm, f) :: k'.vm.mem[f] == k.vm.mem[f]
  }

  /** Only the contents of one page differ, which environment e maps writable at va. */
  ghost predicate OnlyStored(k: Kern, k': Kern, e: nat, va: Addr)
    requires KValid(k)
  {
    && SameKernelData(k, k') && Live(k, e) && va < UTOP
    && var w := Mapping(k, e, va);
    && w.Some? && w.value.flags & PTE_W != 0
    && forall f: nat | f < |k.vm.mem| && f != w.value.frame :: k'.vm.mem[f] == k.vm.mem[f]
  }

  lemma WriteOnlyStores(m: Machine, c: nat, va: Addr, w: Word)
    requires Inv(m) && Enabled(m, Write(c, va, w))
    ensures m.cpus[c].env.Some? && OnlyStored(m.k, Next(m, Write(c, va, w)).k, m.cpus[c].env.value, va)
  {
    assert CpuOk(m, c);
    var e := m.cpus[c].env.value;
    MayWriteData(m.k, e, va);
    var v := Mapping(m.k, e, va).value.flags;
    assert v & 7 == 7 ==> v & PTE_W != 0;
    hide Valid, FreeSlots, IdsOk, PgdirsOk, RecvOk, DataPage, Mapping, StoreWord, SameEntries;
    StoreWordCorrect(m.k, e, va, w);
  }

  lemma HolderChanges(m: Machine, step: Step)
    requires Inv(m) && Enabled(m, step) && Next(m, step).k != m.k && !step.Write?
    ensures Next(m, step).owner == Some(step.c) && (m.owner == Some(step.c) || (step.Xchg? && m.owner == None))
  {
    assert CpuOk(m, step.c);
    if step.Sys? {
      CallerOf(m, step.c, step.call);
      SameOwner(m, step.c, step.call);
      hide KValid, SysStep, Ready, Respects, Placed, InboxOk;
    } else if step.Leave? {
      EnvCount(m);
      LeaveOwner(m, step.c);
      hide KValid, LeaveStep, Placed, InboxOk;
    } else {
      hide KValid, SysStep, LeaveStep, EnvFree, MayWrite, StoreWord, Placed, InboxOk;
    }
  }

  lemma SameOwner(m: Machine, c: nat, call: Call)
    requires c < |m.cpus| && m.cpus[c].env.Some? && KValid(m.k) && Live(m.k, m.cpus[c].env.value)
    requires Ready(m.k, m.cpus[c].env.value, call) && |m.inbox| == |m.k.envs| == NENV
    ensures SysStep(m, c, call).owner == m.owner
  {
    hide KValid, Effect, Ready, Inboxes;
  }

  lemma LeaveOwner(m: Machine, c: nat)
    requires c < |m.cpus| && m.cpus[c].phase.Leaving?
    requires |m.k.envs| == NENV && (m.cpus[c].env.Some? ==> m.cpus[c].env.value < NENV)
    ensures LeaveStep(m, c).owner == m.owner
  {
    hide Pick;
    PickFirst(m.k.envs, m.cpus[c].env);
  }

  /** Only the CPU that holds the lock, or takes it in that step, changes what the kernel keeps.  Any
      other change is a store of a user program, to one page that its environment maps writable. */
  lemma OnlyHolderWrites(m: Machine, step: Step)
    requires Inv(m) && Enabled(m, step) && Next(m, step).k != m.k
    ensures || (&& Next(m, step).owner == Some(step.c)
                && (m.owner == Some(step.c) || (step.Xchg? && m.owner == None)))
            || (&& step.Write? && m.cpus[step.c].env.Some?
                && OnlyStored(m.k, Next(m, step).k, m.cpus[step.c].env.value, step.va))
  {
    hide Inv, Next, Enabled, OnlyStored;
    if step.Write? {
      WriteOnlyStores(m, step.c, step.va, step.w);
    } else {
      HolderChanges(m, step);
    }
  }

  /** What iret loads is what env_tf held when the lock was released, whatever the other CPUs did
      in between. */
  lemma ReturnWindow(ms: seq<Machine>, steps: seq<Step>, i: nat, j: nat, c: nat)
    requires IsRun(ms, steps) && Init(ms[0]) && i < j < |steps|
    requires steps[i] == Unlock(c) && steps[j] == Iret(c)
    requires forall l: nat | i < l < j :: steps[l].c != c
    ensures c < |ms[i].cpus| == |ms[j + 1].cpus| && ms[i].cpus[c].env.Some? && ms[i].cpus[c].env.value < |ms[i].k.envs|
    ensures ms[j + 1].cpus[c].regs == ms[i].k.envs[ms[i].cpus[c].env.value].tf
  {
    hide KValid, MayWrite, StoreWord;
    InitInv(ms[0]);
    RunKeepsInv(ms, steps, i);
    RunKeepsInv(ms, steps, i + 1);
    RunKeepsInv(ms, steps, j);
    EnvCount(ms[i]);
    EnvCount(ms[j]);
    assert CpuOk(ms[i], c) && CpuOk(ms[i + 1], c);
    CpuUntouched(ms, steps, i + 1, j, c);
    assert CpuOk(ms[j], c);
  }

  lemma {:induction false} CpuUntouched(ms: seq<Machine>, steps: seq<Step>, i: nat, j: nat, c: nat)
    requires IsRun(ms, steps) && Inv(ms[0]) && i <= j < |ms| && c < |ms[i].cpus|
    requires forall l: nat | i <= l < j :: steps[l].c != c
    ensures c < |ms[j].cpus| == |ms[i].cpus| && ms[j].cpus[c] == ms[i].cpus[c]
  {
    hide Inv, Next, Enabled;
    if i < j {
      CpuUntouched(ms, steps, i, j - 1, c);
      RunKeepsInv(ms, steps, j - 1);
      OtherCpuUntouched(ms[j - 1], steps[j - 1], c);
    }
  }

  lemma OtherCpuUntouched(m: Machine, step: Step, c: nat)
    requires Inv(m) && Enabled(m, step) && c < |m.cpus| && step.c != c
    ensures c < |Next(m, step).cpus| == |m.cpus| && Next(m, step).cpus[c] == m.cpus[c]
  {
    hide KValid;
  }

  /** The step is a successful sys_ipc_try_send to environment e. */
  ghost predicate SendsTo(m: Machine, step: Step, e: nat) {
    && step.Sys? && step.call.Send? && step.c < |m.cpus| && m.cpus[step.c].env.Some?
    && KValid(m.k) && Live(m.k, m.cpus[step.c].env.value)
    && var (cur, call) := (m.cpus[step.c].env.value, step.call);
    && Lookup(m.k, cur, call.envid, false) == Some(e)
    && SysIpcTrySend(m.k, cur, call.envid, call.value, call.srcva, call.perm).1 == 0
  }

  /** What has been sent to an environment grows by the value of each successful send to it, which is then
      in its env_ipc_value; what it has received by that field, each time its ipc_recv reads it; and both
      start anew with each new environment in the slot. */
  lemma InboxStep(m: Machine, step: Step, e: nat)
    requires Inv(m) && Enabled(m, step) && e < NENV
    ensures var m' := Next(m, step);
            && |m.inbox| == |m'.inbox| == |m.k.envs| == |m'.k.envs| == NENV
            && (Allocates(m, step, e) ==> m'.inbox[e].sent == [] && m'.inbox[e].got == [])
            && (!Allocates(m, step, e) ==>
                  && m'.inbox[e].sent == m.inbox[e].sent + (if SendsTo(m, step, e) then [step.call.value] else [])
                  && m'.inbox[e].got == m.inbox[e].got +
                       (if step.ReadValue? && m.cpus[step.c].env == Some(e) then [m.k.envs[e].value] else []))
            && (SendsTo(m, step, e) ==> m'.k.envs[e].value == step.call.value)
  {
    if step.Sys? {
      SysInboxStep(m, step.c, step.call, e);
    } else {
      StepIds(m, step, 0);
      OtherInbox(m, step);
      hide Inv, Enabled, Next;
    }
  }

  /** Only system calls and the library's read of a value concern the inboxes. */
  lemma OtherInbox(m: Machine, step: Step)
    requires Inv(m) && Enabled(m, step) && !step.Sys?
    ensures |m.inbox| == NENV
    ensures !step.ReadValue? ==> Next(m, step).inbox == m.inbox
    ensures step.ReadValue? ==>
              && step.c < |m.cpus| && m.cpus[step.c].env.Some?
              && var e := m.cpus[step.c].env.value;
              && e < |m.k.envs| == NENV
              && var b := m.inbox[e];
              Next(m, step).inbox == m.inbox[e := b.(got := b.got + [m.k.envs[e].value], reading := false)]
  {
    EnvCount(m);
    assert CpuOk(m, step.c);
    hide KValid, LeaveStep, EnvFree, MayWrite, StoreWord, LockOk, Placed;
    if step.Leave? {
      LeaveInbox(m, step.c);
    }
  }

  lemma LeaveInbox(m: Machine, c: nat)
    requires c < |m.cpus| && m.cpus[c].phase.Leaving?
    requires |m.k.envs| == NENV && (m.cpus[c].env.Some? ==> m.cpus[c].env.value < NENV)
    ensures LeaveStep(m, c).inbox == m.inbox
  {
    hide Pick;
    PickFirst(m.k.envs, m.cpus[c].env);
  }

  lemma SysInboxStep(m: Machine, c: nat, call: Call, e: nat)
    requires Inv(m) && Enabled(m, Sys(c, call)) && e < NENV
    ensures var (m', step) := (Next(m, Sys(c, call)), Sys(c, call));
            && |m.inbox| == |m'.inbox| == |m.k.envs| == |m'.k.envs| == NENV
            && (Allocates(m, step, e) ==> m'.inbox[e].sent == [] && m'.inbox[e].got == [])
            && (!Allocates(m, step, e) ==>
                  && m'.inbox[e].sent == m.inbox[e].sent + (if SendsTo(m, step, e) then [call.value] else [])
                  && m'.inbox[e].got == m.inbox[e].got)
            && (SendsTo(m, step, e) ==> m'.k.envs[e].value == call.value)
  {
    CallerOf(m, c, call);
    var cur := m.cpus[c].env.value;
    SysIds(m, c, call, 0);
    hide Inv, Enabled, Next;
    SysStepInbox(m, c, call);
    CallResult(m.k, cur, call);
    if call.Send? {
      SysIpcTrySendCorrect(m.k, cur, call.envid, call.value, call.srcva, call.perm);
    }
    hide KValid, Effect, Lookup, SysIpcTrySend, SysExofork, BadPage, PageSent, NoTableFor, Ready, SysStep;
  }

  lemma CallResult(k: Kern, cur: nat, call: Call)
    requires KValid(k) && Live(k, cur) && Ready(k, cur, call)
    ensures call.Send? ==>
              var (k', r) := SysIpcTrySend(k, cur, call.envid, call.value, call.srcva, call.perm);
              Effect(k, cur, call) == (k', Returned(r))
    ensures call.Exofork? ==> Effect(k, cur, call) == (SysExofork(k, cur).0, Returned(SysExofork(k, cur).1))
  {
    hide KValid, SysIpcTrySend, SysExofork;
  }

  lemma SysStepInbox(m: Machine, c: nat, call: Call)
    requires c < |m.cpus| && m.cpus[c].env.Some? && KValid(m.k) && Live(m.k, m.cpus[c].env.value)
    requires Ready(m.k, m.cpus[c].env.value, call) && |m.inbox| == |m.k.envs| == NENV
    ensures var (k', a) := Effect(m.k, m.cpus[c].env.value, call);
            && SysStep(m, c, call).inbox == Inboxes(m, m.cpus[c].env.value, call, a)
            && |SysStep(m, c, call).k.envs| == |k'.envs|
            && forall e: nat | e < |k'.envs| :: SysStep(m, c, call).k.envs[e].value == k'.envs[e].value
  {
    hide KValid, Effect, Ready, Inboxes;
  }

  /** The values ipc_recv returns to an environment are, in order and without repetition, those of
      the successful sys_ipc_try_send calls to it; at most the last of these is still to be read. */
  lemma ExactlyOnceInOrder(ms: seq<Machine>, steps: seq<Step>, n: nat, e: nat)
    requires IsRun(ms, steps) && Init(ms[0]) && n < |ms| && e < NENV
    ensures |ms[n].inbox| == NENV
    ensures var b := ms[n].inbox[e];
            b.got <= b.sent && |b.got| <= |b.sent| <= |b.got| + 1 && (b.reading <==> |b.sent| == |b.got| + 1)
  {
    hide KValid;
    InitInv(ms[0]);
    RunKeepsInv(ms, steps, n);
    EnvCount(ms[n]);
    assert InboxOk(ms[n], e);
  }

  // ------------------------------------------------------------------
  // What a CPU runs next.
  // ------------------------------------------------------------------

  /** The end of trap() calls sched_yield: the environment gave up, is gone, or was stopped. */
  predicate Yields(m: Machine, c: nat)
    requires c < |m.cpus|
  {
    || m.cpus[c].phase == Leaving(true) || m.cpus[c].env.None?
    || m.cpus[c].env.value >= |m.k.envs| || !m.k.envs[m.cpus[c].env.value].status.Running?
  }

  /** CPU c is about to run environment e, which is now Running, and the one it had before, if another and
      still Running, is Runnable; nothing else of the kernel's data has changed. */
  ghost predicate Dispatched(m: Machine, m': Machine, c: nat, e: nat)
    requires c < |m.cpus| == |m'.cpus|
  {
    && m'.cpus[c].env == Some(e) && m'.cpus[c].phase == Unlocking(false)
    && |m'.k.envs| == |m.k.envs| == NENV && e < NENV
    && m'.k.vm == m.k.vm && m'.k.free == m.k.free && m'.inbox == m.inbox
    && m'.k.envs[e] == m.k.envs[e].(status := Running)
    && forall x: nat | x < NENV && x != e ::
         m'.k.envs[x] == if m.cpus[c].env == Some(x) && m.k.envs[x].status == Running
                         then m.k.envs[x].(status := Runnable) else m.k.envs[x]
  }

  /** What sched_yield owes: the first RUNNABLE slot in circular order after the CPU's own, or from slot 0
      if it has none; if there is none, its own environment if that is still RUNNING; and if not, it halts
      without an environment, or stays in the monitor if no environment can ever run again. */
  ghost predicate RoundRobin(m: Machine, m': Machine, c: nat)
    requires c < |m.cpus| == |m'.cpus| && |m.k.envs| == NENV && (m.cpus[c].env.Some? ==> m.cpus[c].env.value < NENV)
  {
    var cur := m.cpus[c].env;
    && (forall e: nat | IsFirst(m.k.envs, if cur.Some? then cur.value + 1 else 0, e) :: Dispatched(m, m', c, e))
    && ((forall e: nat | e < NENV :: m.k.envs[e].status != Runnable) ==>
          if cur.Some? && m.k.envs[cur.value].status == Running then Dispatched(m, m', c, cur.value)
          else
            && m'.k == m.k && m'.inbox == m.inbox
            && if exists e: nat :: e < NENV && m.k.envs[e].status in {Running, Dying}
               then m'.cpus[c].env == None && m'.cpus[c].phase == Unlocking(true)
               else m'.cpus[c].env == cur && m'.cpus[c].phase == Stuck)
  }

  /** At the end of a trap a CPU goes on with its environment, or, if that gave up, is gone or was stopped,
      does what sched_yield owes. */
  lemma LeaveChooses(m: Machine, c: nat)
    requires Inv(m) && Enabled(m, Leave(c))
    ensures |m.k.envs| == NENV && (m.cpus[c].env.Some? ==> m.cpus[c].env.value < NENV)
    ensures |Next(m, Leave(c)).cpus| == |m.cpus|
    ensures if Yields(m, c) then RoundRobin(m, Next(m, Leave(c)), c)
            else Dispatched(m, Next(m, Leave(c)), c, m.cpus[c].env.value)
  {
    assert CpuOk(m, c);
    EnvCount(m);
    if m.cpus[c].env.Some? {
      OwnId(m, c);
    }
    hide KValid, LockOk, Placed, InboxOk, LeaveStep, Yields, RoundRobin, Dispatched;
    LeaveStepChooses(m, c);
  }

  lemma LeaveStepChooses(m: Machine, c: nat)
    requires c < |m.cpus| && m.cpus[c].phase.Leaving? && |m.k.envs| == NENV
    requires m.cpus[c].env.Some? ==>
               m.cpus[c].env.value < NENV && EnvX(m.k.envs[m.cpus[c].env.value].id) == m.cpus[c].env.value
    ensures |LeaveStep(m, c).cpus| == |m.cpus|
    ensures if Yields(m, c) then RoundRobin(m, LeaveStep(m, c), c)
            else Dispatched(m, LeaveStep(m, c), c, m.cpus[c].env.value)
  {
    hide Pick, IsFirst, EnvRun, Dispatched;
    PickFirst(m.k.envs, m.cpus[c].env);
    forall e: nat | e < NENV && (m.k.envs[e].status.Running? ==> m.cpus[c].env == Some(e))
      ensures |EnvRun(m, c, e).cpus| == |m.cpus| && Dispatched(m, EnvRun(m, c, e), c, e)
    {
      EnvRunDispatches(m, c, e);
    }
    if Pick(m.k.envs, m.cpus[c].env).Some? {
      FirstIsRunnable(m.k.envs, Start(m.k.envs, m.cpus[c].env), Pick(m.k.envs, m.cpus[c].env).value);
    }
    var cur := m.cpus[c].env;
    var start := if cur.Some? then cur.value + 1 else 0;
    assert start == Start(m.k.envs, cur);
    if Yields(m, c) {
      assert forall e: nat | IsFirst(m.k.envs, start, e) :: Dispatched(m, LeaveStep(m, c), c, e);
      if forall e: nat | e < NENV :: m.k.envs[e].status != Runnable {
        assert Pick(m.k.envs, cur).None?;
        if cur.Some? && m.k.envs[cur.value].status == Running {
          assert Dispatched(m, LeaveStep(m, c), c, cur.value);
        } else {
          assert LeaveStep(m, c).k == m.k;
          assert Hope(m.k) <==> exists e: nat :: e < NENV && m.k.envs[e].status in {Running, Dying};
        }
      }
    }
  }

  lemma FirstIsRunnable(envs: seq<Env>, start: nat, e: nat)
    requires |envs| == NENV && IsFirst(envs, start, e)
    ensures e < NENV && envs[e].status.Runnable?
  {
  }

  lemma EnvRunDispatches(m: Machine, c: nat, e: nat)
    requires c < |m.cpus| && e < NENV == |m.k.envs| && (m.cpus[c].env.Some? ==> m.cpus[c].env.value < NENV)
    ensures |EnvRun(m, c, e).cpus| == |m.cpus| && Dispatched(m, EnvRun(m, c, e), c, e)
  {
  }

  /** A live environment's id names its slot. */
  lemma OwnId(m: Machine, c: nat)
    requires Inv(m) && c < |m.cpus| && m.cpus[c].env.Some? && CpuOk(m, c)
    ensures m.cpus[c].env.value < NENV == |m.k.envs| && EnvX(m.k.envs[m.cpus[c].env.value].id) == m.cpus[c].env.value
  {
    assert IdOk(m.k.envs[m.cpus[c].env.value].id, m.cpus[c].env.value);
  }

  /** Step l of a run is a call of sched_yield on CPU c. */
  ghost predicate Turn(ms: seq<Machine>, steps: seq<Step>, c: nat, l: nat)
    requires l < |steps| < |ms|
  {
    steps[l] == Leave(c) && c < |ms[l].cpus| && Yields(ms[l], c)
  }

  /** The calls of sched_yield on CPU c from step a on and before step b. */
  ghost function TurnsBetween(ms: seq<Machine>, steps: seq<Step>, c: nat, a: nat, b: nat): nat
    requires a <= b <= |steps| < |ms|
    decreases b - a
  {
    if a == b then 0 else (if Turn(ms, steps, c, a) then 1 else 0) + TurnsBetween(ms, steps, c, a + 1, b)
  }

  /** Only sched_yield gives a CPU another environment. */
  lemma EnvStays(m: Machine, step: Step, c: nat)
    requires Inv(m) && Enabled(m, step) && c < |m.cpus| && !(step == Leave(c) && Yields(m, c))
    ensures c < |Next(m, step).cpus|
    ensures Next(m, step).cpus[c].env == m.cpus[c].env || Next(m, step).cpus[c].env == None
  {
    if step.c != c {
      OtherCpuUntouched(m, step, c);
    } else if step.Leave? {
      LeaveChooses(m, c);
    } else if step.Sys? {
      CallerOf(m, c, step.call);
      hide Inv, Enabled, Next;
      SysStepEnv(m, c, step.call);
    } else {
      hide KValid, LeaveStep, SysStep, EnvFree, Ready, Respects, MayWrite, StoreWord, LockOk, Placed, InboxOk;
    }
  }

  lemma SysStepEnv(m: Machine, c: nat, call: Call)
    requires c < |m.cpus| && m.cpus[c].env.Some? && KValid(m.k) && Live(m.k, m.cpus[c].env.value)
    requires Ready(m.k, m.cpus[c].env.value, call) && |m.inbox| == |m.k.envs| == NENV
    ensures c < |SysStep(m, c, call).cpus|
    ensures SysStep(m, c, call).cpus[c].env == m.cpus[c].env || SysStep(m, c, call).cpus[c].env == None
  {
    hide KValid, Effect, Ready, Inboxes;
  }

  /** How far CPU c's search is from slot x. */
  function Ahead(m: Machine, c: nat, x: nat): nat
    requires c < |m.cpus|
  {
    match m.cpus[c].env
    case None => 0
    case Some(e) => Distance(e + 1, x)
  }

  /** An environment that is RUNNABLE at every call of sched_yield on CPU c, made while the CPU has an
      environment, is the one that the CPU runs after one of the first NENV of them. */
  lemma BoundedWaitingInRun(ms: seq<Machine>, steps: seq<Step>, c: nat, x: nat, a: nat, b: nat)
    requires IsRun(ms, steps) && Init(ms[0]) && a <= b <= |steps| && c < |ms[0].cpus| && x < NENV
    requires forall l: nat | a <= l < b && Turn(ms, steps, c, l) ::
               ms[l].cpus[c].env.Some? && x < |ms[l].k.envs| && ms[l].k.envs[x].status == Runnable
    requires TurnsBetween(ms, steps, c, a, b) >= NENV
    ensures exists l: nat :: a <= l < b && Turn(ms, steps, c, l) && RunsNext(ms, l, c, x)
  {
    hide Inv, Init, Next, Enabled, Yields, Distance, TurnsBetween;
    InitInv(ms[0]);
    CpusStay(ms, steps, c, a);
    WaitsAtMost(ms, steps, c, x, a, b);
  }

  /** After step l, CPU c is about to run environment x. */
  predicate RunsNext(ms: seq<Machine>, l: nat, c: nat, x: nat) {
    l + 1 < |ms| && c < |ms[l + 1].cpus| && ms[l + 1].cpus[c].env == Some(x)
  }

  lemma {:induction false} CpusStay(ms: seq<Machine>, steps: seq<Step>, c: nat, n: nat)
    requires IsRun(ms, steps) && Inv(ms[0]) && n < |ms| && c < |ms[0].cpus|
    ensures c < |ms[n].cpus|
  {
    hide Inv, Next, Enabled, Yields;
    if n > 0 {
      CpusStay(ms, steps, c, n - 1);
      RunKeepsInv(ms, steps, n - 1);
      CpuStays(ms[n - 1], steps[n - 1], c);
    }
  }

  lemma CpuStays(m: Machine, step: Step, c: nat)
    requires Inv(m) && Enabled(m, step) && c < |m.cpus|
    ensures c < |Next(m, step).cpus|
  {
    hide KValid, Effect, EnvFree, Ready, Respects, MayWrite, StoreWord, Inboxes, Pick;
  }

  lemma {:induction false} WaitsAtMost(ms: seq<Machine>, steps: seq<Step>, c: nat, x: nat, a: nat, b: nat)
    requires IsRun(ms, steps) && Inv(ms[0]) && a <= b <= |steps| < |ms| && c < |ms[a].cpus| && x < NENV
    requires forall l: nat | a <= l < b && Turn(ms, steps, c, l) ::
               c < |ms[l].cpus| && ms[l].cpus[c].env.Some? && x < |ms[l].k.envs| && ms[l].k.envs[x].status == Runnable
    requires TurnsBetween(ms, steps, c, a, b) > Ahead(ms[a], c, x)
    ensures exists l: nat :: a <= l < b && Turn(ms, steps, c, l) && RunsNext(ms, l, c, x)
    decreases b - a
  {
    hide Inv, Next, Enabled, Yields, Distance;
    RunKeepsInv(ms, steps, a);
    if Turn(ms, steps, c, a) {
      var y := TurnTaken(ms[a], c, x);
      assert RunsNext(ms, a, c, y);
      if y != x {
        WaitsAtMost(ms, steps, c, x, a + 1, b);
      }
    } else {
      EnvStays(ms[a], steps[a], c);
      WaitsAtMost(ms, steps, c, x, a + 1, b);
    }
  }

  /** At its turn the CPU runs environment x, or one that is nearer to it. */
  lemma TurnTaken(m: Machine, c: nat, x: nat) returns (y: nat)
    requires Inv(m) && Enabled(m, Leave(c)) && c < |m.cpus| && Yields(m, c) && m.cpus[c].env.Some?
    requires x < |m.k.envs| && m.k.envs[x].status == Runnable
    ensures c < |Next(m, Leave(c)).cpus| && Next(m, Leave(c)).cpus[c].env == Some(y)
    ensures y == x || Ahead(Next(m, Leave(c)), c, x) < Ahead(m, c, x)
  {
    hide Inv, Enabled, Next, Yields, Pick, IsFirst, Distance;
    LeaveChooses(m, c);
    var cur := m.cpus[c].env.value;
    y := FirstFrom(m.k.envs, cur + 1, x);
    assert Dispatched(m, Next(m, Leave(c)), c, y);
    if y != x {
      NearerNext(cur, x, y);
    }
  }

  /** If some slot is RUNNABLE, there is a first one. */
  lemma FirstFrom(envs: seq<Env>, start: nat, x: nat) returns (y: nat)
    requires |envs| == NENV && x < NENV && envs[x].status == Runnable
    ensures IsFirst(envs, start, y) && y < NENV && Distance(start, y) <= Distance(start, x)
  {
    SearchFirst(envs, start, 0);
    y := Search(envs, start, 0).value;
  }

  // ------------------------------------------------------------------
  // Environment ids over a run.
  // ------------------------------------------------------------------

  /** The step is a sys_exofork that succeeds and fills slot `slot`. */
  ghost predicate Allocates(m: Machine, step: Step, slot: nat) {
    && step.Sys? && step.call.Exofork? && step.c < |m.cpus| && m.cpus[step.c].env.Some?
    && KValid(m.k) && Live(m.k, m.cpus[step.c].env.value)
    && var r := SysExofork(m.k, m.cpus[step.c].env.value).1;
    r > 0 && EnvX(r) == slot
  }

  lemma EffectIds(k: Kern, cur: nat, call: Call, slot: nat)
    requires KValid(k) && Live(k, cur) && Ready(k, cur, call) && !call.Exofork? && slot < NENV
    ensures var k' := Effect(k, cur, call).0; |k'.envs| == NENV && k'.envs[slot].id == k.envs[slot].id
  {
    hide Valid, FreeSlots, IdsOk, PgdirsOk, RecvOk, Insert, AllocZero, Source, Remove;
    hide Table, Entry, PDX, PTX, PGOFF, PermOk, At, MapReady, BadPage;
    if call.Send? {
      hide Lookup, SendTo;
      var Send(envid, value, srcva, perm) := call;
      LookupLive(k, cur, envid, false);
      SysIpcTrySendCorrect(k, cur, envid, value, srcva, perm);
    } else if call.Destroy? || call.Fault? {
      hide EnvDestroy;
      var i := if call.Destroy? then Lookup(k, cur, call.envid, true) else Some(cur);
      if i.Some? {
        DestroyIds(k, cur, i.value, slot);
      }
    }
  }

  lemma DestroyIds(k: Kern, cur: nat, i: nat, slot: nat)
    requires KValid(k) && Live(k, cur) && Live(k, i) && slot < NENV
    ensures |EnvDestroy(k, cur, i).envs| == NENV && EnvDestroy(k, cur, i).envs[slot].id == k.envs[slot].id
  {
    hide Valid, FreeSlots, IdsOk, PgdirsOk, RecvOk;
  }

  lemma SysIds(m: Machine, c: nat, call: Call, slot: nat)
    requires Inv(m) && Enabled(m, Sys(c, call)) && slot < NENV
    ensures |m.k.envs| == |Next(m, Sys(c, call)).k.envs| == NENV
    ensures Next(m, Sys(c, call)).k.envs[slot].id ==
            if Allocates(m, Sys(c, call), slot) then NextId(m.k.envs[slot].id, slot) else m.k.envs[slot].id
  {
    hide Inv, Enabled, Next, SysStep, Effect, SysExofork, Ready, NextId, Mapping;
    hide Valid, FreeSlots, IdsOk, PgdirsOk, RecvOk;
    CallerOf(m, c, call);
    var cur := m.cpus[c].env.value;
    SysStepIds(m, c, call, slot);
    if call.Exofork? {
      SysExoforkCorrect(m.k, cur);
      ExoforkEffect(m.k, cur);
    } else {
      EffectIds(m.k, cur, call, slot);
    }
  }

  lemma CallerOf(m: Machine, c: nat, call: Call)
    requires Inv(m) && Enabled(m, Sys(c, call))
    ensures c < |m.cpus| && m.cpus[c].env.Some? && KValid(m.k) && Live(m.k, m.cpus[c].env.value)
    ensures |m.k.envs| == |m.inbox| == NENV && Ready(m.k, m.cpus[c].env.value, call)
    ensures Next(m, Sys(c, call)) == SysStep(m, c, call)
  {
    assert CpuOk(m, c);
    hide KValid, Ready, SysStep;
  }

  lemma SysStepIds(m: Machine, c: nat, call: Call, slot: nat)
    requires c < |m.cpus| && m.cpus[c].env.Some? && KValid(m.k) && Live(m.k, m.cpus[c].env.value)
    requires Ready(m.k, m.cpus[c].env.value, call) && |m.inbox| == |m.k.envs| == NENV && slot < NENV
    ensures var k' := Effect(m.k, m.cpus[c].env.value, call).0;
            |k'.envs| == NENV ==>
              |SysStep(m, c, call).k.envs| == NENV && SysStep(m, c, call).k.envs[slot].id == k'.envs[slot].id
  {
    hide KValid, Effect, Ready, Inboxes;
  }

  /** The id of a slot changes when sys_exofork fills it, to the next one, and never otherwise. */
  lemma StepIds(m: Machine, step: Step, slot: nat)
    requires Inv(m) && Enabled(m, step) && slot < NENV
    ensures |m.k.envs| == |Next(m, step).k.envs| == NENV
    ensures Next(m, step).k.envs[slot].id ==
            if Allocates(m, step, slot) then NextId(m.k.envs[slot].id, slot) else m.k.envs[slot].id
  {
    if step.Sys? {
      SysIds(m, step.c, step.call, slot);
    } else if step.Leave? {
      LeaveIds(m, step.c, slot);
    } else {
      assert CpuOk(m, step.c);
      EnvCount(m);
      hide KValid, SysStep, LeaveStep, Respects, Ready, MayWrite, NextId;
    }
  }

  lemma LeaveIds(m: Machine, c: nat, slot: nat)
    requires Inv(m) && Enabled(m, Leave(c)) && slot < NENV
    ensures |m.k.envs| == |Next(m, Leave(c)).k.envs| == NENV
    ensures Next(m, Leave(c)).k.envs[slot].id == m.k.envs[slot].id
  {
    assert CpuOk(m, c);
    EnvCount(m);
    hide KValid, LeaveStep, LockOk, Placed, InboxOk, SysStep, Ready, Respects;
    LeaveStepIds(m, c, slot);
  }

  lemma LeaveStepIds(m: Machine, c: nat, slot: nat)
    requires c < |m.cpus| && m.cpus[c].phase.Leaving? && slot < NENV
    requires |m.k.envs| == NENV && (m.cpus[c].env.Some? ==> m.cpus[c].env.value < NENV)
    ensures |LeaveStep(m, c).k.envs| == NENV && LeaveStep(m, c).k.envs[slot].id == m.k.envs[slot].id
  {
    PickFirst(m.k.envs, m.cpus[c].env);
    hide Pick, EnvRun;
    forall e: nat | e < NENV
      ensures |EnvRun(m, c, e).k.envs| == NENV && EnvRun(m, c, e).k.envs[slot].id == m.k.envs[slot].id
    {
      EnvRunIds(m, c, e, slot);
    }
  }

  lemma EnvRunIds(m: Machine, c: nat, e: nat, slot: nat)
    requires c < |m.cpus| && e < |m.k.envs| == NENV && (m.cpus[c].env.Some? ==> m.cpus[c].env.value < NENV)
    requires slot < NENV
    ensures |EnvRun(m, c, e).k.envs| == NENV && EnvRun(m, c, e).k.envs[slot].id == m.k.envs[slot].id
  {
  }

  lemma ExoforkEffect(k: Kern, cur: nat)
    requires KValid(k) && Live(k, cur)
    ensures Effect(k, cur, Exofork) == (SysExofork(k, cur).0, Returned(SysExofork(k, cur).1))
  {
  }

  /** How often the first n steps filled slot `slot`. */
  ghost function Allocs(ms: seq<Machine>, steps: seq<Step>, slot: nat, n: nat): nat
    requires n < |ms| == |steps| + 1
  {
    if n == 0 then 0
    else Allocs(ms, steps, slot, n - 1) + if Allocates(ms[n - 1], steps[n - 1], slot) then 1 else 0
  }

  /** In every run, a slot's id says how often the slot has been filled. */
  lemma {:induction false} IdsInRun(ms: seq<Machine>, steps: seq<Step>, slot: nat, base: nat, n: nat)
    requires IsRun(ms, steps) && Inv(ms[0]) && n < |ms| && slot < NENV
    requires |ms[0].k.envs| == NENV && ms[0].k.envs[slot].id == IdAfter(base, slot)
    ensures |ms[n].k.envs| == NENV && ms[n].k.envs[slot].id == IdAfter(base + Allocs(ms, steps, slot, n), slot)
  {
    hide Inv, Next, Enabled, Allocates, NextId;
    if n > 0 {
      IdsInRun(ms, steps, slot, base, n - 1);
      RunKeepsInv(ms, steps, n - 1);
      StepIds(ms[n - 1], steps[n - 1], slot);
    }
  }

  lemma {:induction false} AllocsGrow(ms: seq<Machine>, steps: seq<Step>, slot: nat, i: nat, j: nat)
    requires i <= j < |ms| == |steps| + 1
    ensures Allocs(ms, steps, slot, i) <= Allocs(ms, steps, slot, j)
  {
    hide Allocates;
    if i < j {
      AllocsGrow(ms, steps, slot, i, j - 1);
      assert Allocs(ms, steps, slot, j - 1) <= Allocs(ms, steps, slot, j);
    }
  }

  /** envid2env over runs: an id that a slot had at state i finds at a later state j that slot, if it
      is live and was filled a multiple of 2^19 - 1 times in between, and otherwise nothing: an old id
      is rejected until then. */
  lemma StaleIdInRun(ms: seq<Machine>, steps: seq<Step>, slot: nat, base: nat, i: nat, j: nat, cur: nat,
                     checkperm: bool)
    requires |ms| == |steps| + 1 && IsRun(ms, steps) && Inv(ms[0]) && i <= j < |ms| && slot < NENV
    requires |ms[0].k.envs| == NENV && ms[0].k.envs[slot].id == IdAfter(base, slot)
    requires base + Allocs(ms, steps, slot, i) > 0 && Live(ms[j].k, cur)
    ensures |ms[i].k.envs| == |ms[j].k.envs| == NENV
    ensures Allocs(ms, steps, slot, i) <= Allocs(ms, steps, slot, j)
    ensures var k, id := ms[j].k, ms[i].k.envs[slot].id;
            Lookup(k, cur, id, checkperm) ==
              if && Live(k, slot) && (Allocs(ms, steps, slot, j) - Allocs(ms, steps, slot, i)) % GENERATIONS == 0
                 && (checkperm ==> slot == cur || k.envs[slot].parent == k.envs[cur].id)
              then Some(slot) else None
  {
    hide *;
    RunKeepsInv(ms, steps, j);
    IdsInRun(ms, steps, slot, base, i);
    IdsInRun(ms, steps, slot, base, j);
    AllocsGrow(ms, steps, slot, i, j);
    var a, b := base + Allocs(ms, steps, slot, i), base + Allocs(ms, steps, slot, j);
    OldIdFinds(ms[j].k, cur, slot, a, b, checkperm);
  }

  // ------------------------------------------------------------------
  // What the unchecked calls need.
  // ------------------------------------------------------------------

  /** A CPU that is not in the kernel holds every environment that is on a CPU but not the caller. */
  lemma HeldElsewhere(m: Machine, c: nat, i: nat) returns (d: nat)
    requires Inv(m) && c < |m.cpus| && m.cpus[c].phase.InKernel? && i < NENV
    requires m.cpus[c].env != Some(i) && OnCpu(m.k.envs[i])
    ensures d < |m.cpus| && d != c && m.cpus[d].env == Some(i) && !Holds(m.cpus[d])
  {
    hide KValid;
    EnvCount(m);
    assert m.k.envs[i].status in {Running, Dying};
    d :| d < |m.cpus| && m.cpus[d].env == Some(i);
  }

  /** sys_env_set_status keeps the invariant exactly when its target is the caller or on no CPU, and
      is not a receiver about to be made runnable. */
  lemma SetStatusKeepsInvIff(m: Machine, c: nat, envid: int, status: int)
    requires Inv(m) && c < |m.cpus| && CpuOk(m, c) && m.cpus[c].phase.InKernel? && (status == 2 || status == 4)
    requires Lookup(m.k, m.cpus[c].env.value, envid, true).Some?
    ensures var cur := m.cpus[c].env.value;
            Inv(SysStep(m, c, SetStatus(envid, status))) <==>
            MaySetStatus(m.k, cur, Lookup(m.k, cur, envid, true).value, status)
  {
    hide Valid, FreeSlots, IdsOk, PgdirsOk;
    var cur := m.cpus[c].env.value;
    var i := Lookup(m.k, cur, envid, true).value;
    var call := SetStatus(envid, status);
    LookupLive(m.k, cur, envid, true);
    var m' := SysStep(m, c, call);
    if MaySetStatus(m.k, cur, i, status) {
      assert Enabled(m, Sys(c, call));
      SysKeepsInv(m, c, call);
    } else if m.k.envs[i].recving && status == 2 {
      assert m'.k.envs[i].recving && m'.k.envs[i].status.Runnable?;
    } else {
      assert i != cur && OnCpu(m.k.envs[i]);
      var d := HeldElsewhere(m, c, i);
      assert !CpuOk(m', d) by {
        assert CpuOk(m, d);
        assert m'.cpus[d] == m.cpus[d] && !OnCpu(m'.k.envs[i]);
      }
    }
  }

  /** sys_env_destroy keeps the invariant exactly when its target is not already dying. */
  lemma DestroyKeepsInvIff(m: Machine, c: nat, envid: int)
    requires Inv(m) && c < |m.cpus| && CpuOk(m, c) && m.cpus[c].phase.InKernel?
    requires Lookup(m.k, m.cpus[c].env.value, envid, true).Some?
    ensures var cur := m.cpus[c].env.value;
            Inv(SysStep(m, c, Destroy(envid))) <==> MayDestroy(m.k, cur, Lookup(m.k, cur, envid, true).value)
  {
    hide Valid, FreeSlots, IdsOk, PgdirsOk, EnvFree;
    var cur := m.cpus[c].env.value;
    var i := Lookup(m.k, cur, envid, true).value;
    var call := Destroy(envid);
    LookupLive(m.k, cur, envid, true);
    var m' := SysStep(m, c, call);
    if MayDestroy(m.k, cur, i) {
      assert Enabled(m, Sys(c, call));
      SysKeepsInv(m, c, call);
    } else {
      var d := HeldElsewhere(m, c, i);
      EnvFreeValid(m.k, i);
      FreeFrame(m.k, i);
      assert m'.cpus[d] == m.cpus[d] && m'.k.envs[i].status.Free?;
      assert !CpuOk(m', d);
    }
  }

  lemma SysStepBreaks(m: Machine, c: nat, call: Call)
    requires Inv(m) && c < |m.cpus| && CpuOk(m, c) && m.cpus[c].phase.InKernel?
    requires Ready(m.k, m.cpus[c].env.value, call)
    requires var (k', a) := Effect(m.k, m.cpus[c].env.value, call);
             !KValid(k') && a.Returned? && Live(k', m.cpus[c].env.value)
    ensures !Inv(SysStep(m, c, call))
  {
    hide Valid, FreeSlots, IdsOk, PgdirsOk, Effect, Ready, Inboxes;
    var m', k' := SysStep(m, c, call), Effect(m.k, m.cpus[c].env.value, call).0;
    if KValid(m'.k) {
      StatusKept(m'.k, k', m.cpus[c].env.value);
      assert false;
    }
  }

  lemma PageMapBreaks(m: Machine, cur: nat, call: Call)
    requires KValid(m.k) && Live(m.k, cur) && |m.inbox| == NENV && call.PageMap?
    requires Ready(m.k, cur, call) && !Respects(m, cur, call)
    ensures var (k', a) := Effect(m.k, cur, call); !KValid(k') && a.Returned? && Live(k', cur)
  {
    hide Valid, FreeSlots, IdsOk, PgdirsOk, RecvOk, Entry, PDX, PTX, Known, SysPageMap, OnePageChanged, Lookup, Room;
    hide PermOk, NoTableFor, Mapping, Source, UserPage;
    var PageMap(src, srcva, dst, dstva, perm) := call;
    SysPageMapCorrect(m.k, cur, src, srcva, dst, dstva, perm);
  }

  lemma PageUnmapBreaks(m: Machine, cur: nat, call: Call)
    requires KValid(m.k) && Live(m.k, cur) && |m.inbox| == NENV && call.PageUnmap?
    requires Ready(m.k, cur, call) && !Respects(m, cur, call)
    ensures var (k', a) := Effect(m.k, cur, call); !KValid(k') && a.Returned? && Live(k', cur)
  {
    hide Valid, FreeSlots, IdsOk, PgdirsOk, RecvOk, Entry, PDX, PTX, Known, OnePageChanged, Lookup, Remove, Table;
    var PageUnmap(envid, va) := call;
    SysPageUnmapCorrect(m.k, cur, envid, va);
  }

  lemma SendBreaks(m: Machine, cur: nat, call: Call)
    requires KValid(m.k) && Live(m.k, cur) && |m.inbox| == NENV && call.Send? && m.k.envs[cur].status.Running?
    requires Ready(m.k, cur, call) && !Respects(m, cur, call)
    ensures var (k', a) := Effect(m.k, cur, call); !KValid(k') && a.Returned? && Live(k', cur)
  {
    hide Valid, FreeSlots, IdsOk, PgdirsOk, Entry, PDX, PTX, Known, OnePageChanged, Lookup, Room, SysIpcTrySend;
    var Send(envid, value, srcva, perm) := call;
    LookupLive(m.k, cur, envid, false);
    SysIpcTrySendCorrect(m.k, cur, envid, value, srcva, perm);
    if srcva < UTOP {
      SourceCases(m.k, cur, srcva);
    }
    hide BadPage, Source, NoTableFor, Mapping;
  }

  lemma RecvBreaks(m: Machine, c: nat, dstva: Addr)
    requires Inv(m) && c < |m.cpus| && CpuOk(m, c) && m.cpus[c].phase.InKernel?
    requires !Respects(m, m.cpus[c].env.value, Recv(dstva))
    ensures !Inv(SysStep(m, c, Recv(dstva)))
  {
    hide KValid;
    EnvCount(m);
    assert !InboxOk(SysStep(m, c, Recv(dstva)), m.cpus[c].env.value);
  }

  /** A trap keeps the invariant exactly when its caller respects what the code does not check. */
  lemma SysKeepsInvIff(m: Machine, c: nat, call: Call)
    requires Inv(m) && c < |m.cpus| && CpuOk(m, c) && m.cpus[c].phase.InKernel?
    requires Ready(m.k, m.cpus[c].env.value, call)
    ensures Inv(SysStep(m, c, call)) <==> Respects(m, m.cpus[c].env.value, call)
  {
    hide KValid, Effect, Ready, Inv, SysStep, Respects;
    var cur := m.cpus[c].env.value;
    assert Inv(m) ==> KValid(m.k) && Live(m.k, cur) && |m.inbox| == NENV && m.k.envs[cur].status.Running? by {
      RunningCaller(m, c);
    }
    if Respects(m, cur, call) {
      SysKeepsInv(m, c, call);
      assert Next(m, Sys(c, call)) == SysStep(m, c, call);
    } else {
      match call
      case PageMap(src, srcva, dst, dstva, perm) => PageMapBreaks(m, cur, call); SysStepBreaks(m, c, call);
      case PageUnmap(envid, va) => PageUnmapBreaks(m, cur, call); SysStepBreaks(m, c, call);
      case SetStatus(envid, status) => UnguardedStatus(m, cur, call); SetStatusKeepsInvIff(m, c, envid, status);
      case Destroy(envid) => UnguardedStatus(m, cur, call); DestroyKeepsInvIff(m, c, envid);
      case Send(envid, value, srcva, perm) => SendBreaks(m, cur, call); SysStepBreaks(m, c, call);
      case Recv(dstva) => RecvBreaks(m, c, dstva);
      case _ => UnguardedStatus(m, cur, call);
    }
  }

  lemma RunningCaller(m: Machine, c: nat)
    requires Inv(m) && c < |m.cpus| && CpuOk(m, c) && m.cpus[c].phase.InKernel?
    ensures KValid(m.k) && Live(m.k, m.cpus[c].env.value) && |m.inbox| == NENV
    ensures m.k.envs[m.cpus[c].env.value].status.Running?
  {
  }

  lemma UnguardedStatus(m: Machine, cur: nat, call: Call)
    requires KValid(m.k) && Live(m.k, cur) && |m.inbox| == NENV && Ready(m.k, cur, call) && !Respects(m, cur, call)
    ensures call.PageMap? || call.PageUnmap? || call.SetStatus? || call.Destroy? || call.Send? || call.Recv?
    ensures call.SetStatus? ==>
              && StatusOf(call.status).Some? && Lookup(m.k, cur, call.envid, true).Some?
              && !MaySetStatus(m.k, cur, Lookup(m.k, cur, call.envid, true).value, call.status)
    ensures call.Destroy? ==>
              && Lookup(m.k, cur, call.envid, true).Some?
              && !MayDestroy(m.k, cur, Lookup(m.k, cur, call.envid, true).value)
  {
    assert |m.k.envs| == NENV;
    hide KValid, Lookup, MayMap, MayUnmap, SendsPage;
  }
}
