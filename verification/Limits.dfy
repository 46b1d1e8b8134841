/** Where the kernel breaks its own invariant: for each unchecked call, a state or a run that the kernel
    reaches and in which that call goes wrong. */
module Limits {
  import opened Mmu
  import opened Pmap
  import opened EnvVm
  import opened KernMap
  import opened Envs
  import opened Syscalls
  import opened Sched
  import opened M = Machine

  // ------------------------------------------------------------------
  // After boot, with n frames of memory.
  // ------------------------------------------------------------------

  function BootPage(f: nat): Page {
    if f == 1 then ZeroPage()[UVPTX := Word(1, PTE_U | PTE_P)] else ZeroPage()
  }

  /** Frame 0 and kern_pgdir, in frame 1, are the boot code's, and every other frame is free. */
  function BootMemory(n: nat): State
    requires n >= 2
  {
    State(seq(n, i requires 0 <= i < n => BootPage(i)), seq(n, i => if i < 2 then 1 else 0),
          seq(n - 2, i => i + 2), {}, 1, {0, 1})
  }

  lemma BootMemoryValid(n: nat)
    requires 2 <= n <= 0x10_0000
    ensures Valid(BootMemory(n)) && |BootMemory(n).free| == n - 2
  {
    hide Valid;
    BootState(BootMemory(n));
  }

  /** A first address space, which maps nothing and has no page tables. */
  lemma FirstSpace(n: nat) returns (s: State, r: nat)
    requires 3 <= n <= 0x10_0000
    ensures Valid(s) && r in s.roots && |s.free| == n - 3
    ensures forall d: nat | d < UTOPX :: Table(s, r, d).None?
  {
    BootMemoryValid(n);
    InMemory(BootMemory(n));
    hide *;
    SetupTakesOne(BootMemory(n));
    NoTables(BootMemory(n));
    s, r := Setup(BootMemory(n)).0, Setup(BootMemory(n)).1.value;
  }

  lemma NoTables(s0: State)
    requires Valid(s0) && s0.free != []
    ensures Setup(s0).1.Some?
    ensures var (s, r) := Setup(s0);
            Valid(s) && r.value in s.roots && forall d: nat | d < UTOPX :: Table(s, r.value, d).None?
  {
    InMemory(s0);
    hide Refers, Valid, Setup, SameEntries, Entry;
    SetupCorrect(s0);
    var s, r := Setup(s0).0, Setup(s0).1.value;
    forall d: nat | d < UTOPX ensures Table(s, r, d).None? {
      EntryRefers(s, r, d, 0);
      NotSlot(s0, PdeSlot(r, d));
    }
  }

  lemma SetupTakesOne(s: State)
    requires s.free != [] && s.free[0] < |s.mem| == |s.ref| <= 0x10_0000 && s.kern < |s.mem|
    ensures |Setup(s).0.free| == |s.free| - 1
  {
  }

  lemma InMemory(s: State)
    requires Valid(s)
    ensures |s.mem| == |s.ref| <= 0x10_0000 && (forall r <- s.roots :: r < |s.mem|)
    ensures (s.free != [] ==> s.free[0] < |s.mem|)
    ensures s.kern < |s.mem|
  {
  }

  lemma NotSlot(s: State, x: Slot)
    requires x.r !in s.roots
    ensures Refers(s, x) == None
  {
  }

  // ------------------------------------------------------------------
  // page_remove of a page that is not mapped.
  // ------------------------------------------------------------------

  /** Once a page table is there, page_remove of a page it does not map puts frame 0 on the free list. */
  lemma RemoveBreaks(s: State, r: nat, d: nat, t: nat)
    requires Valid(s) && r in s.roots && d < UTOPX && t < 1024 && Table(s, r, d).None? && s.free != []
    ensures var s1 := AddTable(s, r, d);
            Valid(s1) && 0 in Remove(s1, r, d, t).free && !Valid(Remove(s1, r, d, t))
  {
    hide Refers, Remove, AddTable;
    AddTableValid(s, r, d);
    var s1 := AddTable(s, r, d);
    assert Entry(s, r, d, t).None? && Entry(s1, r, d, t) == Entry(s, r, d, t);
    RemoveValidIff(s1, r, d, t);
  }

  /** Such a state, four frames of memory being enough. */
  lemma RemoveBreaksSomewhere() returns (s: State, r: nat)
    ensures Valid(s) && r in s.roots && 0 in Remove(s, r, 0, 0).free && !Valid(Remove(s, r, 0, 0))
  {
    var s0: State;
    s0, r := FirstSpace(4);
    InMemory(s0);
    hide Valid, Table, AddTable, Remove;
    RemoveBreaks(s0, r, 0, 0);
    s := AddTable(s0, r, 0);
    AddTableValid(s0, r, 0);
  }

  // ------------------------------------------------------------------
  // 2^16 mappings of one frame.
  // ------------------------------------------------------------------

  /** Address space r maps frame pp at its first n pages and nothing else. */
  ghost predicate Filled(s: State, r: nat, pp: Frame, n: nat) {
    && Valid(s) && r in s.roots && DataPage(s, pp) && s.ref[pp] == n
    && forall d: nat, t: nat | d < UTOPX && t < 1024 :: Entry(s, r, d, t).Some? <==> d * 1024 + t < n
  }

  lemma InsertCounts(s: State, r: nat, d: nat, t: nat, pp: Frame, perm: Flags)
    requires Valid(s) && r in s.roots && d < UTOPX && t < 1024 && DataPage(s, pp)
    requires Table(s, r, d).Some? && Entry(s, r, d, t).None? && s.ref[pp] < 0xFFFF
    ensures var s' := Insert(s, r, d, t, pp, perm).0;
            && Valid(s') && DataPage(s', pp) && s'.ref[pp] == s.ref[pp] + 1 && s'.free == s.free
            && OneEntryChanged(s, s', r, d, t, Some(Word(pp, perm | PTE_P)))
  {
    hide Insert, Slots, Clean, Exclusive, KernelHalf;
    InsertFrame(s, r, d, t, pp, perm);
    InsertEmpty(s, r, d, t, pp, perm);
    EntryRefers(s, r, d, t);
    hide Refers, Entry;
    Retarget(s, Insert(s, r, d, t, pp, perm).0, PteSlot(r, d, t), pp);
  }

  lemma FillOne(s: State, r: nat, pp: Frame, n: nat, perm: Flags)
    requires Filled(s, r, pp, n) && n < 0xFFFF && (n % 1024 == 0 ==> s.free != [])
    ensures var (s', ok) := Insert(s, r, n / 1024, n % 1024, pp, perm);
            ok && Filled(s', r, pp, n + 1) && |s'.free| >= |s.free| - if n % 1024 == 0 then 1 else 0
  {
    InMemory(s);
    hide Valid, Insert, AddTable, Refers;
    var d, t := n / 1024, n % 1024;
    assert d * 1024 + t == n && Entry(s, r, d, t).None?;
    if t > 0 {
      assert Entry(s, r, d, t - 1).Some?;
    }
    var s1 := if Table(s, r, d).Some? then s else AddTable(s, r, d);
    if Table(s, r, d).None? {
      AddTableValid(s, r, d);
      AddTableKeepsData(s, r, d, pp);
      InsertAfterWalk(s, r, d, t, pp, perm);
    }
    InMemory(s1);
    hide Entry, DataPage;
    assert forall d': nat, t': nat | d' < UTOPX && t' < 1024 :: Entry(s1, r, d', t') == Entry(s, r, d', t');
    InsertFails(s1, r, d, t, pp, perm);
    InsertCounts(s1, r, d, t, pp, perm);
    var s' := Insert(s, r, d, t, pp, perm).0;
    forall d': nat, t': nat | d' < UTOPX && t' < 1024 ensures Entry(s', r, d', t').Some? <==> d' * 1024 + t' < n + 1 {
      assert d' * 1024 + t' == n ==> d' == d && t' == t;
    }
  }

  lemma AddTableKeepsData(s: State, r: nat, d: nat, pp: Frame)
    requires Valid(s) && r in s.roots && d < UTOPX && Table(s, r, d).None? && s.free != [] && DataPage(s, pp)
    ensures DataPage(AddTable(s, r, d), pp) && AddTable(s, r, d).ref[pp] == s.ref[pp]
  {
    hide AddTable;
    AddTableKeeps(s, r, d, pp);
    AddTableValid(s, r, d);
    assert s.free[0] in s.free;
  }

  lemma FilledInMemory(s: State, r: nat, pp: Frame, n: nat)
    requires Filled(s, r, pp, n)
    ensures |s.mem| == |s.ref| <= 0x10_0000 && r < |s.mem| && pp < |s.ref| && (s.free != [] ==> s.free[0] < |s.mem|)
  {
    InMemory(s);
    hide Valid, Entry;
  }

  /** How many page tables n pages take. */
  function Tables(n: nat): nat {
    (n + 1023) / 1024
  }

  lemma TablesStep(n: nat)
    requires n > 0
    ensures Tables(n) == Tables(n - 1) + if (n - 1) % 1024 == 0 then 1 else 0
  {
  }

  /** page_insert of one frame at page after page. */
  lemma {:induction false} FillMany(s: State, r: nat, pp: Frame, n: nat, perm: Flags) returns (s': State)
    requires Filled(s, r, pp, 0) && n <= 0xFFFF && |s.free| >= Tables(n)
    ensures Filled(s', r, pp, n) && |s'.free| >= |s.free| - Tables(n)
  {
    if n == 0 { return s; }
    TablesStep(n);
    var s1 := FillMany(s, r, pp, n - 1, perm);
    FilledInMemory(s1, r, pp, n - 1);
    hide *;
    TablesStep(n);
    FillOne(s1, r, pp, n - 1, perm);
    s' := Insert(s1, r, (n - 1) / 1024, (n - 1) % 1024, pp, perm).0;
  }

  /** The kernel can be led to a count of 65535, and then the next page_insert succeeds and loses the
      invariant: pp_ref is back at 0 while 65536 entries map the frame. */
  lemma InsertBreaksSomewhere(perm: Flags) returns (s: State, r: nat, pp: Frame)
    ensures Filled(s, r, pp, 0xFFFF)
    ensures Insert(s, r, 63, 1023, pp, perm).1 && !Valid(Insert(s, r, 63, 1023, pp, perm).0)
  {
    hide Insert, Refers, Known;
    var s0: State;
    s0, r := FirstSpace(100);
    InMemory(s0);
    pp := s0.free[0];
    AllocZeroValid(s0);
    var s1 := AllocZero(s0);
    HeldCount(s1, pp);
    InMemory(s1);
    assert |s1.free| == 96;
    hide Valid;
    s := FillMany(s1, r, pp, 0xFFFF, perm);
    assert Entry(s, r, 63, 1022).Some?;
    InsertFails(s, r, 63, 1023, pp, perm);
    InsertCorrect(s, r, 63, 1023, pp, perm);
  }

  // ------------------------------------------------------------------
  // Environments.
  // ------------------------------------------------------------------

  const NO_ENV := Env(0, 0, Free, None, INITIAL_TF, 0, false, 0, 0, 0, 0)

  /** After env_init: no environment, and every slot on the free list, in order. */
  function BootKern(n: nat): Kern
    requires n >= 2
  {
    Kern(BootMemory(n), seq(NENV, _ => NO_ENV), seq(NENV, i => i))
  }

  lemma BootKernValid(n: nat)
    requires 2 <= n <= 0x10_0000
    ensures KValid(BootKern(n))
  {
    BootMemoryValid(n);
    hide Valid, BootMemory;
    var k := BootKern(n);
    assert forall i: nat | i < NENV :: k.free[i] == i && k.envs[i] == NO_ENV;
    assert FreeSlots(k);
    assert PgdirsOk(k) by { assert k.vm.roots == {} by { BootMemoryRoots(n); } }
  }

  lemma BootMemoryRoots(n: nat)
    requires n >= 2
    ensures BootMemory(n).roots == {}
  {
  }

  /** env_alloc of the first free slot, when there is memory. */
  lemma AllocEnv(k: Kern, parent: int)
    requires KValid(k) && k.free != [] && k.vm.free != []
    ensures k.free[0] < NENV
    ensures var (k', r) := EnvAlloc(k, parent);
            var i := k.free[0];
            && r == Done(i) && KValid(k') && i < NENV && |k.envs| == |k'.envs| == NENV
            && k'.envs[i].status == Runnable && k'.envs[i].parent == parent && k'.envs[i].id > 0 && !k'.envs[i].recving
            && k'.envs[i].id == NextId(k.envs[i].id, i)
            && (forall j: nat | j < NENV && j != i :: k'.envs[j] == k.envs[j])
            && k'.free == k.free[1..] && |k'.vm.free| == |k.vm.free| - 1
            && (forall va: Addr | va < UTOP :: Mapping(k', i, va).None?)
  {
    EnvAllocValid(k, parent);
    SetupCorrect(k.vm);
    hide Valid, Entry, NextId, PDX, PTX;
    forall va: Addr | va < UTOP ensures PDX(va) < UTOPX {
      UserIndexes(va);
    }
    assert k.free[0] in k.free;
  }

  /** A kernel with one environment, in slot 0, and an empty address space. */
  lemma OneEnv(n: nat) returns (k: Kern)
    requires 3 <= n <= 0x10_0000
    ensures KValid(k) && Live(k, 0) && |k.vm.free| == n - 3 && forall va: Addr | va < UTOP :: Mapping(k, 0, va).None?
  {
    hide Valid, Entry, NextId, PDX, PTX, FreeSlots, IdsOk, PgdirsOk, RecvOk;
    BootKernValid(n);
    BootMemoryValid(n);
    AllocEnv(BootKern(n), 0);
    k := EnvAlloc(BootKern(n), 0).0;
  }

  // ------------------------------------------------------------------
  // A read-only page made writable.
  // ------------------------------------------------------------------

  /** Any environment can make any page it maps writable, by mapping it onto itself. */
  lemma SelfMapGrantsWrite(k: Kern, cur: nat, va: Addr)
    requires KValid(k) && Live(k, cur) && UserPage(va) && Mapping(k, cur, va).Some?
    ensures var perm := PTE_U | PTE_W | PTE_P;
            && MapReady(k, cur, 0, va, 0, va, perm)
            && var (k', r) := SysPageMap(k, cur, 0, va, 0, va, perm);
            && r == 0 && KValid(k') && Mapping(k', cur, va) == Some(Word(Mapping(k, cur, va).value.frame, perm))
  {
    hide Valid, FreeSlots, IdsOk, PgdirsOk, RecvOk, SysPageMap, PDX, PTX, Known;
    var perm := PTE_U | PTE_W | PTE_P;
    assert perm | PTE_P == perm && PermOk(perm);
    MappedData(k, cur, va);
    SourceCases(k, cur, va);
    SysPageMapCorrect(k, cur, 0, va, 0, va, perm);
  }

  /** A page allocated read-only, in the one environment of a small kernel, becomes writable. */
  lemma GrantsWriteSomewhere() returns (k: Kern, va: Addr)
    ensures KValid(k) && Live(k, 0) && Mapping(k, 0, va).Some? && Mapping(k, 0, va).value.flags & PTE_W == 0
    ensures MapReady(k, 0, 0, va, 0, va, PTE_U | PTE_W | PTE_P)
    ensures var (k', r) := SysPageMap(k, 0, 0, va, 0, va, PTE_U | PTE_W | PTE_P);
            r == 0 && KValid(k') && Mapping(k', 0, va).Some? && Mapping(k', 0, va).value.flags & PTE_W != 0
  {
    var k0 := OneEnv(8);
    va := UTEXT;
    hide Valid, FreeSlots, IdsOk, PgdirsOk, RecvOk, SysPageMap, SysPageAlloc, PDX, PTX, Known, Entry;
    assert PermOk(PTE_U | PTE_P) && UserPage(va);
    SysPageAllocCorrect(k0, 0, 0, va, PTE_U | PTE_P);
    PageAllocSucceeds(k0, 0, va, PTE_U | PTE_P);
    k := SysPageAlloc(k0, 0, 0, va, PTE_U | PTE_P).0;
    SelfMapGrantsWrite(k, 0, va);
  }

  /** A neighbour of the only page that is mapped has a page table and no entry.  Both calls succeed on
      it: sys_page_unmap frees frame 0, and sys_page_map maps it. */
  lemma AbsentPageBreaksSomewhere() returns (k: Kern, va: Addr)
    ensures KValid(k) && Live(k, 0) && UserPage(va) && Mapping(k, 0, va).None?
    ensures MapReady(k, 0, 0, va, 0, UTEXT, PTE_U | PTE_P)
    ensures var (k', r) := SysPageUnmap(k, 0, 0, va);
            r == 0 && !KValid(k')
    ensures var (k', r) := SysPageMap(k, 0, 0, va, 0, UTEXT, PTE_U | PTE_P);
            && r == 0 && !KValid(k')
            && Entry(k'.vm, Space(k, 0), PDX(UTEXT), PTX(UTEXT)) == Some(Word(0, PTE_U | PTE_P))
  {
    var k0 := OneEnv(8);
    va := UTEXT + PGSIZE;
    var perm := PTE_U | PTE_P;
    assert PermOk(perm) && UserPage(va) && UserPage(UTEXT) && PDX(va) == PDX(UTEXT) && PTX(va) != PTX(UTEXT);
    assert PDX(va) < UTOPX;
    assert perm | PTE_P == perm;
    hide Valid, FreeSlots, IdsOk, PgdirsOk, RecvOk, SysPageMap, SysPageAlloc, SysPageUnmap, PDX, PTX, Known, At;
    SysPageAllocCorrect(k0, 0, 0, UTEXT, perm);
    PageAllocSucceeds(k0, 0, UTEXT, perm);
    k := SysPageAlloc(k0, 0, 0, UTEXT, perm).0;
    assert Mapping(k0, 0, va).None? && Mapping(k, 0, UTEXT).Some?;
    SourceCases(k, 0, va);
    SysPageUnmapCorrect(k, 0, 0, va);
    SysPageMapCorrect(k, 0, 0, va, 0, UTEXT, perm);
  }

  // ------------------------------------------------------------------
  // A permission left over from an earlier page.
  // ------------------------------------------------------------------

  /** A receiver whose env_ipc_perm is that of an earlier page finds it nonzero although no page came. */
  lemma StalePermSomewhere(value: int) returns (k: Kern, id: int)
    ensures KValid(k) && Live(k, 1) && Lookup(k, 1, id, false) == Some(0)
    ensures var (k', r) := SysIpcTrySend(k, 1, id, value, UTOP, 0);
            r == 0 && KValid(k') && !Transfers(k, 0, UTOP) && k'.envs[0].perm != 0
  {
    var k0 := TwoEnvs(8);
    assert FreeSlots(k0) && IdsOk(k0);
    var e := k0.envs[0].(recving := true, status := NotRunnable, dstva := UTEXT, perm := PTE_U | PTE_P);
    k := k0.(envs := k0.envs[0 := e]);
    id := e.id;
    StatusKept(k0, k, 0);
    hide Valid, FreeSlots, PgdirsOk, RecvOk, SysIpcTrySend, BadPage, Source;
    assert PTE_U | PTE_P != 0;
    SysIpcTrySendCorrect(k, 1, id, value, UTOP, 0);
  }

  lemma PageAllocSucceeds(k: Kern, cur: nat, va: Addr, perm: Flags)
    requires KValid(k) && Live(k, cur) && UserPage(va) && PermOk(perm) && |k.vm.free| >= 2
    ensures SysPageAlloc(k, cur, 0, va, perm).1 == 0
  {
    hide Valid, FreeSlots, IdsOk, PgdirsOk, RecvOk, Insert, AllocZero, PDX, PTX;
    AllocKValid(k);
    InMemory(k.vm);
    AllocZeroShrinks(k.vm);
    MapIntoCorrect(k.(vm := AllocZero(k.vm)), cur, va, k.vm.free[0], perm);
  }

  lemma AllocZeroShrinks(s: State)
    requires s.free != [] && s.free[0] < |s.mem|
    ensures |AllocZero(s).free| == |s.free| - 1 && AllocZero(s).roots == s.roots
  {
  }

  // ------------------------------------------------------------------
  // Two CPUs.
  // ------------------------------------------------------------------

  ghost predicate Reachable(m: Machine) {
    exists ms: seq<Machine>, steps: seq<Step> :: IsRun(ms, steps) && Init(ms[0]) && ms[|steps|] == m
  }

  lemma StepReaches(m: Machine, step: Step)
    requires Reachable(m) && Inv(m) && Enabled(m, step)
    ensures Reachable(Next(m, step)) && Inv(Next(m, step))
  {
    hide Inv, Enabled, Next, Init;
    StepKeepsInv(m, step);
    var ms: seq<Machine>, steps: seq<Step> :| IsRun(ms, steps) && Init(ms[0]) && ms[|steps|] == m;
    var ms', steps' := ms + [Next(m, step)], steps + [step];
    assert IsRun(ms', steps') && Init(ms'[0]) && ms'[|steps'|] == Next(m, step);
  }

  /** Environments A and its child B, in slots 0 and 1, as the other lemmas keep them. */
  ghost predicate Pair(m: Machine, a: Status, b: Status) {
    && Reachable(m) && Inv(m) && |m.cpus| == 2 && |m.k.envs| == NENV
    && m.k.envs[0].status == a && m.k.envs[1].status == b
    && m.k.envs[1].id > 0 && EnvX(m.k.envs[1].id) == 1 && m.k.envs[1].parent == m.k.envs[0].id
    && !m.k.envs[1].recving
  }

  /** CPU c dispatches environment e, and is between unlock_kernel and iret. */
  lemma Dispatch(m: Machine, c: nat, e: nat, a: Status, b: Status) returns (m': Machine)
    requires Pair(m, a, b) && c < 2 && e < 2 && m.cpus[c].phase.Leaving?
    requires if m.cpus[c].phase.giveUp
             then m.cpus[c].env.None? && m.k.envs[e].status.Runnable? && (e == 1 ==> !a.Runnable?)
             else m.cpus[c].env == Some(e) && m.k.envs[e].status.Running?
    ensures Pair(m', if e == 0 then Running else a, if e == 1 then Running else b)
    ensures m'.cpus == m.cpus[c := m'.cpus[c]] && m'.cpus[c].phase.Return? && m'.cpus[c].env == Some(e) && !m'.locked
  {
    hide KValid, Reachable, Placed, InboxOk;
    if m.cpus[c].phase.giveUp {
      PickLeast(m.k.envs, e);
    }
    var m1 := Next(m, Leave(c));
    StepReaches(m, Leave(c));
    assert m1 == EnvRun(m, c, e);
    assert m1.cpus[c].phase == Unlocking(false) && m1.cpus[c].env == Some(e);
    m' := Next(m1, Unlock(c));
    StepReaches(m1, Unlock(c));
  }

  /** The environment that CPU c is about to run returns to user mode, and traps. */
  lemma EnterAgain(m: Machine, c: nat, e: nat, a: Status, b: Status) returns (m': Machine)
    requires Pair(m, a, b) && c < 2 && e < 2 && m.cpus[c].phase.Return? && m.cpus[c].env == Some(e) && !m.locked
    requires m.k.envs[e].status.Running?
    ensures Pair(m', a, b) && m'.cpus == m.cpus[c := m'.cpus[c]] && m'.cpus[c].phase == InKernel
    ensures m'.cpus[c].env == Some(e)
  {
    hide KValid, Reachable, Placed, InboxOk;
    var m1 := Next(m, Iret(c));
    StepReaches(m, Iret(c));
    var m2 := Next(m1, Trap(c));
    StepReaches(m1, Trap(c));
    m' := Next(m2, Xchg(c));
    StepReaches(m2, Xchg(c));
  }

  /** CPU c, waiting for the lock since boot, gets it. */
  lemma GetLock(m: Machine, c: nat, a: Status, b: Status) returns (m': Machine)
    requires Pair(m, a, b) && c < 2 && m.cpus[c].phase == Spin(true) && !m.locked
    ensures Pair(m', a, b) && m'.k == m.k
    ensures m'.cpus == m.cpus[c := m'.cpus[c]] && m'.cpus[c].phase == Leaving(true) && m'.cpus[c].env == None
  {
    hide KValid, Reachable, Placed, InboxOk;
    m' := Next(m, Xchg(c));
    StepReaches(m, Xchg(c));
    assert CpuOk(m, c);
  }

  /** Boot with A and B runnable, and two CPUs. */
  lemma TwoCpus() returns (m: Machine)
    ensures Pair(m, Runnable, Runnable)
    ensures m.cpus[0].phase == Leaving(true) && m.cpus[0].env == None && m.cpus[1].phase == Spin(true)
    ensures m.cpus[1].env == None
  {
    var k := TwoEnvs(8);
    var cpus := [Cpu(Leaving(true), None, INITIAL_TF), Cpu(Spin(true), None, INITIAL_TF)];
    m := M.Machine.Machine(k, cpus, true, Some(0), seq(NENV, _ => Inbox([], [], false)));
    hide KValid, NextId;
    assert Init(m);
    InitInv(m);
    var ms, steps: seq<Step> := [m], [];
    assert IsRun(ms, steps) && Init(ms[0]) && ms[|steps|] == m;
    assert Reachable(m);
  }

  lemma TwoEnvs(n: nat) returns (k: Kern)
    requires 4 <= n <= 0x10_0000
    ensures KValid(k) && |k.envs| == NENV
    ensures forall e: nat | e < NENV :: k.envs[e].status in {Free, Runnable} && !k.envs[e].recving
    ensures k.envs[0].status.Runnable? && k.envs[1].status.Runnable?
    ensures k.envs[1].id > 0 && EnvX(k.envs[1].id) == 1 && k.envs[1].parent == k.envs[0].id
  {
    hide Valid, Mapping, FreeSlots, IdsOk, PgdirsOk, RecvOk;
    BootKernValid(n);
    BootMemoryValid(n);
    var k0 := BootKern(n);
    AllocEnv(k0, 0);
    var k1 := EnvAlloc(k0, 0).0;
    AllocEnv(k1, k1.envs[0].id);
    k := EnvAlloc(k1, k1.envs[0].id).0;
    assert k1.free[0] == 1 && k0.envs[1].id == 0;
  }

  /** A, on CPU 0, is in the kernel, while CPU 1 is about to return to its child B. */
  lemma BothRunning() returns (m: Machine)
    ensures Pair(m, Running, Running)
    ensures m.cpus[0].phase == InKernel && m.cpus[0].env == Some(0) && m.cpus[1].phase.Return?
    ensures m.cpus[1].env == Some(1)
  {
    hide Reachable, Inv;
    var m0 := TwoCpus();
    var m1 := Dispatch(m0, 0, 0, Runnable, Runnable);
    var m2 := GetLock(m1, 1, Running, Runnable);
    var m3 := Dispatch(m2, 1, 1, Running, Runnable);
    m := EnterAgain(m3, 0, 0, Running, Running);
  }

  lemma FindsChild(m: Machine, a: Status, b: Status)
    requires Pair(m, a, b) && m.cpus[0].env == Some(0) && !b.Free?
    ensures CpuOk(m, 0) && KValid(m.k) && Live(m.k, 0) && Lookup(m.k, 0, m.k.envs[1].id, true) == Some(1)
  {
    hide KValid, Reachable, Placed, InboxOk, LockOk;
    assert CpuOk(m, 0);
  }

  /** In a reachable state, CPU 0 makes a system call that loses the invariant. */
  ghost predicate BreaksReachably(m: Machine, call: Call) {
    && Reachable(m) && Inv(m) && 0 < |m.cpus| && CpuOk(m, 0) && m.cpus[0].phase.InKernel?
    && KValid(m.k) && Live(m.k, m.cpus[0].env.value) && |m.inbox| == NENV && Ready(m.k, m.cpus[0].env.value, call)
    && !Inv(SysStep(m, 0, call))
  }

  lemma StatusBreaks(m: Machine, b: Status)
    requires Pair(m, Running, b) && b in {Running, Dying} && m.cpus[0].phase == InKernel && m.cpus[0].env == Some(0)
    ensures BreaksReachably(m, SetStatus(m.k.envs[1].id, 4))
    ensures b == Dying ==> BreaksReachably(m, Destroy(m.k.envs[1].id))
  {
    var id := m.k.envs[1].id;
    FindsChild(m, Running, b);
    hide KValid, Reachable, Inv, CpuOk, SysStep, Lookup;
    RunningCaller(m, 0);
    SetStatusKeepsInvIff(m, 0, id, 4);
    DestroyKeepsInvIff(m, 0, id);
  }

  /** A sets the status of B while B runs. */
  lemma SetStatusBreaksSomewhere() returns (m: Machine, b: int)
    ensures BreaksReachably(m, SetStatus(b, 4))
  {
    m := BothRunning();
    b := m.k.envs[1].id;
    StatusBreaks(m, Running);
    hide *;
  }

  /** A destroys B twice before the CPU that B is on gets to collect it. */
  lemma DestroyBreaksSomewhere() returns (m: Machine, b: int)
    ensures BreaksReachably(m, Destroy(b))
  {
    var m0 := BothRunning();
    var m1 := FirstDestroy(m0);
    var m2 := Dispatch(m1, 0, 0, Running, Dying);
    m := EnterAgain(m2, 0, 0, Running, Dying);
    b := m.k.envs[1].id;
    StatusBreaks(m, Dying);
    hide *;
  }

  lemma FirstDestroy(m: Machine) returns (m': Machine)
    requires Pair(m, Running, Running) && m.cpus[0].phase == InKernel && m.cpus[0].env == Some(0)
    ensures Pair(m', Running, Dying) && m'.cpus[0].phase == Leaving(false) && m'.cpus[0].env == Some(0)
  {
    var b := m.k.envs[1].id;
    FindsChild(m, Running, Running);
    RunningCaller(m, 0);
    DestroyMarks(m, b);
    DestroyAllowed(m, b);
    hide KValid, Reachable, Inv, CpuOk, SysStep, Lookup, Enabled, Next;
    m' := Next(m, Sys(0, Destroy(b)));
    StepReaches(m, Sys(0, Destroy(b)));
  }

  lemma DestroyAllowed(m: Machine, b: int)
    requires Inv(m) && |m.cpus| == 2 && m.cpus[0].phase == InKernel && m.cpus[0].env == Some(0) && CpuOk(m, 0)
    requires KValid(m.k) && Live(m.k, 0) && |m.inbox| == NENV && Lookup(m.k, 0, b, true) == Some(1)
    requires m.k.envs[1].status.Running?
    ensures Enabled(m, Sys(0, Destroy(b))) && Next(m, Sys(0, Destroy(b))) == SysStep(m, 0, Destroy(b))
  {
    assert |m.k.envs| == NENV;
    hide KValid, Placed, InboxOk, LockOk, SysStep, Lookup;
  }

  lemma DestroyMarks(m: Machine, b: int)
    requires |m.cpus| == 2 && m.cpus[0].phase == InKernel && m.cpus[0].env == Some(0) && KValid(m.k) && Live(m.k, 0)
    requires |m.inbox| == NENV && Lookup(m.k, 0, b, true) == Some(1) && m.k.envs[1].status.Running?
    ensures var m' := SysStep(m, 0, Destroy(b));
            && m'.cpus == m.cpus[0 := m.cpus[0].(phase := Leaving(false))] && |m'.k.envs| == NENV
            && m'.k.envs[0] == m.k.envs[0].(tf := m'.k.envs[0].tf)
            && m'.k.envs[1] == m.k.envs[1].(status := Dying)
  {
    assert |m.k.envs| == NENV;
    hide KValid, Lookup, EnvFree;
  }
}
