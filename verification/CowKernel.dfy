/** The copy-on-write machine on top of the kernel: each of its steps is a system call of the kernel, or
    a store through the MMU, on the page tables that the kernel keeps. */
module CowKernel {
  import opened Mmu
  import opened Pmap
  import opened EnvVm
  import opened Envs
  import opened Syscalls
  import opened Machine
  import Cow

  const USERPAGES := UTOPX * 1024

  // ------------------------------------------------------------------
  // What a kernel state is to the copy-on-write machine.
  // ------------------------------------------------------------------

  function Number(w: Word): int {
    w.frame * 0x1000 + w.flags as int
  }

  function ContentOf(p: Page): Cow.Content {
    seq(1024, i requires 0 <= i < 1024 => Number(p[i]))
  }

  function PteOf(w: Word): Cow.Pte {
    Cow.Pte(w.frame, w.flags & PTE_W != 0, w.flags & PTE_COW != 0)
  }

  /** Page number pn of slot e. */
  function PteAt(k: Kern, e: nat, pn: nat): Option<Cow.Pte>
    requires KValid(k) && Live(k, e)
  {
    if pn >= USERPAGES then None
    else
      match Entry(k.vm, Space(k, e), pn / 1024, pn % 1024)
      case None => None
      case Some(w) => Some(PteOf(w))
  }

  /** The same environments map the same frames in the same ways, and the frames hold the same. */
  ghost predicate Agrees(k: Kern, s: Cow.State) {
    && KValid(k)
    && (forall e: nat :: e in s.envs <==> Live(k, e))
    && (forall e: nat, pn: nat | Live(k, e) :: Cow.Page(s.envs, e, pn) == PteAt(k, e, pn))
    && (forall e: nat, pn: nat | Live(k, e) && PteAt(k, e, pn).Some? :: SameContent(k, s, PteAt(k, e, pn).value.frame))
    && (forall g: nat | g < |k.vm.ref| && g !in k.vm.reserved :: g in s.frames)
  }

  ghost predicate SameContent(k: Kern, s: Cow.State, g: nat) {
    g in s.frames && g < |k.vm.mem| && s.frames[g] == ContentOf(k.vm.mem[g])
  }

  lemma PteAtData(k: Kern, e: nat, pn: nat)
    requires KValid(k) && Live(k, e) && PteAt(k, e, pn).Some?
    ensures pn < USERPAGES && DataPage(k.vm, PteAt(k, e, pn).value.frame) && PteAt(k, e, pn).value.frame < |k.vm.mem|
    ensures Known(k.vm, PteAt(k, e, pn).value.frame)
  {
    UserWritesData(k.vm, Space(k, e), pn / 1024, pn % 1024);
    EntryRefers(k.vm, Space(k, e), pn / 1024, pn % 1024);
    assert Held(k.vm, PteAt(k, e, pn).value.frame);
  }

  /** A frame on the free list is one that the copy-on-write machine may allocate. */
  lemma FreeIsUnmapped(k: Kern, s: Cow.State, g: nat)
    requires Agrees(k, s) && g in k.vm.free
    ensures Cow.Unmapped(s, g)
  {
    assert g < |k.vm.ref| && g !in k.vm.reserved by {
      var i: nat :| i < |k.vm.free| && k.vm.free[i] == g;
    }
    hide KValid, PteAt, DataPage;
    forall e: nat, pn: nat ensures Cow.Frame(s.envs, e, pn) != Some(g) {
      if Cow.Page(s.envs, e, pn).Some? {
        assert Live(k, e);
        PteAtData(k, e, pn);
        assert PteAt(k, e, pn).value.frame !in k.vm.free by { NotFree(k.vm, PteAt(k, e, pn).value.frame); }
      }
    }
  }

  lemma NotFree(s: State, f: nat)
    requires DataPage(s, f)
    ensures f !in s.free
  {
  }

  // ------------------------------------------------------------------
  // The contents of data pages through the kernel's calls.
  // ------------------------------------------------------------------

  /** Data pages other than f keep their contents, and no frame changes hands with the boot code. */
  ghost predicate DataKept(s: State, s': State, f: Option<nat>) {
    && |s'.mem| == |s.mem| && |s'.ref| == |s.ref| && s'.reserved == s.reserved
    && forall g: nat | DataPage(s, g) && Some(g) != f :: g < |s.mem| && s'.mem[g] == s.mem[g]
  }

  lemma InsertData(s: State, r: nat, d: nat, t: nat, pp: Frame, perm: Flags)
    requires Valid(s) && r in s.roots && d < UTOPX && t < 1024 && pp < |s.ref|
    ensures DataKept(s, Insert(s, r, d, t, pp, perm).0, None)
  {
    assert |s.mem| == |s.ref| <= 0x10_0000;
    InsertFrame(s, r, d, t, pp, perm);
    hide Valid, Insert, DataPage;
    forall g: nat | DataPage(s, g) ensures g < |s.mem| && Insert(s, r, d, t, pp, perm).0.mem[g] == s.mem[g] {
      assert g < |s.ref| by { DataInRange(s, g); }
      InsertKeepsContents(s, r, d, t, pp, perm, g);
    }
    InsertLength(s, r, d, t, pp, perm);
  }

  lemma DataInRange(s: State, g: nat)
    requires DataPage(s, g)
    ensures g < |s.ref|
  {
  }

  lemma InsertLength(s: State, r: nat, d: nat, t: nat, pp: Frame, perm: Flags)
    requires Valid(s) && r in s.roots && d < UTOPX && t < 1024 && pp < |s.ref|
    ensures |Insert(s, r, d, t, pp, perm).0.mem| == |s.mem|
  {
    hide Refers, Slots, IsSlot, Counted, Exclusive, Clean, KernelHalf, TargetsOk;
  }

  lemma RemoveData(s: State, r: nat, d: nat, t: nat)
    requires Valid(s) && r in s.roots && d < UTOPX && t < 1024 && Entry(s, r, d, t).Some?
    ensures DataKept(s, Remove(s, r, d, t), None)
  {
    assert |s.mem| == |s.ref|;
    RemovePresent(s, r, d, t);
    RemoveKeepsShape(s, r, d, t);
    hide Valid, Remove, DataPage, Entry, Refers;
    forall g: nat | DataPage(s, g) ensures g < |s.mem| && Remove(s, r, d, t).mem[g] == s.mem[g] {
      RemoveKeepsContents(s, r, d, t, g);
    }
  }

  lemma RemoveKeepsShape(s: State, r: nat, d: nat, t: nat)
    requires t < 1024 && |s.ref| == |s.mem|
    ensures |Remove(s, r, d, t).mem| == |s.mem|
  {
  }

  /** page_alloc and page_insert. */
  lemma PageAllocData(k: Kern, cur: nat, envid: int, va: Addr, perm: Flags)
    requires KValid(k) && Live(k, cur) && SysPageAlloc(k, cur, envid, va, perm).1 == 0
    ensures k.vm.free != [] && DataKept(k.vm, SysPageAlloc(k, cur, envid, va, perm).0.vm, Some(k.vm.free[0]))
  {
    LookupLive(k, cur, envid, true);
    var i := Lookup(k, cur, envid, true).value;
    assert UserPage(va) && k.vm.free != [];
    hide Valid, FreeSlots, IdsOk, PgdirsOk, RecvOk, Lookup, PermOk, Insert, AllocZero, PDX, PTX, DataPage;
    var pp := k.vm.free[0];
    AllocKValid(k);
    UserIndexes(va);
    var s1 := AllocZero(k.vm);
    AllocData(k.vm);
    InsertData(s1, Space(k, i), PDX(va), PTX(va), pp, perm);
  }

  lemma AllocData(s: State)
    requires Valid(s) && s.free != []
    ensures s.free[0] < |s.mem| && DataKept(s, AllocZero(s), Some(s.free[0])) && AllocZero(s).roots == s.roots
    ensures forall g: nat | DataPage(s, g) :: DataPage(AllocZero(s), g)
  {
    AllocZeroValid(s);
    hide Refers;
  }

  // ------------------------------------------------------------------
  // One page changes on both sides.
  // ------------------------------------------------------------------

  ghost predicate SameSpaces(k: Kern, k': Kern)
    requires |k.envs| == NENV
  {
    |k'.envs| == NENV && forall e: nat | e < NENV ::
      (Live(k', e) <==> Live(k, e)) && (Live(k, e) ==> k'.envs[e].pgdir == k.envs[e].pgdir)
  }

  /** Page pn of environment i is now p, and no other page differs. */
  ghost predicate OnePageSet(s: Cow.State, s': Cow.State, i: nat, pn: nat, p: Option<Cow.Pte>) {
    && (forall e: nat :: e in s'.envs <==> e in s.envs)
    && forall e: nat, n: nat :: Cow.Page(s'.envs, e, n) == if e == i && n == pn then p else Cow.Page(s.envs, e, n)
  }

  function PteOption(w: Option<Word>): Option<Cow.Pte> {
    match w
    case None => None
    case Some(v) => Some(PteOf(v))
  }

  lemma EntriesMoved(k: Kern, k': Kern, i: nat, pn: nat, w: Option<Word>, e: nat, n: nat)
    requires KValid(k) && KValid(k') && Live(k, i) && pn < USERPAGES && SameSpaces(k, k') && Live(k, e)
    requires OneEntryChanged(k.vm, k'.vm, Space(k, i), pn / 1024, pn % 1024, w)
    ensures Live(k', e) && PteAt(k', e, n) == if e == i && n == pn then PteOption(w) else PteAt(k, e, n)
  {
    assert e == i || k.envs[e].pgdir != k.envs[i].pgdir;
    assert n == pn <==> n / 1024 == pn / 1024 && n % 1024 == pn % 1024;
    assert Space(k', e) == Space(k, e) && Space(k, e) as nat in k.vm.roots;
    assert n < USERPAGES ==> n / 1024 < UTOPX && n % 1024 < 1024;
    hide KValid, Entry;
  }

  /** The frames other than f hold what they did. */
  ghost predicate FramesKept(s: Cow.State, s': Cow.State, f: Option<nat>) {
    forall g: nat | g in s.frames :: g in s'.frames && (Some(g) != f ==> s'.frames[g] == s.frames[g])
  }

  lemma ContentMoved(k: Kern, k': Kern, s: Cow.State, s': Cow.State, f: Option<nat>, g: nat)
    requires SameContent(k, s, g) && DataPage(k.vm, g) && DataKept(k.vm, k'.vm, f) && FramesKept(s, s', f)
    requires f.Some? ==> SameContent(k', s', f.value)
    ensures SameContent(k', s', g)
  {
    hide DataPage;
  }

  lemma AgreesAt(k: Kern, s: Cow.State, e: nat, pn: nat)
    requires Agrees(k, s) && Live(k, e)
    ensures KValid(k) && Cow.Page(s.envs, e, pn) == PteAt(k, e, pn)
    ensures PteAt(k, e, pn).Some? ==>
              DataPage(k.vm, PteAt(k, e, pn).value.frame) && SameContent(k, s, PteAt(k, e, pn).value.frame)
  {
    hide KValid, PteAt, DataPage, Live, SameContent, Cow.Page;
    if PteAt(k, e, pn).Some? {
      PteAtData(k, e, pn);
    }
  }

  lemma PageMovedAt(k: Kern, k': Kern, s: Cow.State, s': Cow.State, i: nat, pn: nat, w: Option<Word>, f: Option<nat>,
                    e: nat, n: nat)
    requires Agrees(k, s) && KValid(k) && KValid(k') && Live(k, i) && Live(k, e) && pn < USERPAGES
    requires |k.envs| == NENV && SameSpaces(k, k')
    requires OneEntryChanged(k.vm, k'.vm, Space(k, i), pn / 1024, pn % 1024, w)
    requires OnePageSet(s, s', i, pn, PteOption(w)) && DataKept(k.vm, k'.vm, f) && FramesKept(s, s', f)
    requires f.Some? ==> SameContent(k', s', f.value)
    requires w.Some? ==> SameContent(k', s', w.value.frame)
    ensures Live(k', e) && Cow.Page(s'.envs, e, n) == PteAt(k', e, n)
    ensures PteAt(k', e, n).Some? ==> SameContent(k', s', PteAt(k', e, n).value.frame)
  {
    hide KValid, DataPage, PteAt, OneEntryChanged, SameContent, Cow.Page, Agrees, DataKept, FramesKept, SameSpaces;
    hide Live;
    EntriesMoved(k, k', i, pn, w, e, n);
    AgreesAt(k, s, e, n);
    if PteAt(k', e, n).Some? && !(e == i && n == pn) {
      ContentMoved(k, k', s, s', f, PteAt(k, e, n).value.frame);
    }
  }

  lemma SameEnvs(k: Kern, k': Kern)
    requires k'.envs == k.envs && |k.envs| == NENV
    ensures SameSpaces(k, k') && forall e: nat :: Live(k', e) <==> Live(k, e)
  {
  }

  /** If the same page changed in the same way on both sides, and no contents but those of frame f, the
      two sides still agree. */
  lemma PageMoved(k: Kern, k': Kern, s: Cow.State, s': Cow.State, i: nat, pn: nat, w: Option<Word>, f: Option<nat>)
    requires Agrees(k, s) && KValid(k) && KValid(k') && Live(k, i) && pn < USERPAGES
    requires |k.envs| == NENV && SameSpaces(k, k')
    requires OneEntryChanged(k.vm, k'.vm, Space(k, i), pn / 1024, pn % 1024, w)
    requires OnePageSet(s, s', i, pn, PteOption(w)) && DataKept(k.vm, k'.vm, f) && FramesKept(s, s', f)
    requires f.Some? ==> SameContent(k', s', f.value)
    requires w.Some? ==> SameContent(k', s', w.value.frame)
    ensures Agrees(k', s')
  {
    hide KValid, DataPage, PteAt, OneEntryChanged, SameContent, Cow.Page;
    forall e: nat ensures Live(k', e) <==> Live(k, e) {
    }
    forall e: nat, n: nat | Live(k', e)
      ensures Cow.Page(s'.envs, e, n) == PteAt(k', e, n)
      ensures PteAt(k', e, n).Some? ==> SameContent(k', s', PteAt(k', e, n).value.frame)
    {
      hide Agrees, DataKept, FramesKept, OnePageSet, SameSpaces, Live;
      PageMovedAt(k, k', s, s', i, pn, w, f, e, n);
    }
    hide SameSpaces, Live;
  }

  // ------------------------------------------------------------------
  // What the kernel does for each step.
  // ------------------------------------------------------------------

  function PageVa(pn: nat): (va: Addr)
    requires pn < USERPAGES
    ensures va < UTOP && PDX(va) == pn / 1024 && PTX(va) == pn % 1024 && PGNUM(va) == pn
  {
    pn * PGSIZE
  }

  /** sys_page_alloc of page pn of environment i, called by `cur`, succeeds. */
  ghost predicate Allocated(k: Kern, k': Kern, cur: nat, i: nat, pn: nat, w: bool, cow: bool)
    requires KValid(k) && Live(k, cur)
  {
    pn < USERPAGES && exists envid: int, perm: Flags ::
      && SysPageAlloc(k, cur, envid, PageVa(pn), perm) == (k', 0) && Lookup(k, cur, envid, true) == Some(i)
      && PteOf(Word(0, perm | PTE_P)) == Cow.Pte(0, w, cow)
  }

  /** sys_page_map of page v of environment i at page pn of j, called by `cur`, succeeds, and the
      frame's count had room. */
  ghost predicate Mapped(k: Kern, k': Kern, cur: nat, i: nat, v: nat, j: nat, pn: nat, w: bool, cow: bool)
    requires KValid(k) && Live(k, cur)
  {
    pn < USERPAGES && v < USERPAGES && KValid(k') && exists src: int, dst: int, perm: Flags ::
      && MapReady(k, cur, src, PageVa(v), dst, PageVa(pn), perm)
      && SysPageMap(k, cur, src, PageVa(v), dst, PageVa(pn), perm) == (k', 0)
      && Lookup(k, cur, src, true) == Some(i) && Lookup(k, cur, dst, true) == Some(j)
      && PteOf(Word(0, perm | PTE_P)) == Cow.Pte(0, w, cow)
  }

  /** sys_page_unmap of page pn of environment `cur`, mapped or without a page table. */
  ghost predicate Unmapped(k: Kern, k': Kern, cur: nat, pn: nat)
    requires KValid(k) && Live(k, cur)
  {
    pn < USERPAGES && KValid(k') && SysPageUnmap(k, cur, 0, PageVa(pn)) == (k', 0)
  }

  /** A store by environment e of a word that reads x, at word i of page pn. */
  ghost predicate Stored(k: Kern, k': Kern, e: nat, pn: nat, i: nat, x: int)
    requires KValid(k) && Live(k, e)
  {
    pn < USERPAGES && exists va: Addr, w: Word ::
      && MayWrite(k, e, va) && k' == StoreWord(k, e, va, w)
      && PGNUM(va) == pn && PGOFF(va) / 4 == i && Number(w) == x
  }

  /** Anything the kernel does without touching memory or the set of environments. */
  ghost predicate MemoryKept(k: Kern, k': Kern)
    requires KValid(k)
  {
    KValid(k') && k'.vm == k.vm && SameSpaces(k, k')
  }

  /** sys_env_set_status of environment i to ENV_RUNNABLE, called by `cur`, succeeds, on an environment that
      is not receiving. */
  ghost predicate Started(k: Kern, k': Kern, cur: nat, i: nat)
    requires KValid(k) && Live(k, cur)
  {
    KValid(k') && exists envid: int ::
      SysEnvSetStatus(k, cur, envid, 2) == (k', 0) && Lookup(k, cur, envid, true) == Some(i)
  }

  /** The environment is then runnable, and nothing else has changed. */
  lemma StartedRuns(k: Kern, k': Kern, cur: nat, i: nat)
    requires KValid(k) && Live(k, cur) && Started(k, k', cur, i)
    ensures MemoryKept(k, k') && Live(k', i) && k'.envs[i].status == Runnable
  {
    var envid: int :| SysEnvSetStatus(k, cur, envid, 2) == (k', 0) && Lookup(k, cur, envid, true) == Some(i);
    hide *;
    StatusSet(k, k', cur, envid, i);
  }

  lemma StatusSet(k: Kern, k': Kern, cur: nat, envid: int, i: nat)
    requires KValid(k) && Live(k, cur) && KValid(k')
    requires SysEnvSetStatus(k, cur, envid, 2) == (k', 0) && Lookup(k, cur, envid, true) == Some(i)
    ensures MemoryKept(k, k') && Live(k', i) && k'.envs[i].status == Runnable
  {
    hide KValid, SysEnvSetStatus, Lookup;
    EnvCounts(k);
    SysEnvSetStatusCorrect(k, cur, envid, 2);
  }

  /** What the kernel and the MMU do when the copy-on-write machine takes step l.  The frame that
      page_fault_handler pushes on the exception stack is so many Write steps of that page. */
  ghost predicate Performs(k: Kern, k': Kern, s: Cow.State, l: Cow.Step)
    requires Agrees(k, s) && Cow.Enabled(s, l)
  {
    var e, env := l.e, s.envs[l.e];
    match l
    case Write(_, pn, i, x) => Stored(k, k', e, pn, i, x)
    case PageAlloc(_, pn, frame, w, cow) =>
      Allocated(k, k', e, e, pn, w, cow) && k.vm.free != [] && k.vm.free[0] == frame
    case PageUnmap(_, pn) => Unmapped(k, k', e, pn)
    case Fault(_, pn) => MemoryKept(k, k')
    case FaultAlloc(_, frame) =>
      Allocated(k, k', e, e, Cow.TEMP, true, false) && k.vm.free != [] && k.vm.free[0] == frame
    case FaultCopy(_) => Stored(k, k', e, Cow.TEMP, env.fault.k, s.frames[env.pages[env.fault.pn].frame][env.fault.k])
    case FaultMap(_) => Mapped(k, k', e, e, Cow.TEMP, e, env.fault.pn, true, false)
    case FaultUnmap(_) => Unmapped(k, k', e, Cow.TEMP)
    case Exofork(_, child) => SysExofork(k, e).1 > 0 && k' == SysExofork(k, e).0 && EnvX(SysExofork(k, e).1) == child
    case DupFirst(_) =>
      var child, pn := env.fork.child, env.fork.pn;
      if pn !in env.pages then k' == k
      else Mapped(k, k', e, e, pn, child, pn, false, env.pages[pn].w || env.pages[pn].cow)
    case DupSecond(_) => Mapped(k, k', e, e, env.fork.pn, e, env.fork.pn, false, true)
    case ForkStack(_, frame) =>
      Allocated(k, k', e, env.fork.child, Cow.XSTACK, true, false) && k.vm.free != [] && k.vm.free[0] == frame
    case ForkRun(_) => Started(k, k', e, env.fork.child)
    case Die(_) => k.envs[e].pgdir.Some? && k.envs[e].pgdir.value < |k.vm.mem| && k' == EnvFree(k, e)
  }

  // ------------------------------------------------------------------
  // Each of them.
  // ------------------------------------------------------------------

  lemma SamePages(k: Kern, s: Cow.State, s': Cow.State)
    requires Agrees(k, s) && s'.frames == s.frames && forall e: nat :: e in s'.envs <==> e in s.envs
    requires forall e: nat, n: nat :: Cow.Page(s'.envs, e, n) == Cow.Page(s.envs, e, n)
    ensures Agrees(k, s')
  {
    hide KValid, PteAt, Cow.Page;
    assert forall g: nat :: SameContent(k, s', g) == SameContent(k, s, g);
  }

  lemma MemoryKeptAgrees(k: Kern, k': Kern, s: Cow.State)
    requires Agrees(k, s) && MemoryKept(k, k')
    ensures Agrees(k', s)
  {
    assert |k.envs| == |k'.envs| == NENV;
    hide KValid, Entry, Cow.Page;
    assert forall e: nat, n: nat | Live(k, e) :: PteAt(k', e, n) == PteAt(k, e, n);
    assert forall g: nat :: SameContent(k', s, g) == SameContent(k, s, g);
    hide PteAt, SameContent;
  }

  lemma AllocatedEffect(k: Kern, k': Kern, cur: nat, i: nat, pn: nat, w: bool, cow: bool) returns (v: Word)
    requires KValid(k) && Live(k, cur) && Allocated(k, k', cur, i, pn, w, cow)
    ensures KValid(k') && k.vm.free != [] && Live(k, i) && |k.envs| == NENV && SameSpaces(k, k')
    ensures OneEntryChanged(k.vm, k'.vm, Space(k, i), pn / 1024, pn % 1024, Some(v))
    ensures PteOf(v) == Cow.Pte(k.vm.free[0], w, cow) && DataKept(k.vm, k'.vm, Some(k.vm.free[0]))
    ensures k.vm.free[0] < |k'.vm.mem| && k'.vm.mem[k.vm.free[0]] == ZeroPage()
  {
    var envid: int, perm: Flags :|
      && SysPageAlloc(k, cur, envid, PageVa(pn), perm) == (k', 0) && Lookup(k, cur, envid, true) == Some(i)
      && PteOf(Word(0, perm | PTE_P)) == Cow.Pte(0, w, cow);
    EnvCounts(k);
    hide KValid, SysPageAlloc, Lookup, Entry, OneEntryChanged, DataKept, Live, SameSpaces, Known, PermOk;
    SysPageAllocCorrect(k, cur, envid, PageVa(pn), perm);
    PageAllocData(k, cur, envid, PageVa(pn), perm);
    SameEnvs(k, k');
    v := Word(k.vm.free[0], perm | PTE_P);
  }

  lemma AllocatedAgrees(k: Kern, k': Kern, s: Cow.State, s': Cow.State, cur: nat, i: nat, pn: nat, w: bool, cow: bool)
    requires Agrees(k, s) && Live(k, cur) && Allocated(k, k', cur, i, pn, w, cow) && k.vm.free != []
    requires OnePageSet(s, s', i, pn, Some(Cow.Pte(k.vm.free[0], w, cow)))
    requires s'.frames == s.frames[k.vm.free[0] := Cow.ZeroContent()]
    ensures Agrees(k', s')
  {
    assert KValid(k);
    hide *;
    var v := AllocatedEffect(k, k', cur, i, pn, w, cow);
    ZeroContents(k', s, s', k.vm.free[0]);
    PteOfFrame(v);
    PageMoved(k, k', s, s', i, pn, Some(v), Some(k.vm.free[0]));
  }

  lemma ZeroContents(k': Kern, s: Cow.State, s': Cow.State, f: nat)
    requires f < |k'.vm.mem| && k'.vm.mem[f] == ZeroPage() && s'.frames == s.frames[f := Cow.ZeroContent()]
    ensures SameContent(k', s', f) && FramesKept(s, s', Some(f))
  {
    assert ContentOf(ZeroPage()) == Cow.ZeroContent();
  }

  lemma PteOfFrame(v: Word)
    ensures PteOption(Some(v)) == Some(PteOf(v)) && PteOf(v).frame == v.frame
  {
  }

  lemma EnvCounts(k: Kern)
    requires KValid(k)
    ensures |k.envs| == NENV
  {
  }

  lemma MappedEffect(k: Kern, k': Kern, cur: nat, i: nat, u: nat, j: nat, pn: nat, w: bool, cow: bool) returns (v: Word)
    requires KValid(k) && Live(k, cur) && Live(k, i) && Mapped(k, k', cur, i, u, j, pn, w, cow) && PteAt(k, i, u).Some?
    ensures KValid(k') && Live(k, j) && |k.envs| == NENV && SameSpaces(k, k')
    ensures OneEntryChanged(k.vm, k'.vm, Space(k, j), pn / 1024, pn % 1024, Some(v))
    ensures PteOf(v) == Cow.Pte(PteAt(k, i, u).value.frame, w, cow) && v.frame == PteAt(k, i, u).value.frame
    ensures DataKept(k.vm, k'.vm, None)
  {
    var src: int, dst: int, perm: Flags :|
      && MapReady(k, cur, src, PageVa(u), dst, PageVa(pn), perm)
      && SysPageMap(k, cur, src, PageVa(u), dst, PageVa(pn), perm) == (k', 0)
      && Lookup(k, cur, src, true) == Some(i) && Lookup(k, cur, dst, true) == Some(j)
      && PteOf(Word(0, perm | PTE_P)) == Cow.Pte(0, w, cow);
    EnvCounts(k);
    hide KValid, SysPageMap, Lookup, Entry, OneEntryChanged, DataKept, MapReady, Known, Room, Source, Live, SameSpaces;
    hide PermOk;
    SameEnvs(k, k');
    SysPageMapCorrect(k, cur, src, PageVa(u), dst, PageVa(pn), perm);
    MapData(k, cur, src, PageVa(u), dst, PageVa(pn), perm);
    v := Word(PteAt(k, i, u).value.frame, perm | PTE_P);
  }

  lemma MappedAgrees(k: Kern, k': Kern, s: Cow.State, s': Cow.State, cur: nat, i: nat, u: nat, j: nat, pn: nat,
                     w: bool, cow: bool)
    requires Agrees(k, s) && Live(k, cur) && Live(k, i) && Mapped(k, k', cur, i, u, j, pn, w, cow)
    requires Cow.Page(s.envs, i, u).Some?
    requires OnePageSet(s, s', j, pn, Some(Cow.Pte(Cow.Page(s.envs, i, u).value.frame, w, cow)))
    requires s'.frames == s.frames
    ensures Agrees(k', s')
  {
    AgreesAt(k, s, i, u);
    var v := MappedEffect(k, k', cur, i, u, j, pn, w, cow);
    assert PteOption(Some(v)) == Some(Cow.Pte(v.frame, w, cow)) && FramesKept(s, s', None);
    hide *;
    ContentMoved(k, k', s, s', None, v.frame);
    PageMoved(k, k', s, s', j, pn, Some(v), None);
  }

  lemma MapData(k: Kern, cur: nat, src: int, srcva: Addr, dst: int, dstva: Addr, perm: Flags)
    requires KValid(k) && Live(k, cur) && MapReady(k, cur, src, srcva, dst, dstva, perm)
    requires SysPageMap(k, cur, src, srcva, dst, dstva, perm).1 == 0
    ensures DataKept(k.vm, SysPageMap(k, cur, src, srcva, dst, dstva, perm).0.vm, None)
  {
    LookupLive(k, cur, src, true);
    LookupLive(k, cur, dst, true);
    var i, j := Lookup(k, cur, src, true).value, Lookup(k, cur, dst, true).value;
    assert UserPage(srcva) && UserPage(dstva) && Source(k, i, srcva).Some?;
    hide Valid, FreeSlots, IdsOk, PgdirsOk, RecvOk, Lookup, PermOk, Insert, PDX, PTX, DataKept, Source;
    SourceCases(k, i, srcva);
    UserIndexes(dstva);
    InsertData(k.vm, Space(k, j), PDX(dstva), PTX(dstva), Source(k, i, srcva).value.frame, perm);
  }

  lemma UnmappedAgrees(k: Kern, k': Kern, s: Cow.State, s': Cow.State, cur: nat, pn: nat)
    requires Agrees(k, s) && Live(k, cur) && Unmapped(k, k', cur, pn)
    requires OnePageSet(s, s', cur, pn, None) && s'.frames == s.frames
    ensures Agrees(k', s')
  {
    assert KValid(k) && FramesKept(s, s', None);
    EnvCounts(k);
    UnmapData(k, cur, PageVa(pn));
    SameEnvs(k, k');
    hide *;
    PageMoved(k, k', s, s', cur, pn, None, None);
  }

  lemma UnmapData(k: Kern, cur: nat, va: Addr)
    requires KValid(k) && Live(k, cur) && SysPageUnmap(k, cur, 0, va).1 == 0 && KValid(SysPageUnmap(k, cur, 0, va).0)
    ensures DataKept(k.vm, SysPageUnmap(k, cur, 0, va).0.vm, None)
    ensures OneEntryChanged(k.vm, SysPageUnmap(k, cur, 0, va).0.vm, Space(k, cur), PDX(va), PTX(va), None)
    ensures SysPageUnmap(k, cur, 0, va).0.envs == k.envs
  {
    SysPageUnmapCorrect(k, cur, 0, va);
    UserIndexes(va);
    assert |k.vm.ref| == |k.vm.mem|;
    if Mapping(k, cur, va).Some? {
      hide Valid, Remove, Refers, PDX, PTX;
      RemoveData(k.vm, Space(k, cur), PDX(va), PTX(va));
    } else {
      RemoveNothing(k.vm, Space(k, cur), PDX(va), PTX(va));
      hide Remove, Refers, PDX, PTX;
    }
  }

  lemma StoredEffect(k: Kern, k': Kern, e: nat, pn: nat, i: nat, x: int) returns (v: Word)
    requires KValid(k) && Live(k, e) && Stored(k, k', e, pn, i, x)
    ensures KValid(k') && k'.envs == k.envs && pn < USERPAGES && i < 1024
    ensures PteAt(k, e, pn) == Some(PteOf(v)) && v.frame < |k.vm.mem| == |k'.vm.mem|
    ensures OneEntryChanged(k.vm, k'.vm, Space(k, e), pn / 1024, pn % 1024, Some(v))
    ensures DataKept(k.vm, k'.vm, Some(v.frame as nat))
    ensures ContentOf(k'.vm.mem[v.frame]) == ContentOf(k.vm.mem[v.frame])[i := x]
  {
    var va: Addr, w: Word :|
      MayWrite(k, e, va) && k' == StoreWord(k, e, va, w) && PGNUM(va) == pn && PGOFF(va) / 4 == i && Number(w) == x;
    AddressRebuilt(va);
    hide *;
    v := WordStored(k, e, va, w);
  }

  lemma WordStored(k: Kern, e: nat, va: Addr, w: Word) returns (v: Word)
    requires KValid(k) && Live(k, e) && MayWrite(k, e, va)
    ensures var k', pn, i := StoreWord(k, e, va, w), PGNUM(va), PGOFF(va) / 4;
            && KValid(k') && k'.envs == k.envs && pn < USERPAGES && i < 1024
            && PteAt(k, e, pn) == Some(PteOf(v)) && v.frame < |k.vm.mem| == |k'.vm.mem|
            && OneEntryChanged(k.vm, k'.vm, Space(k, e), pn / 1024, pn % 1024, Some(v))
            && DataKept(k.vm, k'.vm, Some(v.frame as nat))
            && ContentOf(k'.vm.mem[v.frame]) == ContentOf(k.vm.mem[v.frame])[i := Number(w)]
  {
    assert PDX(va) == PGNUM(va) / 1024 && PTX(va) == PGNUM(va) % 1024 && va < UTOP by { AddressRebuilt(va); }
    UserIndexes(va);
    MayWriteData(k, e, va);
    v := Mapping(k, e, va).value;
    var k' := StoreWord(k, e, va, w);
    assert k'.vm.mem[v.frame] == k.vm.mem[v.frame][PGOFF(va) / 4 := w] && k'.envs == k.envs;
    hide KValid, MayWrite, Entry, DataPage, Number, PDX, PTX, PGNUM, PGOFF, StoreWord, ContentOf, DataKept;
    hide SameEntries, OneEntryChanged;
    ContentUpdated(k.vm.mem[v.frame], PGOFF(va) / 4, w);
    StoreWordCorrect(k, e, va, w);
    StoredKept(k, k', e, PGNUM(va) / 1024, PGNUM(va) % 1024, v);
  }

  lemma StoredKept(k: Kern, k': Kern, e: nat, d: nat, t: nat, v: Word)
    requires KValid(k) && Live(k, e) && d < UTOPX && t < 1024 && Entry(k.vm, Space(k, e), d, t) == Some(v)
    requires k' == k.(vm := k.vm.(mem := k'.vm.mem)) && |k'.vm.mem| == |k.vm.mem| && SameEntries(k.vm, k'.vm)
    requires forall f: nat | f < |k.vm.mem| && f != v.frame :: k'.vm.mem[f] == k.vm.mem[f]
    ensures DataKept(k.vm, k'.vm, Some(v.frame as nat)) && OneEntryChanged(k.vm, k'.vm, Space(k, e), d, t, Some(v))
  {
    assert Space(k, e) as nat in k.vm.roots && |k.vm.mem| == |k.vm.ref|;
    hide KValid, Entry, Refers;
  }

  lemma ContentUpdated(p: Page, i: nat, w: Word)
    requires i < 1024
    ensures ContentOf(p[i := w]) == ContentOf(p)[i := Number(w)]
  {
  }

  lemma StoredAgrees(k: Kern, k': Kern, s: Cow.State, s': Cow.State, e: nat, pn: nat, i: nat, x: int)
    requires Agrees(k, s) && Live(k, e) && Stored(k, k', e, pn, i, x) && Cow.Page(s.envs, e, pn).Some?
    requires Cow.Page(s.envs, e, pn).value.frame in s.frames && i < 1024
    requires var f := Cow.Page(s.envs, e, pn).value.frame; s'.frames == s.frames[f := s.frames[f][i := x]]
    requires OnePageSet(s, s', e, pn, Cow.Page(s.envs, e, pn))
    ensures Agrees(k', s')
  {
    assert KValid(k);
    EnvCounts(k);
    AgreesAt(k, s, e, pn);
    hide *;
    var v := StoredEffect(k, k', e, pn, i, x);
    PteOfFrame(v);
    SameEnvs(k, k');
    ContentStored(k, k', s, s', v.frame, i, x);
    PageMoved(k, k', s, s', e, pn, Some(v), Some(v.frame));
  }

  lemma ContentStored(k: Kern, k': Kern, s: Cow.State, s': Cow.State, f: nat, i: nat, x: int)
    requires SameContent(k, s, f) && f < |k'.vm.mem| && i < 1024
    requires ContentOf(k'.vm.mem[f]) == ContentOf(k.vm.mem[f])[i := x]
    requires s'.frames == s.frames[f := s.frames[f][i := x]]
    ensures SameContent(k', s', f) && FramesKept(s, s', Some(f))
  {
  }

  // ------------------------------------------------------------------
  // An environment comes or goes.
  // ------------------------------------------------------------------

  lemma PteAtMapping(k: Kern, e: nat, pn: nat)
    requires KValid(k) && Live(k, e)
    ensures PteAt(k, e, pn) == if pn < USERPAGES then PteOption(Mapping(k, e, PageVa(pn))) else None
  {
    hide KValid, Entry;
  }

  /** The kernel's environments but for slot i are as before, and so is what they map. */
  ghost predicate OthersAsBefore(k: Kern, k': Kern, i: nat)
    requires KValid(k) && KValid(k')
  {
    && (forall e: nat | e != i :: Live(k', e) <==> Live(k, e))
    && forall e: nat, pn: nat | Live(k, e) && e != i :: PteAt(k', e, pn) == PteAt(k, e, pn)
  }

  lemma OthersMoved(k: Kern, k': Kern, s: Cow.State, s': Cow.State, i: nat)
    requires Agrees(k, s) && KValid(k') && KValid(k) && OthersAsBefore(k, k', i) && DataKept(k.vm, k'.vm, None)
    requires s'.frames == s.frames && (forall e: nat | e != i :: e in s'.envs <==> e in s.envs)
    requires (i in s'.envs <==> Live(k', i))
    requires forall e: nat, n: nat | e != i :: Cow.Page(s'.envs, e, n) == Cow.Page(s.envs, e, n)
    requires Live(k', i) ==> forall n: nat :: PteAt(k', i, n).None? && Cow.Page(s'.envs, i, n).None?
    ensures Agrees(k', s')
  {
    hide KValid, PteAt, Cow.Page, SameContent, Live, DataPage, OthersAsBefore;
    assert FramesKept(s, s', None) by { hide Agrees, DataKept; }
    SameDomain(k, k', s, s', i);
    SameFrames(k, k', s, s');
    forall e: nat, n: nat | Live(k', e)
      ensures Cow.Page(s'.envs, e, n) == PteAt(k', e, n)
      ensures PteAt(k', e, n).Some? ==> SameContent(k', s', PteAt(k', e, n).value.frame)
    {
      hide Agrees, DataKept, FramesKept;
      if e != i {
        WasLive(k, k', i, e);
        OtherMoved(k, k', s, s', i, e, n);
      }
    }
    hide DataKept, FramesKept;
  }

  lemma SameFrames(k: Kern, k': Kern, s: Cow.State, s': Cow.State)
    requires Agrees(k, s) && DataKept(k.vm, k'.vm, None) && s'.frames == s.frames
    ensures forall g: nat | g < |k'.vm.ref| && g !in k'.vm.reserved :: g in s'.frames
  {
    hide KValid, PteAt, Live, Cow.Page, SameContent, DataPage;
  }

  lemma WasLive(k: Kern, k': Kern, i: nat, e: nat)
    requires KValid(k) && KValid(k') && OthersAsBefore(k, k', i) && e != i
    ensures Live(k', e) <==> Live(k, e)
  {
    hide KValid, PteAt, Live;
  }

  lemma SameDomain(k: Kern, k': Kern, s: Cow.State, s': Cow.State, i: nat)
    requires Agrees(k, s) && KValid(k) && KValid(k') && OthersAsBefore(k, k', i)
    requires (forall e: nat | e != i :: e in s'.envs <==> e in s.envs) && (i in s'.envs <==> Live(k', i))
    ensures forall e: nat :: e in s'.envs <==> Live(k', e)
  {
    hide KValid, PteAt, Live, Cow.Page, SameContent;
  }

  lemma OtherMoved(k: Kern, k': Kern, s: Cow.State, s': Cow.State, i: nat, e: nat, n: nat)
    requires Agrees(k, s) && KValid(k') && KValid(k) && OthersAsBefore(k, k', i) && DataKept(k.vm, k'.vm, None)
    requires FramesKept(s, s', None) && e != i && Live(k, e) && Cow.Page(s'.envs, e, n) == Cow.Page(s.envs, e, n)
    ensures Live(k', e) && Cow.Page(s'.envs, e, n) == PteAt(k', e, n)
    ensures PteAt(k', e, n).Some? ==> SameContent(k', s', PteAt(k', e, n).value.frame)
  {
    assert Live(k', e) && PteAt(k', e, n) == PteAt(k, e, n);
    hide *;
    AgreesAt(k, s, e, n);
    if PteAt(k', e, n).Some? {
      ContentMoved(k, k', s, s', None, PteAt(k, e, n).value.frame);
    }
  }

  lemma SetupData(s: State)
    requires Valid(s)
    ensures DataKept(s, Setup(s).0, None)
  {
    if s.free != [] {
      assert s.free[0] in s.free;
      hide Refers;
    }
  }

  lemma SpawnAgrees(k: Kern, s: Cow.State, s': Cow.State, cur: nat, i: nat)
    requires Agrees(k, s) && Live(k, cur) && SysExofork(k, cur).1 > 0 && EnvX(SysExofork(k, cur).1) == i
    requires s'.frames == s.frames && i in s'.envs && (forall e: nat | e != i :: e in s'.envs <==> e in s.envs)
    requires forall n: nat :: Cow.Page(s'.envs, i, n).None?
    requires forall e: nat, n: nat | e != i :: Cow.Page(s'.envs, e, n) == Cow.Page(s.envs, e, n)
    ensures Agrees(SysExofork(k, cur).0, s')
  {
    assert KValid(k);
    hide *;
    SpawnEffect(k, cur);
    OthersMoved(k, SysExofork(k, cur).0, s, s', i);
  }

  lemma SpawnEffect(k: Kern, cur: nat)
    requires KValid(k) && Live(k, cur) && SysExofork(k, cur).1 > 0
    ensures var (k', r) := SysExofork(k, cur);
            && KValid(k') && OthersAsBefore(k, k', EnvX(r)) && Live(k', EnvX(r)) && !Live(k, EnvX(r))
            && (forall n: nat :: PteAt(k', EnvX(r), n).None?) && DataKept(k.vm, k'.vm, None)
  {
    SysExoforkCorrect(k, cur);
    SetupData(k.vm);
    assert |k.envs| == NENV;
    EnvAllocVm(k, k.envs[cur].id);
    var (k', r) := SysExofork(k, cur);
    assert k'.vm == Setup(k.vm).0;
    assert |k'.envs| == NENV;
    hide KValid, SysExofork, Setup, NextId, Mapping;
    var i := EnvX(r);
    forall n: nat ensures PteAt(k', i, n).None? {
      PteAtMapping(k', i, n);
    }
    forall e: nat, n: nat | Live(k, e) && e != i ensures Live(k', e) && PteAt(k', e, n) == PteAt(k, e, n) {
      PteAtMapping(k', e, n);
      PteAtMapping(k, e, n);
    }
  }

  lemma EnvAllocVm(k: Kern, parent: int)
    requires Valid(k.vm) && |k.envs| == NENV && (k.free != [] ==> k.free[0] < NENV)
    ensures EnvAlloc(k, parent).1.Done? ==> EnvAlloc(k, parent).0.vm == Setup(k.vm).0
  {
  }

  // ------------------------------------------------------------------
  // env_free and the contents of memory.
  // ------------------------------------------------------------------

  /** A frame that is no page directory and no page table. */
  ghost predicate Plain(s: State, g: nat) {
    g < |s.mem| && forall x: Slot | Refers(s, x) == Some(g) :: x.PteSlot?
  }

  lemma PlainPeels(s: State, s': State, r: nat, g: nat)
    requires Peeled(s, s', r) && Plain(s, g) && |s'.mem| == |s.mem|
    ensures Plain(s', g)
  {
    hide Refers, Valid;
  }

  lemma PlainIsNoTable(s: State, r: nat, d: nat, g: nat)
    requires Valid(s) && r in s.roots && d < UTOPX && Plain(s, g)
    ensures r != g && Table(s, r, d) != Some(g)
  {
    EntryRefers(s, r, d, 0);
    hide Refers;
  }

  lemma {:induction false} ClearTableData(s: State, r: nat, d: nat, t: nat, g: nat)
    requires Valid(s) && r in s.roots && d < UTOPX && t <= 1024 && Table(s, r, d).Some? && Plain(s, g)
    ensures |ClearTable(s, r, d, t).mem| == |s.mem| && ClearTable(s, r, d, t).mem[g] == s.mem[g]
    decreases 1024 - t
  {
    if t < 1024 {
      var s1 := if Entry(s, r, d, t).Some? then Remove(s, r, d, t) else s;
      if Entry(s, r, d, t).Some? {
        RemovePeels(s, r, d, t);
        PlainIsNoTable(s, r, d, g);
        EntryRefers(s, r, d, t);
        EntryRefers(s1, r, d, t);
        assert s1.mem[g] == s.mem[g] && |s1.mem| == |s.mem| by { hide Valid, Refers; }
        hide Remove, Refers;
        PlainPeels(s, s1, r, g);
      }
      hide Remove, Refers, Valid, Plain;
      ClearTableData(s1, r, d, t + 1, g);
    }
  }

  lemma {:induction false} ClearDirData(s: State, r: nat, d: nat, g: nat)
    requires Valid(s) && r in s.roots && d <= UTOPX && Plain(s, g)
    requires forall x: Slot | x.r == r && !x.RootSlot? && x.d < d :: Refers(s, x) == None
    ensures |s.mem| == |s.ref| && r < |s.mem|
    ensures |ClearDir(s, r, d).mem| == |s.mem| && ClearDir(s, r, d).mem[g] == s.mem[g]
    decreases UTOPX - d
  {
    assert |s.mem| == |s.ref| && r < |s.mem|;
    if d < UTOPX {
      hide Refers, Valid, ClearTable, DropTable;
      EntryRefers(s, r, d, 0);
      if Table(s, r, d).None? {
        NoTableNoPages(s, r, d);
        ClearDirData(s, r, d + 1, g);
      } else {
        var s1 := ClearTable(s, r, d, 0);
        ClearTablePeels(s, r, d, 0);
        ClearTableData(s, r, d, 0, g);
        PlainPeels(s, s1, r, g);
        DropTableData(s1, r, d, g);
        EntryRefers(s1, r, d, 0);
        DropTablePeels(s1, r, d);
        var s2 := DropTable(s1, r, d);
        PlainPeels(s1, s2, r, g);
        NoTableNoPages(s2, r, d);
        hide Plain, Peeled;
        ClearDirData(s2, r, d + 1, g);
      }
    }
  }

  lemma DropTableData(s: State, r: nat, d: nat, g: nat)
    requires Valid(s) && r in s.roots && d < UTOPX && Plain(s, g) && r < |s.mem| && At(s, r, d).frame < |s.ref|
    ensures |DropTable(s, r, d).mem| == |s.mem| && DropTable(s, r, d).mem[g] == s.mem[g]
  {
    PlainIsNoTable(s, r, d, g);
    hide Valid, Refers;
  }

  lemma TeardownData(s: State, r: nat)
    requires Valid(s) && r in s.roots
    ensures r < |s.mem| == |s.ref| && DataKept(s, Teardown(s, r), None)
  {
    TeardownPeels(s, r);
    assert |s.mem| == |s.ref| && r < |s.mem|;
    var s' := Teardown(s, r);
    assert |s'.mem| == |s'.ref| && |s'.ref| == |s.ref| && s'.reserved == s.reserved;
    hide Valid, Refers, ClearDir;
    forall g: nat | DataPage(s, g) ensures g < |s.mem| && s'.mem[g] == s.mem[g] {
      ClearDirData(s, r, 0, g);
    }
  }

  lemma FreedEffect(k: Kern, i: nat)
    requires KValid(k) && Live(k, i)
    ensures k.envs[i].pgdir.Some? && k.envs[i].pgdir.value < |k.vm.mem| && KValid(EnvFree(k, i))
    ensures OthersAsBefore(k, EnvFree(k, i), i) && !Live(EnvFree(k, i), i) && DataKept(k.vm, EnvFree(k, i).vm, None)
  {
    MappingsOutlive(k, i);
    assert k.envs[i].pgdir.value as nat in k.vm.roots;
    TeardownData(k.vm, k.envs[i].pgdir.value);
    var k' := EnvFree(k, i);
    hide KValid, Teardown, Mapping, DataKept;
    forall e: nat, n: nat | Live(k, e) && e != i ensures Live(k', e) && PteAt(k', e, n) == PteAt(k, e, n) {
      PteAtMapping(k', e, n);
      PteAtMapping(k, e, n);
    }
  }

  lemma FreedAgrees(k: Kern, s: Cow.State, s': Cow.State, i: nat)
    requires Agrees(k, s) && Live(k, i) && k.envs[i].pgdir.Some? && k.envs[i].pgdir.value < |k.vm.mem|
    requires s'.frames == s.frames && i !in s'.envs && (forall e: nat | e != i :: e in s'.envs <==> e in s.envs)
    requires forall e: nat, n: nat | e != i :: Cow.Page(s'.envs, e, n) == Cow.Page(s.envs, e, n)
    ensures KValid(k) && Agrees(EnvFree(k, i), s')
  {
    assert KValid(k);
    hide *;
    FreedEffect(k, i);
    OthersMoved(k, EnvFree(k, i), s, s', i);
  }

  // ------------------------------------------------------------------
  // Every step, and every run.
  // ------------------------------------------------------------------

  lemma AgreesLive(k: Kern, s: Cow.State, e: nat)
    requires Agrees(k, s) && e in s.envs
    ensures KValid(k) && Live(k, e)
  {
    hide KValid, PteAt, Cow.Page, SameContent;
  }

  lemma SetsPage(s: Cow.State, e: nat, pn: nat, p: Cow.Pte)
    requires e in s.envs
    ensures var s' := Cow.SetPage(s, e, pn, p);
            OnePageSet(s, s', e, pn, Some(p)) && s'.frames == s.frames && s'.envs.Keys == s.envs.Keys
  {
  }

  lemma DropsPage(s: Cow.State, e: nat, pn: nat)
    requires e in s.envs
    ensures var s' := Cow.DropPage(s, e, pn);
            OnePageSet(s, s', e, pn, None) && s'.frames == s.frames && s'.envs.Keys == s.envs.Keys
  {
  }

  /** Where fork and pgfault have got to, and what frames hold, is nothing to the page tables. */
  lemma PhaseOnly(s0: Cow.State, s: Cow.State, e: nat, i: nat, pn: nat, p: Option<Cow.Pte>, f: Cow.ForkPhase,
                  g: Cow.FaultPhase)
    requires OnePageSet(s0, s, i, pn, p) && e in s.envs
    ensures OnePageSet(s0, Cow.SetFork(s, e, f), i, pn, p) && Cow.SetFork(s, e, f).frames == s.frames
    ensures OnePageSet(s0, Cow.SetFault(s, e, g), i, pn, p) && Cow.SetFault(s, e, g).frames == s.frames
  {
    forall j: nat, n: nat
      ensures Cow.Page(Cow.SetFork(s, e, f).envs, j, n) == Cow.Page(s.envs, j, n)
      ensures Cow.Page(Cow.SetFault(s, e, g).envs, j, n) == Cow.Page(s.envs, j, n)
    {
    }
    hide Cow.Page;
  }

  lemma ContentsOnly(s0: Cow.State, s: Cow.State, i: nat, pn: nat, p: Option<Cow.Pte>, g: nat, c: Cow.Content)
    requires OnePageSet(s0, s, i, pn, p)
    ensures OnePageSet(s0, Cow.Fill(s, g, c), i, pn, p) && Cow.Fill(s, g, c).frames == s.frames[g := c]
    ensures Cow.Fill(s, g, c).envs == s.envs
  {
  }

  lemma NothingSet(s: Cow.State, e: nat, pn: nat)
    ensures OnePageSet(s, s, e, pn, Cow.Page(s.envs, e, pn))
  {
  }

  lemma WriteAgrees(k: Kern, k': Kern, s: Cow.State, l: Cow.Step)
    requires Agrees(k, s) && Cow.Enabled(s, l) && Performs(k, k', s, l) && l.Write?
    ensures Agrees(k', Cow.Next(s, l))
  {
    hide KValid, Live, Agrees, Allocated, Mapped, Unmapped, Stored, MemoryKept, OnePageSet, Cow.ZeroContent;
    hide Cow.SetPage, Cow.DropPage, Cow.SetFault, Cow.SetFork, Cow.Fill;
    var s', e, env := Cow.Next(s, l), l.e, s.envs[l.e];
    AgreesLive(k, s, e);
    var pn, i, x := l.pn, l.i, l.x;
    var f, p := s.envs[e].pages[pn].frame, Cow.Page(s.envs, e, pn);
    assert p == Some(s.envs[e].pages[pn]) && Stored(k, k', e, pn, i, x);
    NothingSet(s, e, pn);
    ContentsOnly(s, s, e, pn, p, f, s.frames[f][i := x]);
    assert s' == Cow.Fill(s, f, s.frames[f][i := x]);
    hide *;
    StoredAgrees(k, k', s, s', e, pn, i, x);
  }

  lemma PageAllocAgrees(k: Kern, k': Kern, s: Cow.State, l: Cow.Step)
    requires Agrees(k, s) && Cow.Enabled(s, l) && Performs(k, k', s, l) && l.PageAlloc?
    ensures Agrees(k', Cow.Next(s, l))
  {
    hide KValid, Live, Agrees, Allocated, Mapped, Unmapped, Stored, MemoryKept, OnePageSet, Cow.ZeroContent;
    hide Cow.SetPage, Cow.DropPage, Cow.SetFault, Cow.SetFork, Cow.Fill;
    var s', e, env := Cow.Next(s, l), l.e, s.envs[l.e];
    AgreesLive(k, s, e);
    var p := Cow.Pte(l.frame, l.w, l.cow);
    var s1 := Cow.SetPage(s, e, l.pn, p);
    assert Allocated(k, k', e, e, l.pn, l.w, l.cow) && k.vm.free != [] && k.vm.free[0] == l.frame;
    SetsPage(s, e, l.pn, p);
    ContentsOnly(s, s1, e, l.pn, Some(p), l.frame, Cow.ZeroContent());
    assert s' == Cow.Fill(s1, l.frame, Cow.ZeroContent());
    hide *;
    AllocatedAgrees(k, k', s, s', e, e, l.pn, l.w, l.cow);
  }

  lemma PageUnmapAgrees(k: Kern, k': Kern, s: Cow.State, l: Cow.Step)
    requires Agrees(k, s) && Cow.Enabled(s, l) && Performs(k, k', s, l) && l.PageUnmap?
    ensures Agrees(k', Cow.Next(s, l))
  {
    hide KValid, Live, Agrees, Allocated, Mapped, Unmapped, Stored, MemoryKept, OnePageSet, Cow.ZeroContent;
    hide Cow.SetPage, Cow.DropPage, Cow.SetFault, Cow.SetFork, Cow.Fill;
    var s', e, env := Cow.Next(s, l), l.e, s.envs[l.e];
    AgreesLive(k, s, e);
    DropsPage(s, e, l.pn);
    assert Unmapped(k, k', e, l.pn) && s' == Cow.DropPage(s, e, l.pn);
    hide *;
    UnmappedAgrees(k, k', s, s', e, l.pn);
  }

  lemma EnvStepPages(s: Cow.State, l: Cow.Step)
    requires Cow.Enabled(s, l) && (l.Exofork? || l.Die?)
    ensures var s', i := Cow.Next(s, l), if l.Exofork? then l.child else l.e;
            && s'.frames == s.frames && (i in s'.envs <==> l.Exofork?)
            && (forall e: nat | e != i :: e in s'.envs <==> e in s.envs)
            && (forall n: nat :: Cow.Page(s'.envs, i, n).None?)
            && (forall e: nat, n: nat | e != i :: Cow.Page(s'.envs, e, n) == Cow.Page(s.envs, e, n))
  {
  }

  lemma EnvStepAgrees(k: Kern, k': Kern, s: Cow.State, l: Cow.Step)
    requires Agrees(k, s) && Cow.Enabled(s, l) && Performs(k, k', s, l) && (l.Exofork? || l.Die?)
    ensures Agrees(k', Cow.Next(s, l))
  {
    hide KValid, Agrees, Live, SysExofork, EnvFree, Cow.Next, Cow.Page;
    AgreesLive(k, s, l.e);
    EnvStepPages(s, l);
    var s', e := Cow.Next(s, l), l.e;
    if l.Exofork? {
      SpawnAgrees(k, s, s', e, l.child);
    } else {
      FreedAgrees(k, s, s', e);
    }
  }

  lemma FaultAllocAgrees(k: Kern, k': Kern, s: Cow.State, l: Cow.Step)
    requires Agrees(k, s) && Cow.Enabled(s, l) && Performs(k, k', s, l) && l.FaultAlloc?
    ensures Agrees(k', Cow.Next(s, l))
  {
    hide KValid, Live, Agrees, Allocated, Mapped, Unmapped, Stored, MemoryKept, OnePageSet, Cow.ZeroContent;
    hide Cow.SetPage, Cow.DropPage, Cow.SetFault, Cow.SetFork, Cow.Fill;
    var s', e, env := Cow.Next(s, l), l.e, s.envs[l.e];
    AgreesLive(k, s, e);
    var p := Cow.Pte(l.frame, true, false);
    var s1 := Cow.SetPage(s, e, Cow.TEMP, p);
    SetsPage(s, e, Cow.TEMP, p);
    ContentsOnly(s, s1, e, Cow.TEMP, Some(p), l.frame, Cow.ZeroContent());
    assert s' == Cow.SetFault(Cow.Fill(s1, l.frame, Cow.ZeroContent()), e, Cow.Copying(env.fault.pn, 0));
    assert Allocated(k, k', e, e, Cow.TEMP, true, false) && k.vm.free != [] && k.vm.free[0] == l.frame;
    hide *;
    PhaseOnly(s, Cow.Fill(s1, l.frame, Cow.ZeroContent()), e, e, Cow.TEMP, Some(p), env.fork,
              Cow.Copying(env.fault.pn, 0));
    AllocatedAgrees(k, k', s, s', e, e, Cow.TEMP, true, false);
  }

  lemma FaultCopyAgrees(k: Kern, k': Kern, s: Cow.State, l: Cow.Step)
    requires Agrees(k, s) && Cow.Enabled(s, l) && Performs(k, k', s, l) && l.FaultCopy?
    ensures Agrees(k', Cow.Next(s, l))
  {
    hide KValid, Live, Agrees, Allocated, Mapped, Unmapped, Stored, MemoryKept, OnePageSet, Cow.ZeroContent;
    hide Cow.SetPage, Cow.DropPage, Cow.SetFault, Cow.SetFork, Cow.Fill;
    var s', e, env := Cow.Next(s, l), l.e, s.envs[l.e];
    AgreesLive(k, s, e);
    var g, i := env.pages[Cow.TEMP].frame, env.fault.k;
    var x := s.frames[env.pages[env.fault.pn].frame][i];
    var p := Cow.Page(s.envs, e, Cow.TEMP);
    assert p == Some(env.pages[Cow.TEMP]) && Stored(k, k', e, Cow.TEMP, i, x);
    var s1 := Cow.Fill(s, g, s.frames[g][i := x]);
    NothingSet(s, e, Cow.TEMP);
    ContentsOnly(s, s, e, Cow.TEMP, p, g, s.frames[g][i := x]);
    assert s' == Cow.SetFault(s1, e, Cow.Copying(env.fault.pn, i + 1));
    hide *;
    PhaseOnly(s, s1, e, e, Cow.TEMP, p, env.fork, Cow.Copying(env.fault.pn, i + 1));
    StoredAgrees(k, k', s, s', e, Cow.TEMP, i, x);
  }

  lemma FaultMapAgrees(k: Kern, k': Kern, s: Cow.State, l: Cow.Step)
    requires Agrees(k, s) && Cow.Enabled(s, l) && Performs(k, k', s, l) && l.FaultMap?
    ensures Agrees(k', Cow.Next(s, l))
  {
    hide KValid, Live, Agrees, Allocated, Mapped, Unmapped, Stored, MemoryKept, OnePageSet, Cow.ZeroContent;
    hide Cow.SetPage, Cow.DropPage, Cow.SetFault, Cow.SetFork, Cow.Fill;
    var s', e, env := Cow.Next(s, l), l.e, s.envs[l.e];
    AgreesLive(k, s, e);
    var pn, p := env.fault.pn, Cow.Pte(env.pages[Cow.TEMP].frame, true, false);
    assert Cow.Page(s.envs, e, Cow.TEMP) == Some(env.pages[Cow.TEMP]);
    assert Mapped(k, k', e, e, Cow.TEMP, e, pn, true, false);
    SetsPage(s, e, pn, p);
    assert s' == Cow.SetFault(Cow.SetPage(s, e, pn, p), e, Cow.Moved(pn));
    hide *;
    PhaseOnly(s, Cow.SetPage(s, e, pn, p), e, e, pn, Some(p), env.fork, Cow.Moved(pn));
    MappedAgrees(k, k', s, s', e, e, Cow.TEMP, e, pn, true, false);
  }

  lemma FaultUnmapAgrees(k: Kern, k': Kern, s: Cow.State, l: Cow.Step)
    requires Agrees(k, s) && Cow.Enabled(s, l) && Performs(k, k', s, l) && l.FaultUnmap?
    ensures Agrees(k', Cow.Next(s, l))
  {
    hide KValid, Live, Agrees, Allocated, Mapped, Unmapped, Stored, MemoryKept, OnePageSet, Cow.ZeroContent;
    hide Cow.SetPage, Cow.DropPage, Cow.SetFault, Cow.SetFork, Cow.Fill;
    var s', e, env := Cow.Next(s, l), l.e, s.envs[l.e];
    AgreesLive(k, s, e);
    DropsPage(s, e, Cow.TEMP);
    assert Unmapped(k, k', e, Cow.TEMP) && s' == Cow.SetFault(Cow.DropPage(s, e, Cow.TEMP), e, Cow.NoFault);
    hide *;
    PhaseOnly(s, Cow.DropPage(s, e, Cow.TEMP), e, e, Cow.TEMP, None, env.fork, Cow.NoFault);
    UnmappedAgrees(k, k', s, s', e, Cow.TEMP);
  }

  lemma DupFirstAgrees(k: Kern, k': Kern, s: Cow.State, l: Cow.Step)
    requires Agrees(k, s) && Cow.Enabled(s, l) && Performs(k, k', s, l) && l.DupFirst?
    ensures Agrees(k', Cow.Next(s, l))
  {
    hide KValid, Live, Agrees, Allocated, Mapped, Unmapped, Stored, MemoryKept, OnePageSet, Cow.ZeroContent;
    hide Cow.SetPage, Cow.DropPage, Cow.SetFault, Cow.SetFork, Cow.Fill;
    var s', e, env := Cow.Next(s, l), l.e, s.envs[l.e];
    AgreesLive(k, s, e);
    var child, pn := env.fork.child, env.fork.pn;
    if pn !in env.pages {
      assert k' == k && s' == Cow.SetFork(s, e, Cow.AtPage(child, pn + 1));
    } else {
      assert Cow.Page(s.envs, e, pn) == Some(env.pages[pn]);
      assert Mapped(k, k', e, e, pn, child, pn, false, env.pages[pn].w || env.pages[pn].cow);
      SetsPage(s, child, pn, Cow.Pte(env.pages[pn].frame, false, env.pages[pn].w || env.pages[pn].cow));
      assert s' == Cow.SetFork(
          Cow.SetPage(s, child, pn, Cow.Pte(env.pages[pn].frame, false, env.pages[pn].w || env.pages[pn].cow)), e,
          if env.pages[pn].w || env.pages[pn].cow then Cow.Halfway(child, pn) else Cow.AtPage(child, pn + 1));
    }
    hide *;
    if pn !in env.pages {
      NothingSet(s, e, pn);
      PhaseOnly(s, s, e, e, pn, Cow.Page(s.envs, e, pn), Cow.AtPage(child, pn + 1), Cow.NoFault);
      SamePagesBut(k, s, s', e, pn);
    } else {
      var cow := env.pages[pn].w || env.pages[pn].cow;
      var p := Cow.Pte(env.pages[pn].frame, false, cow);
      SetsPage(s, child, pn, p);
      PhaseOnly(s, Cow.SetPage(s, child, pn, p), e, child, pn, Some(p),
                if cow then Cow.Halfway(child, pn) else Cow.AtPage(child, pn + 1), Cow.NoFault);
      MappedAgrees(k, k', s, s', e, e, pn, child, pn, false, cow);
    }
  }

  lemma DupSecondAgrees(k: Kern, k': Kern, s: Cow.State, l: Cow.Step)
    requires Agrees(k, s) && Cow.Enabled(s, l) && Performs(k, k', s, l) && l.DupSecond?
    ensures Agrees(k', Cow.Next(s, l))
  {
    hide KValid, Live, Agrees, Allocated, Mapped, Unmapped, Stored, MemoryKept, OnePageSet, Cow.ZeroContent;
    hide Cow.SetPage, Cow.DropPage, Cow.SetFault, Cow.SetFork, Cow.Fill;
    var s', e, env := Cow.Next(s, l), l.e, s.envs[l.e];
    AgreesLive(k, s, e);
    var child, pn := env.fork.child, env.fork.pn;
    var p := Cow.Pte(env.pages[pn].frame, false, true);
    assert Cow.Page(s.envs, e, pn) == Some(env.pages[pn]) && Mapped(k, k', e, e, pn, e, pn, false, true);
    SetsPage(s, e, pn, p);
    assert s' == Cow.SetFork(Cow.SetPage(s, e, pn, p), e, Cow.AtPage(child, pn + 1));
    hide *;
    PhaseOnly(s, Cow.SetPage(s, e, pn, p), e, e, pn, Some(p), Cow.AtPage(child, pn + 1), Cow.NoFault);
    MappedAgrees(k, k', s, s', e, e, pn, e, pn, false, true);
  }

  lemma ForkStackAgrees(k: Kern, k': Kern, s: Cow.State, l: Cow.Step)
    requires Agrees(k, s) && Cow.Enabled(s, l) && Performs(k, k', s, l) && l.ForkStack?
    ensures Agrees(k', Cow.Next(s, l))
  {
    hide KValid, Live, Agrees, Allocated, Mapped, Unmapped, Stored, MemoryKept, OnePageSet, Cow.ZeroContent;
    hide Cow.SetPage, Cow.DropPage, Cow.SetFault, Cow.SetFork, Cow.Fill;
    var s', e, env := Cow.Next(s, l), l.e, s.envs[l.e];
    AgreesLive(k, s, e);
    var child := env.fork.child;
    var p := Cow.Pte(l.frame, true, false);
    var s1 := Cow.SetPage(s, child, Cow.XSTACK, p);
    assert Allocated(k, k', e, child, Cow.XSTACK, true, false) && k.vm.free != [] && k.vm.free[0] == l.frame;
    SetsPage(s, child, Cow.XSTACK, p);
    ContentsOnly(s, s1, child, Cow.XSTACK, Some(p), l.frame, Cow.ZeroContent());
    assert s' == Cow.SetFork(Cow.Fill(s1, l.frame, Cow.ZeroContent()), e, Cow.Ready(child));
    hide *;
    PhaseOnly(s, Cow.Fill(s1, l.frame, Cow.ZeroContent()), e, child, Cow.XSTACK, Some(p), Cow.Ready(child),
              Cow.NoFault);
    AllocatedAgrees(k, k', s, s', e, child, Cow.XSTACK, true, false);
  }

  lemma SamePagesBut(k: Kern, s: Cow.State, s': Cow.State, e: nat, pn: nat)
    requires Agrees(k, s) && OnePageSet(s, s', e, pn, Cow.Page(s.envs, e, pn)) && s'.frames == s.frames
    ensures Agrees(k, s')
  {
    hide Agrees, Cow.Page;
    SamePages(k, s, s');
  }

  lemma QuietStepPages(s: Cow.State, l: Cow.Step)
    requires Cow.Enabled(s, l) && (l.Fault? || l.ForkRun?)
    ensures Cow.Next(s, l).frames == s.frames && forall e: nat :: e in Cow.Next(s, l).envs <==> e in s.envs
    ensures forall e: nat, n: nat :: Cow.Page(Cow.Next(s, l).envs, e, n) == Cow.Page(s.envs, e, n)
  {
  }

  lemma QuietStepAgrees(k: Kern, k': Kern, s: Cow.State, l: Cow.Step)
    requires Agrees(k, s) && Cow.Enabled(s, l) && Performs(k, k', s, l) && (l.Fault? || l.ForkRun?)
    ensures Agrees(k', Cow.Next(s, l))
  {
    hide KValid, Live, Agrees, MemoryKept, Cow.Next, PteAt, Cow.Page;
    hide Started;
    AgreesLive(k, s, l.e);
    if l.ForkRun? {
      StartedRuns(k, k', l.e, s.envs[l.e].fork.child);
    }
    assert MemoryKept(k, k');
    hide *;
    QuietStepPages(s, l);
    MemoryKeptAgrees(k, k', s);
    SamePages(k', s, Cow.Next(s, l));
  }

  /** When the kernel performs what a step of the copy-on-write machine stands for, the two agree
      after it: page tables, flags, and the contents of every mapped page. */
  lemma StepAgrees(k: Kern, k': Kern, s: Cow.State, l: Cow.Step)
    requires Agrees(k, s) && Cow.Enabled(s, l) && Performs(k, k', s, l)
    ensures Agrees(k', Cow.Next(s, l))
  {
    hide *;
    match l
    case Exofork(_, _) => EnvStepAgrees(k, k', s, l);
    case Die(_) => EnvStepAgrees(k, k', s, l);
    case Fault(_, _) => QuietStepAgrees(k, k', s, l);
    case ForkRun(_) => QuietStepAgrees(k, k', s, l);
    case FaultAlloc(_, _) => FaultAllocAgrees(k, k', s, l);
    case FaultCopy(_) => FaultCopyAgrees(k, k', s, l);
    case FaultMap(_) => FaultMapAgrees(k, k', s, l);
    case FaultUnmap(_) => FaultUnmapAgrees(k, k', s, l);
    case DupFirst(_) => DupFirstAgrees(k, k', s, l);
    case DupSecond(_) => DupSecondAgrees(k, k', s, l);
    case ForkStack(_, _) => ForkStackAgrees(k, k', s, l);
    case Write(_, _, _, _) => WriteAgrees(k, k', s, l);
    case PageAlloc(_, _, _, _, _) => PageAllocAgrees(k, k', s, l);
    case PageUnmap(_, _) => PageUnmapAgrees(k, k', s, l);
  }

  /** A run of the kernel beside one of the copy-on-write machine: each transition of the kernel leaves
      memory alone, or performs the next step.  After i transitions, at[i] steps are done. */
  ghost predicate Beside(ks: seq<Kern>, ss: seq<Cow.State>, ls: seq<Cow.Step>, at: seq<nat>) {
    && Cow.IsRun(ss, ls) && |ks| == |at| > 0 && at[0] == 0
    && (forall i: nat | i < |at| :: at[i] <= |ls|)
    && forall i: nat | i + 1 < |ks| && Agrees(ks[i], ss[at[i]]) ::
         || (at[i + 1] == at[i] && MemoryKept(ks[i], ks[i + 1]))
         || (at[i] < |ls| && at[i + 1] == at[i] + 1 && Performs(ks[i], ks[i + 1], ss[at[i]], ls[at[i]]))
  }

  lemma {:induction false} RunAgrees(ks: seq<Kern>, ss: seq<Cow.State>, ls: seq<Cow.Step>, at: seq<nat>, n: nat)
    requires Beside(ks, ss, ls, at) && Agrees(ks[0], ss[0]) && n < |ks|
    ensures Agrees(ks[n], ss[at[n]])
  {
    hide Agrees, MemoryKept, Performs, Cow.Enabled, Cow.Next;
    if n > 0 {
      RunAgrees(ks, ss, ls, at, n - 1);
      var i := n - 1;
      if at[n] == at[i] {
        MemoryKeptAgrees(ks[i], ks[n], ss[at[i]]);
      } else {
        StepAgrees(ks[i], ks[n], ss[at[i]], ls[at[i]]);
      }
    }
  }

  /** What a program finds at page pn of environment e in the kernel's memory. */
  function Found(k: Kern, e: nat, pn: nat): Option<Cow.OwnPage>
    requires KValid(k)
  {
    if !Live(k, e) then None
    else
      match PteAt(k, e, pn)
      case None => None
      case Some(p) =>
        if p.frame < |k.vm.mem| then Some(Cow.OwnPage(ContentOf(k.vm.mem[p.frame]), p.w || p.cow)) else None
  }

  /** In every run of the kernel's page tables under copy-on-write fork, every program finds in every page
      what it would find if fork had copied page by page, but for the window page and for a page of a
      child that fork is in the middle of. */
  lemma KernelForkRefinesEagerCopy(ks: seq<Kern>, ss: seq<Cow.State>, ls: seq<Cow.Step>, at: seq<nat>, n: nat, e: nat,
                                   pn: nat)
    requires Beside(ks, ss, ls, at) && Agrees(ks[0], ss[0]) && Cow.Quiet(ss[0]) && n < |ks|
    requires pn != Cow.TEMP && !Cow.Pending(ss[at[n]].envs, e, pn)
    ensures at[n] <= |ls| && |ss| == |ls| + 1 && KValid(ks[n])
    ensures Found(ks[n], e, pn) == Cow.Own(Cow.EagerRun(Cow.View(ss[0]), ss, ls, at[n]), e, pn)
  {
    var k, s := ks[n], ss[at[n]];
    hide Agrees, MemoryKept, Performs, Cow.Enabled, Cow.Next, Cow.EagerRun, Cow.View, Cow.Own;
    RunAgrees(ks, ss, ls, at, n);
    Cow.ForkRefinesEagerCopy(ss, ls, at[n]);
    Cow.ViewOwn(s);
    FoundIsSeen(k, s, e, pn);
  }

  lemma FoundIsSeen(k: Kern, s: Cow.State, e: nat, pn: nat)
    requires Agrees(k, s) && pn != Cow.TEMP && !Cow.Pending(s.envs, e, pn)
    ensures KValid(k) && Found(k, e, pn) == Cow.Sees(s, e, pn)
  {
    assert KValid(k);
    hide KValid, PteAt, DataPage;
    if Live(k, e) {
      AgreesAt(k, s, e, pn);
    } else {
      assert e !in s.envs;
    }
  }
}
