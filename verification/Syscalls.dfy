/** The system calls of kern/syscall.c that change environments and mappings, as functions on a
    value, for a caller running in slot `cur`.  Permission words are their low twelve bits: the
    code refuses every other bit. */
module Syscalls {
  import opened Mmu
  import opened Pmap
  import opened EnvVm
  import opened Envs

  function PermOk(perm: Flags): bool {
    perm & (PTE_U | PTE_P) == PTE_U | PTE_P && perm & !PTE_SYSCALL == 0
  }

  /** The address space of slot i. */
  function Space(k: Kern, i: nat): Frame
    requires KValid(k) && Live(k, i)
  {
    k.envs[i].pgdir.value
  }

  function Mapping(k: Kern, i: nat, va: Addr): Option<Word>
    requires KValid(k) && Live(k, i)
  {
    Entry(k.vm, Space(k, i), PDX(va), PTX(va))
  }

  /** Mappings, reference counts, environments and both free lists are as before. */
  ghost predicate Unchanged(k: Kern, k': Kern) {
    && k'.envs == k.envs && k'.free == k.free
    && k'.vm == k.vm.(mem := k'.vm.mem) && SameEntries(k.vm, k'.vm)
  }

  /** Address spaces agree but for page va of slot i, which is now e. */
  ghost predicate OnePageChanged(k: Kern, k': Kern, i: nat, va: Addr, e: Option<Word>)
    requires KValid(k) && Live(k, i)
  {
    OneEntryChanged(k.vm, k'.vm, Space(k, i), PDX(va), PTX(va), e)
  }

  // ------------------------------------------------------------------
  // sys_page_alloc, sys_page_map, sys_page_unmap.
  // ------------------------------------------------------------------

  /** page_insert into the address space of slot i. */
  function MapInto(k: Kern, i: nat, va: Addr, pp: Frame, perm: Flags): (Kern, bool)
    requires KValid(k) && Live(k, i) && pp < |k.vm.ref|
  {
    var (s', ok) := Insert(k.vm, Space(k, i), PDX(va), PTX(va), pp, perm);
    (k.(vm := s'), ok)
  }

  /** pp_ref of pp has room for one more mapping, at page va of slot i. */
  predicate Room(k: Kern, i: nat, va: Addr, pp: nat)
    requires KValid(k) && Live(k, i) && pp < |k.vm.ref|
  {
    k.vm.ref[pp] < 0xFFFF || (Mapping(k, i, va).Some? && Mapping(k, i, va).value.frame == pp)
  }

  /** There is no page table for page va of slot i, nor a frame for one. */
  predicate NoTableFor(k: Kern, i: nat, va: Addr)
    requires KValid(k) && Live(k, i)
  {
    Table(k.vm, Space(k, i), PDX(va)).None? && k.vm.free == []
  }

  lemma SameRootsValid(k: Kern, k': Kern)
    requires KValid(k) && Valid(k'.vm) && k'.vm.roots == k.vm.roots && k'.envs == k.envs && k'.free == k.free
    ensures KValid(k')
  {
    hide Valid;
    SameOwners(k, k');
  }

  lemma MapIntoCorrect(k: Kern, i: nat, va: Addr, pp: Frame, perm: Flags)
    requires KValid(k) && Live(k, i) && va < UTOP && DataPage(k.vm, pp)
    ensures var (k', ok) := MapInto(k, i, va, pp, perm);
            && (ok <==> !NoTableFor(k, i, va)) && (!ok ==> k' == k)
            && (ok ==> OnePageChanged(k, k', i, va, Some(Word(pp, perm | PTE_P))))
            && k'.envs == k.envs && k'.free == k.free && k'.vm.roots == k.vm.roots
            && (ok ==> (KValid(k') <==> Room(k, i, va, pp)))
            && (ok ==> forall g: nat :: Known(k'.vm, g) <==> Known(k.vm, g) || g == pp)
  {
    hide Insert, Refers, Valid, PDX, PTX, Known, Entry;
    assert PDX(va) < UTOPX by { UserIndexes(va); }
    var r := Space(k, i);
    assert r as nat in k.vm.roots;
    InsertFails(k.vm, r, PDX(va), PTX(va), pp, perm);
    var (k', ok) := MapInto(k, i, va, pp, perm);
    if ok {
      InsertCorrect(k.vm, r, PDX(va), PTX(va), pp, perm);
      if Room(k, i, va, pp) {
        SameRootsValid(k, k');
      }
    }
  }

  /** The permissions that system calls accept: present and user, and besides them only write access and
      the three bits left to software. */
  lemma PermOkBits(perm: Flags)
    ensures PermOk(perm) <==> perm & 0x005 == 0x005 && perm & 0x1F8 == 0
  {
  }

  predicate UserPage(va: Addr) {
    va < UTOP && PGOFF(va) == 0
  }

  lemma LookupLive(k: Kern, cur: nat, envid: int, checkperm: bool)
    requires KValid(k) && Live(k, cur)
    ensures Lookup(k, cur, envid, checkperm).Some? ==> Live(k, Lookup(k, cur, envid, checkperm).value)
  {
  }

  lemma AllocKValid(k: Kern)
    requires KValid(k) && k.vm.free != []
    ensures k.vm.free[0] < |k.vm.ref| <= 0x10_0000 && KValid(k.(vm := AllocZero(k.vm)))
    ensures DataPage(AllocZero(k.vm), k.vm.free[0]) && AllocZero(k.vm).ref[k.vm.free[0]] == 0
  {
    AllocZeroValid(k.vm);
    SameRootsValid(k, k.(vm := AllocZero(k.vm)));
    HeldCount(AllocZero(k.vm), k.vm.free[0]);
  }

  function SysPageAlloc(k: Kern, cur: nat, envid: int, va: Addr, perm: Flags): (Kern, int)
    requires KValid(k) && Live(k, cur)
  {
    match Lookup(k, cur, envid, true)
    case None => (k, E_BAD_ENV)
    case Some(i) =>
      if !UserPage(va) || !PermOk(perm) then (k, E_INVAL)
      else if k.vm.free == [] then (k, E_NO_MEM)
      else
        AllocKValid(k);
        var pp := k.vm.free[0];
        var (k', ok) := MapInto(k.(vm := AllocZero(k.vm)), i, va, pp, perm);
        if ok then (k', 0) else (k'.(vm := k'.vm.(free := [pp] + k'.vm.free)), E_NO_MEM)
  }

  /** Memory runs out: there is no frame, or only one and the page needs a page table too. */
  predicate NoPageFor(k: Kern, i: nat, va: Addr)
    requires KValid(k)
  {
    k.vm.free == [] || (|k.vm.free| == 1 && Live(k, i) && Table(k.vm, Space(k, i), PDX(va)).None?)
  }

  /** sys_page_alloc maps one fresh zeroed page, or reports an error and changes nothing. */
  lemma SysPageAllocCorrect(k: Kern, cur: nat, envid: int, va: Addr, perm: Flags)
    requires KValid(k) && Live(k, cur)
    ensures var (k', r) := SysPageAlloc(k, cur, envid, va, perm);
            && KValid(k')
            && (r != 0 ==> Unchanged(k, k'))
            && (r == E_BAD_ENV <==> Lookup(k, cur, envid, true).None?)
            && (r == E_INVAL <==> r != E_BAD_ENV && !(UserPage(va) && PermOk(perm)))
            && (r == 0 || r == E_BAD_ENV || r == E_INVAL || r == E_NO_MEM)
            && (r == E_NO_MEM <==> Lookup(k, cur, envid, true).Some? && UserPage(va) && PermOk(perm) &&
                                   NoPageFor(k, Lookup(k, cur, envid, true).value, va))
            && (r == 0 ==>
                  var i, pp := Lookup(k, cur, envid, true).value, k.vm.free[0];
                  && k.vm.free != [] && Live(k, i) && pp < 0x10_0000
                  && OnePageChanged(k, k', i, va, Some(Word(pp, perm | PTE_P)))
                  && k'.envs == k.envs && k'.free == k.free
                  && pp < |k'.vm.mem| && k'.vm.mem[pp] == ZeroPage())
            && (forall g: nat :: Known(k'.vm, g) <==> Known(k.vm, g))
  {
    hide Valid, MapInto, PermOk, UserPage, Unchanged, Known, AllocZero, Lookup, FreeSlots, IdsOk, PgdirsOk, RecvOk;
    hide Table, PDX;
    match Lookup(k, cur, envid, true)
    case None => UnchangedRefl(k);
    case Some(i) =>
      LookupLive(k, cur, envid, true);
      UnchangedRefl(k);
      if UserPage(va) && PermOk(perm) && k.vm.free != [] {
        PageAllocInserts(k, i, va, perm);
      }
  }

  lemma UnchangedRefl(k: Kern)
    ensures Unchanged(k, k)
  {
  }

  lemma AllocKeepsTables(k: Kern, i: nat, va: Addr)
    requires KValid(k) && Live(k, i) && va < UTOP && k.vm.free != []
    ensures k.vm.free[0] < |k.vm.mem| && |AllocZero(k.vm).free| == |k.vm.free| - 1
    ensures Table(AllocZero(k.vm), Space(k, i), PDX(va)) == Table(k.vm, Space(k, i), PDX(va))
  {
    UserIndexes(va);
    AllocZeroValid(k.vm);
    EntryRefers(k.vm, Space(k, i), PDX(va), 0);
    EntryRefers(AllocZero(k.vm), Space(k, i), PDX(va), 0);
  }

  /** page_alloc, page_insert, and page_free if that failed. */
  lemma PageAllocInserts(k: Kern, i: nat, va: Addr, perm: Flags)
    requires KValid(k) && Live(k, i) && UserPage(va) && k.vm.free != [] && PermOk(perm)
    ensures k.vm.free[0] < |k.vm.ref| <= 0x10_0000 && KValid(k.(vm := AllocZero(k.vm)))
    ensures var pp := k.vm.free[0];
            var (k1, ok) := MapInto(k.(vm := AllocZero(k.vm)), i, va, pp, perm);
            var k2 := k1.(vm := k1.vm.(free := [pp] + k1.vm.free));
            && (ok ==>
                  && KValid(k1) && k1.envs == k.envs && k1.free == k.free
                  && OnePageChanged(k, k1, i, va, Some(Word(pp, perm | PTE_P)))
                  && pp < |k1.vm.mem| && k1.vm.mem[pp] == ZeroPage()
                  && forall g: nat :: Known(k1.vm, g) <==> Known(k.vm, g))
            && (!ok ==> KValid(k2) && Unchanged(k, k2) && forall g: nat :: Known(k2.vm, g) <==> Known(k.vm, g))
            && (ok <==> !NoPageFor(k, i, va))
  {
    var pp := k.vm.free[0];
    AllocKValid(k);
    AllocZeroValid(k.vm);
    AllocKnown(k.vm);
    var k0 := k.(vm := AllocZero(k.vm));
    assert k0.vm.mem[pp] == ZeroPage();
    AllocKeepsTables(k, i, va);
    hide Valid, Insert, Refers, PDX, PTX, Known, AllocZero, Entry;
    assert PDX(va) < UTOPX by { UserIndexes(va); }
    MapIntoCorrect(k0, i, va, pp, perm);
    var (k1, ok) := MapInto(k0, i, va, pp, perm);
    assert Known(k.vm, pp);
    if ok {
      InsertKeepsContents(k0.vm, Space(k0, i), PDX(va), PTX(va), pp, perm, pp);
    } else {
      FreeValid(k0.vm, pp);
      assert k.vm.free == [pp] + k0.vm.free;
      SameRootsValid(k, k1.(vm := k1.vm.(free := [pp] + k1.vm.free)));
      SameMemory(k0.vm, k0.vm.(free := [pp] + k0.vm.free));
    }
  }

  /** The word that page_lookup's entry pointer points to: it does not test PTE_P. */
  function Source(k: Kern, i: nat, va: Addr): Option<Word>
    requires KValid(k) && Live(k, i)
  {
    match Table(k.vm, Space(k, i), PDX(va))
    case None => None
    case Some(table) => Some(At(k.vm, table, PTX(va)))
  }

  /** An entry that is not present is zero, and names frame 0. */
  lemma SourceCases(k: Kern, i: nat, va: Addr)
    requires KValid(k) && Live(k, i) && va < UTOP
    ensures Mapping(k, i, va).Some? ==> Source(k, i, va) == Mapping(k, i, va)
    ensures Mapping(k, i, va).None? && Source(k, i, va).Some? ==> Source(k, i, va) == Some(ZERO)
    ensures Source(k, i, va).Some? ==> Source(k, i, va).value.frame < |k.vm.ref|
    ensures 0 < |k.vm.ref| && 0 in k.vm.reserved
  {
    UserIndexes(va);
    if Mapping(k, i, va).Some? { MappedData(k, i, va); }
  }

  /** sys_page_map, unless it finds no page table for the source and reads through a pointer that was
      never set.  The test of the source's write permission compares `perm & PTE_W` with 1, so it is
      never true. */
  function SysPageMap(k: Kern, cur: nat, src: int, srcva: Addr, dst: int, dstva: Addr, perm: Flags): (Kern, int)
    requires KValid(k) && Live(k, cur) && MapReady(k, cur, src, srcva, dst, dstva, perm)
  {
    match (Lookup(k, cur, src, true), Lookup(k, cur, dst, true))
    case (Some(i), Some(j)) =>
      if !UserPage(srcva) || !UserPage(dstva) || !PermOk(perm) then (k, E_INVAL)
      else
        var w := Source(k, i, srcva).value;
        SourceCases(k, i, srcva);
        if w.flags & PTE_W == 0 && perm & PTE_W == 1 then (k, E_INVAL)
        else
          var (k', ok) := MapInto(k, j, dstva, w.frame, perm);
          (k', if ok then 0 else E_NO_MEM)
    case _ => (k, E_BAD_ENV)
  }

  /** sys_page_map gets as far as the source page. */
  predicate MapReaches(k: Kern, cur: nat, src: int, srcva: Addr, dst: int, dstva: Addr, perm: Flags)
    requires KValid(k) && Live(k, cur)
  {
    && Lookup(k, cur, src, true).Some? && Lookup(k, cur, dst, true).Some?
    && UserPage(srcva) && UserPage(dstva) && PermOk(perm)
  }

  /** If so, the source has a page table. */
  ghost predicate MapReady(k: Kern, cur: nat, src: int, srcva: Addr, dst: int, dstva: Addr, perm: Flags)
    requires KValid(k) && Live(k, cur)
  {
    MapReaches(k, cur, src, srcva, dst, dstva, perm) ==> Source(k, Lookup(k, cur, src, true).value, srcva).Some?
  }

  lemma MappedData(k: Kern, i: nat, va: Addr)
    requires KValid(k) && Live(k, i) && va < UTOP && Mapping(k, i, va).Some?
    ensures Mapping(k, i, va).value.frame < |k.vm.ref| && DataPage(k.vm, Mapping(k, i, va).value.frame)
    ensures Known(k.vm, Mapping(k, i, va).value.frame)
  {
    UserIndexes(va);
    var r, d, t := Space(k, i), PDX(va), PTX(va);
    EntryRefers(k.vm, r, d, t);
    var f := Mapping(k, i, va).value.frame;
    assert Refers(k.vm, PteSlot(r, d, t)) == Some(f as nat);
    hide Refers;
    forall x | Refers(k.vm, x) == Some(f as nat) ensures x.PteSlot? {
    }
  }

  /** What the mapping of a source word, present or not, does to the destination. */
  lemma MapSourceCorrect(k: Kern, i: nat, srcva: Addr, j: nat, dstva: Addr, perm: Flags)
    requires KValid(k) && Live(k, i) && Live(k, j) && srcva < UTOP && dstva < UTOP && Source(k, i, srcva).Some?
    ensures Source(k, i, srcva).value.frame < |k.vm.ref|
    ensures var f := Source(k, i, srcva).value.frame;
            var (k', ok) := MapInto(k, j, dstva, f, perm);
            && (ok <==> !NoTableFor(k, j, dstva)) && (!ok ==> k' == k)
            && k'.envs == k.envs && k'.free == k.free && k'.vm.roots == k.vm.roots
            && (ok ==> OnePageChanged(k, k', j, dstva, Some(Word(f, perm | PTE_P))))
            && (ok ==> (KValid(k') <==> Mapping(k, i, srcva).Some? && Room(k, j, dstva, f)))
            && (ok && Mapping(k, i, srcva).Some? ==> forall g: nat :: Known(k'.vm, g) <==> Known(k.vm, g))
  {
    SourceCases(k, i, srcva);
    hide Valid, Known, Entry, Insert, Refers, PDX, PTX;
    if Mapping(k, i, srcva).Some? {
      MappedData(k, i, srcva);
      MapIntoCorrect(k, j, dstva, Mapping(k, i, srcva).value.frame, perm);
    } else {
      assert PDX(dstva) < UTOPX by { UserIndexes(dstva); }
      InsertFails(k.vm, Space(k, j), PDX(dstva), PTX(dstva), 0, perm);
      if MapInto(k, j, dstva, 0, perm).1 {
        InsertReserved(k.vm, Space(k, j), PDX(dstva), PTX(dstva), 0, perm);
      }
    }
  }

  /** sys_page_map shares one page, or reports an error and changes nothing.  A source page that is not
      mapped is no error: frame 0 is mapped instead, and the invariant lost. */
  lemma SysPageMapCorrect(k: Kern, cur: nat, src: int, srcva: Addr, dst: int, dstva: Addr, perm: Flags)
    requires KValid(k) && Live(k, cur) && MapReady(k, cur, src, srcva, dst, dstva, perm)
    ensures var (k', r) := SysPageMap(k, cur, src, srcva, dst, dstva, perm);
            && (r == 0 || r == E_BAD_ENV || r == E_INVAL || r == E_NO_MEM)
            && (r == E_BAD_ENV <==> Lookup(k, cur, src, true).None? || Lookup(k, cur, dst, true).None?)
            && (r == E_INVAL <==> r != E_BAD_ENV && !(UserPage(srcva) && UserPage(dstva) && PermOk(perm)))
            && (r != 0 ==> k' == k)
            && (r == 0 || r == E_NO_MEM ==>
                  var i, j := Lookup(k, cur, src, true).value, Lookup(k, cur, dst, true).value;
                  && Live(k, i) && Live(k, j) && Source(k, i, srcva).Some?
                  && (r == E_NO_MEM <==> NoTableFor(k, j, dstva)))
            && (r == 0 ==>
                  var i, j := Lookup(k, cur, src, true).value, Lookup(k, cur, dst, true).value;
                  var f := Source(k, i, srcva).value.frame;
                  && f < |k.vm.ref| && f == (match Mapping(k, i, srcva) { case Some(w) => w.frame case None => 0 })
                  && OnePageChanged(k, k', j, dstva, Some(Word(f, perm | PTE_P)))
                  && k'.envs == k.envs && k'.free == k.free
                  && (Mapping(k, i, srcva).Some? ==> forall g: nat :: Known(k'.vm, g) <==> Known(k.vm, g))
                  && (KValid(k') <==> Mapping(k, i, srcva).Some? && Room(k, j, dstva, f)))
  {
    hide Valid, MapInto, UserPage, PermOk, Known, Lookup, FreeSlots, IdsOk, PgdirsOk, RecvOk, OnePageChanged, Room;
    hide PGOFF;
    hide Entry, PDX, PTX, Table, At, NoTableFor;
    assert perm & PTE_W != 1;
    LookupLive(k, cur, src, true);
    LookupLive(k, cur, dst, true);
    match (Lookup(k, cur, src, true), Lookup(k, cur, dst, true))
    case (Some(i), Some(j)) =>
      if UserPage(srcva) && UserPage(dstva) && PermOk(perm) {
        assert srcva < UTOP && dstva < UTOP by { UserPageBelow(srcva); UserPageBelow(dstva); }
        assert Source(k, i, srcva).Some?;
        hide Source;
        SourceCases(k, i, srcva);
        MapSourceCorrect(k, i, srcva, j, dstva, perm);
      }
    case _ =>
  }

  lemma UserPageBelow(va: Addr)
    requires UserPage(va)
    ensures va < UTOP
  {
  }

  /** A success grants write access exactly if asked to, so the promise not to make a read-only page
      writable is kept exactly when the caller does not ask for that. */
  lemma SysPageMapGrantsWrite(k: Kern, cur: nat, src: int, srcva: Addr, dst: int, dstva: Addr, perm: Flags)
    requires KValid(k) && Live(k, cur) && MapReady(k, cur, src, srcva, dst, dstva, perm)
    requires SysPageMap(k, cur, src, srcva, dst, dstva, perm).1 == 0
    ensures Lookup(k, cur, src, true).Some? && Lookup(k, cur, dst, true).Some?
    ensures var i, j := Lookup(k, cur, src, true).value, Lookup(k, cur, dst, true).value;
            && Live(k, i) && Live(k, j) && Source(k, i, srcva).Some?
            && var k' := SysPageMap(k, cur, src, srcva, dst, dstva, perm).0;
            var e := Entry(k'.vm, Space(k, j), PDX(dstva), PTX(dstva));
            && e.Some?
            && (e.value.flags & PTE_W != 0 <==> perm & PTE_W != 0)
            && ((e.value.flags & PTE_W != 0 ==> Source(k, i, srcva).value.flags & PTE_W != 0) <==>
                !(perm & PTE_W != 0 && Source(k, i, srcva).value.flags & PTE_W == 0))
  {
    hide SysPageMap, Valid, Entry, PDX, PTX, Room, Known, Source, MapReaches;
    SysPageMapCorrect(k, cur, src, srcva, dst, dstva, perm);
    assert (perm | PTE_P) & PTE_W == perm & PTE_W;
  }

  /** sys_page_unmap, when the page is mapped or has no page table. */
  function SysPageUnmap(k: Kern, cur: nat, envid: int, va: Addr): (Kern, int)
    requires KValid(k) && Live(k, cur)
  {
    match Lookup(k, cur, envid, true)
    case None => (k, E_BAD_ENV)
    case Some(i) =>
      if !UserPage(va) then (k, E_INVAL)
      else (k.(vm := Remove(k.vm, Space(k, i), PDX(va), PTX(va))), 0)
  }

  lemma SysPageUnmapCorrect(k: Kern, cur: nat, envid: int, va: Addr)
    requires KValid(k) && Live(k, cur)
    ensures var (k', r) := SysPageUnmap(k, cur, envid, va);
            && (r == 0 <==> Lookup(k, cur, envid, true).Some? && UserPage(va))
            && (r != 0 ==> k' == k)
            && (r == 0 ==>
                  var i := Lookup(k, cur, envid, true).value;
                  && Live(k, i)
                  && (Mapping(k, i, va).Some? ==>
                        && KValid(k') && OnePageChanged(k, k', i, va, None)
                        && forall g: nat :: Known(k'.vm, g) <==> Known(k.vm, g))
                  && (KValid(k') <==> Table(k.vm, Space(k, i), PDX(va)).None? || Mapping(k, i, va).Some?))
  {
    assert |k.vm.ref| == |k.vm.mem|;
    hide Valid, Remove, Known, Refers, Entry, PDX, PTX, Lookup;
    LookupLive(k, cur, envid, true);
    var (k', r) := SysPageUnmap(k, cur, envid, va);
    if r == 0 {
      var i := Lookup(k, cur, envid, true).value;
      var rr, d, t := Space(k, i), PDX(va), PTX(va);
      assert d < UTOPX by { UserIndexes(va); }
      RemoveValidIff(k.vm, rr, d, t);
      if Mapping(k, i, va).Some? {
        RemovePresent(k.vm, rr, d, t);
        EntryRefers(k.vm, rr, d, t);
        KnownAfterRelease(k.vm, k'.vm, PteSlot(rr, d, t), Mapping(k, i, va).value.frame);
        SameRootsValid(k, k');
      } else if Table(k.vm, rr, d).None? {
        RemoveNothing(k.vm, rr, d, t);
      }
    }
  }

  // ------------------------------------------------------------------
  // sys_exofork and sys_env_set_status.
  // ------------------------------------------------------------------

  function SysExofork(k: Kern, cur: nat): (Kern, int)
    requires KValid(k) && Live(k, cur)
  {
    EnvAllocValid(k, k.envs[cur].id);
    var (k1, r) := EnvAlloc(k, k.envs[cur].id);
    match r
    case Error(e) => (k, e)
    case Done(i) =>
      (k1.(envs := k1.envs[i := k1.envs[i].(status := NotRunnable, tf := k.envs[cur].tf.(eax := 0))]), k1.envs[i].id)
  }

  /** sys_exofork makes a blocked child with the caller's registers, a result of 0, an id of its own
      and an empty address space; or it reports an error and changes nothing. */
  lemma SysExoforkCorrect(k: Kern, cur: nat)
    requires KValid(k) && Live(k, cur)
    ensures var (k', r) := SysExofork(k, cur);
            && KValid(k')
            && (r <= 0 ==> k' == k && r == if k.free == [] then E_NO_FREE_ENV else E_NO_MEM)
            && (r > 0 ==>
                  var i := EnvX(r);
                  && k.free != [] && i == k.free[0] && !Live(k, i) && Live(k', i) && i != cur
                  && k'.envs[i].id == r == NextId(k.envs[i].id, i)
                  && k'.envs[i].parent == k.envs[cur].id && k'.envs[i].status == NotRunnable
                  && k'.envs[i].tf == k.envs[cur].tf.(eax := 0) && !k'.envs[i].recving && k'.envs[i].upcall == 0
                  && (forall va: Addr | va < UTOP :: Mapping(k', i, va).None?)
                  && (forall j: nat | j < NENV && j != i :: k'.envs[j] == k.envs[j])
                  && (forall j: nat, va: Addr | Live(k, j) && va < UTOP :: Mapping(k', j, va) == Mapping(k, j, va)))
  {
    hide Valid, Entry, Setup, NextId, PDX, PTX;
    EnvAllocValid(k, k.envs[cur].id);
    SetupCorrect(k.vm);
    var (k1, e) := EnvAlloc(k, k.envs[cur].id);
    var (k', r) := SysExofork(k, cur);
    if e.Done? {
      var i := e.n;
      assert i in k.free && k1.envs[i] == FreshEnv(k.envs[i], i, k.envs[cur].id, k1.envs[i].pgdir.value);
      assert EnvX(r) == i;
      StatusKept(k1, k', i);
      forall va: Addr | va < UTOP ensures PDX(va) < UTOPX {
        UserIndexes(va);
      }
    }
  }

  /** Changes of one environment that leave its identity alone. */
  lemma StatusKept(k: Kern, k': Kern, i: nat)
    requires KValid(k) && Live(k, i) && k'.vm == k.vm && k'.free == k.free
    requires |k'.envs| == |k.envs| && k'.envs == k.envs[i := k'.envs[i]] && !k'.envs[i].status.Free?
    requires k'.envs[i].id == k.envs[i].id && k'.envs[i].pgdir == k.envs[i].pgdir
    ensures KValid(k') <==> (k'.envs[i].recving ==> k'.envs[i].status.NotRunnable?)
  {
    hide Valid, FreeSlots, IdsOk, PgdirsOk;
    assert forall j: nat | j < |k.envs| && j != i :: k'.envs[j] == k.envs[j];
    SameOwners(k, k');
    hide SameOwnersEnvs, Live;
    assert RecvOk(k') <==> (k'.envs[i].recving ==> k'.envs[i].status.NotRunnable?);
  }

  /** The parts of the invariant that depend on which slots are live, their ids and page directories. */
  ghost predicate SameOwnersEnvs(k: Kern, k': Kern) {
    && |k'.envs| == |k.envs| && k'.vm.roots == k.vm.roots && k'.free == k.free
    && forall j: nat | j < |k.envs| ::
         && k'.envs[j].id == k.envs[j].id && k'.envs[j].pgdir == k.envs[j].pgdir
         && k'.envs[j].status.Free? == k.envs[j].status.Free?
  }

  lemma SameOwners(k: Kern, k': Kern)
    requires FreeSlots(k) && IdsOk(k) && PgdirsOk(k) && SameOwnersEnvs(k, k')
    ensures FreeSlots(k') && IdsOk(k') && PgdirsOk(k')
  {
    SameFreeSlots(k, k');
    SamePgdirs(k, k');
    hide FreeSlots, PgdirsOk, IdOk;
  }

  lemma SameFreeSlots(k: Kern, k': Kern)
    requires FreeSlots(k) && SameOwnersEnvs(k, k')
    ensures FreeSlots(k')
  {
  }

  lemma SamePgdirs(k: Kern, k': Kern)
    requires PgdirsOk(k) && SameOwnersEnvs(k, k')
    ensures PgdirsOk(k')
  {
    assert forall j: nat :: Live(k', j) == Live(k, j);
    assert forall j: nat | j < |k.envs| :: k'.envs[j].pgdir == k.envs[j].pgdir;
    assert |k'.envs| == |k.envs| && k'.vm.roots == k.vm.roots;
    assert forall j: nat | Live(k, j) :: j < |k.envs|;
    hide Live, SameOwnersEnvs;
    SameDirOwners(k, k');
  }

  lemma SameDirOwners(k: Kern, k': Kern)
    requires PgdirsOk(k) && |k'.envs| == |k.envs| && k'.vm.roots == k.vm.roots
    requires forall j: nat :: Live(k', j) == Live(k, j)
    requires forall j: nat | j < |k.envs| :: k'.envs[j].pgdir == k.envs[j].pgdir
    ensures PgdirsOk(k')
  {
    assert forall j: nat | Live(k, j) :: j < |k.envs|;
    hide Live;
    forall r: nat | r in k'.vm.roots ensures exists j: nat :: Live(k', j) && k'.envs[j].pgdir.value == r {
      var j: nat :| Live(k, j) && k.envs[j].pgdir.value == r;
      assert Live(k', j);
    }
  }

  function StatusOf(status: int): Option<Status> {
    if status == 2 then Some(Runnable) else if status == 4 then Some(NotRunnable) else None
  }

  function SysEnvSetStatus(k: Kern, cur: nat, envid: int, status: int): (Kern, int)
    requires KValid(k) && Live(k, cur)
  {
    if StatusOf(status).None? then (k, E_INVAL) else
    match Lookup(k, cur, envid, true)
    case None => (k, E_BAD_ENV)
    case Some(i) => (k.(envs := k.envs[i := k.envs[i].(status := StatusOf(status).value)]), 0)
  }

  /** sys_env_set_status sets the status of the caller, or of one of its children, to ENV_RUNNABLE (2) or
      ENV_NOT_RUNNABLE (4), and nothing else, or reports the right error and changes nothing.  It does not
      look at the old status: it keeps receivers blocked exactly when it does not make one runnable. */
  lemma SysEnvSetStatusCorrect(k: Kern, cur: nat, envid: int, status: int)
    requires KValid(k) && Live(k, cur)
    ensures var (k', r) := SysEnvSetStatus(k, cur, envid, status);
            && (r == 0 || r == E_INVAL || r == E_BAD_ENV)
            && (r == E_INVAL <==> status != 2 && status != 4)
            && (r == E_BAD_ENV <==> (status == 2 || status == 4) && Lookup(k, cur, envid, true).None?)
            && (r != 0 ==> k' == k)
            && (r == 0 ==>
                  var i := Lookup(k, cur, envid, true).value;
                  && Live(k, i) && k'.vm == k.vm && k'.free == k.free && |k'.envs| == NENV
                  && (forall j: nat | j < NENV && j != i :: k'.envs[j] == k.envs[j])
                  && k'.envs[i].status == (if status == 2 then Runnable else NotRunnable)
                  && k'.envs[i] == k.envs[i].(status := k'.envs[i].status)
                  && (KValid(k') <==> !(k.envs[i].recving && status == 2)))
  {
    assert |k.envs| == NENV;
    hide Valid, FreeSlots, IdsOk, PgdirsOk, RecvOk, Lookup;
    LookupLive(k, cur, envid, true);
    var (k', r) := SysEnvSetStatus(k, cur, envid, status);
    if r == 0 {
      StatusKept(k, k', Lookup(k, cur, envid, true).value);
    }
  }

  // ------------------------------------------------------------------
  // IPC.
  // ------------------------------------------------------------------

  /** The fields sys_ipc_try_send fills in. */
  function Delivered(e: Env, value: int, from: int): Env {
    e.(recving := false, from := from, value := value, status := Runnable, tf := e.tf.(eax := 0))
  }

  function SysIpcTrySend(k: Kern, cur: nat, envid: int, value: int, srcva: Addr, perm: Flags): (Kern, int)
    requires KValid(k) && Live(k, cur)
  {
    match Lookup(k, cur, envid, false)
    case None => (k, E_BAD_ENV)
    case Some(i) => LookupLive(k, cur, envid, false); SendTo(k, cur, i, value, srcva, perm)
  }

  /** sys_ipc_try_send, once the receiver is known. */
  function SendTo(k: Kern, cur: nat, i: nat, value: int, srcva: Addr, perm: Flags): (Kern, int)
    requires KValid(k) && Live(k, cur) && Live(k, i)
  {
    if !k.envs[i].recving then (k, E_IPC_NOT_RECV)
    else if srcva < UTOP then
      if Source(k, cur, srcva).None? then (k, E_INVAL)
      else
        var w := Source(k, cur, srcva).value;
        SourceCases(k, cur, srcva);
        if !PermOk(perm) || (perm & PTE_W != 0 && w.flags & PTE_W == 0) || PGOFF(srcva) != 0 then (k, E_INVAL)
        else if k.envs[i].dstva < UTOP then
          var (k1, ok) := MapInto(k, i, k.envs[i].dstva, w.frame, perm);
          if !ok then (k1, E_NO_MEM)
          else (Deliver(k1, i, value, k.envs[cur].id, Some(perm)), 0)
        else (Deliver(k, i, value, k.envs[cur].id, None), 0)
    else (Deliver(k, i, value, k.envs[cur].id, None), 0)
  }

  function Deliver(k: Kern, i: nat, value: int, from: int, perm: Option<Flags>): Kern {
    if i >= |k.envs| then k else
    var e := Delivered(k.envs[i], value, from);
    k.(envs := k.envs[i := match perm { case None => e case Some(p) => e.(perm := p) }])
  }

  /** What is wrong with a page to send. */
  predicate BadPage(k: Kern, cur: nat, srcva: Addr, perm: Flags)
    requires KValid(k) && Live(k, cur)
  {
    || Source(k, cur, srcva).None? || !PermOk(perm) || PGOFF(srcva) != 0
    || (perm & PTE_W != 0 && Source(k, cur, srcva).value.flags & PTE_W == 0)
  }

  /** Whether a send transfers a page. */
  ghost predicate Transfers(k: Kern, i: nat, srcva: Addr) {
    srcva < UTOP && i < |k.envs| && k.envs[i].dstva < UTOP
  }

  /** Receiver e has become e': it has the value and the sender's id, its sys_ipc_recv returns 0, and it is
      what it was but for env_ipc_perm. */
  ghost predicate Woken(e: Env, e': Env, value: int, sender: int) {
    && e'.value == value && e'.from == sender && !e'.recving && e'.status == Runnable
    && e'.tf.eax == 0 && e'.tf.others == e.tf.others
    && e'.id == e.id && e'.parent == e.parent && e'.pgdir == e.pgdir && e'.upcall == e.upcall && e'.dstva == e.dstva
  }

  /** Only slot i has changed: it has the value, is runnable, and has no page or the page that was sent. */
  ghost predicate Sent(k: Kern, k': Kern, cur: nat, i: nat, value: int, srcva: Addr, perm: Flags)
    requires KValid(k) && Live(k, cur) && Live(k, i)
  {
    && |k'.envs| == NENV && k'.free == k.free
    && Woken(k.envs[i], k'.envs[i], value, k.envs[cur].id)
    && (forall j: nat | j < NENV && j != i :: k'.envs[j] == k.envs[j])
    && (!Transfers(k, i, srcva) ==> k'.vm == k.vm && k'.envs[i].perm == k.envs[i].perm && KValid(k'))
    && (Transfers(k, i, srcva) ==> PageSent(k, k', cur, i, srcva, perm))
  }

  /** The receiver maps the sender's page; the invariant is kept exactly if it was mapped, and its count
      has room. */
  ghost predicate PageSent(k: Kern, k': Kern, cur: nat, i: nat, srcva: Addr, perm: Flags)
    requires KValid(k) && Live(k, cur) && Live(k, i) && |k'.envs| == NENV
  {
    Source(k, cur, srcva).Some? && PermOk(perm) &&
    var w := Source(k, cur, srcva).value;
    && (perm & PTE_W != 0 ==> w.flags & PTE_W != 0)
    && k'.envs[i].perm == perm
    && OnePageChanged(k, k', i, k.envs[i].dstva, Some(Word(w.frame, perm | PTE_P)))
    && w.frame < |k.vm.ref|
    && (KValid(k') <==> Mapping(k, cur, srcva).Some? && Room(k, i, k.envs[i].dstva, w.frame))
  }

  /** The result of a send to slot i: which error when, and what a success changes. */
  ghost predicate SendOutcome(k: Kern, k': Kern, r: int, cur: nat, i: nat, value: int, srcva: Addr, perm: Flags)
    requires KValid(k) && Live(k, cur) && Live(k, i)
  {
    && (r == E_IPC_NOT_RECV <==> !k.envs[i].recving)
    && (r == E_INVAL <==> k.envs[i].recving && srcva < UTOP && BadPage(k, cur, srcva, perm))
    && (r == E_NO_MEM <==> && k.envs[i].recving && r != E_INVAL
                           && Transfers(k, i, srcva) && NoTableFor(k, i, k.envs[i].dstva))
    && (r == 0 || r == E_IPC_NOT_RECV || r == E_INVAL || r == E_NO_MEM)
    && (r == 0 ==> Sent(k, k', cur, i, value, srcva, perm))
  }

  /** sys_ipc_try_send delivers the value, and the page if one is sent and wanted, to a receiver that
      it unblocks; or it reports an error and changes nothing.  As in sys_page_map, a page that is not
      mapped but has a page table goes as frame 0. */
  lemma SysIpcTrySendCorrect(k: Kern, cur: nat, envid: int, value: int, srcva: Addr, perm: Flags)
    requires KValid(k) && Live(k, cur)
    ensures var (k', r) := SysIpcTrySend(k, cur, envid, value, srcva, perm);
            && r <= 0 && (r < 0 ==> k' == k)
            && match Lookup(k, cur, envid, false)
               case None => r == E_BAD_ENV
               case Some(i) => Live(k, i) && SendOutcome(k, k', r, cur, i, value, srcva, perm)
  {
    assert |k.envs| == NENV && cur < NENV;
    hide KValid, Lookup, SendTo, SendOutcome, Live;
    LookupLive(k, cur, envid, false);
    if Lookup(k, cur, envid, false).Some? {
      SendToCorrect(k, cur, Lookup(k, cur, envid, false).value, value, srcva, perm);
    }
  }

  lemma SendToCorrect(k: Kern, cur: nat, i: nat, value: int, srcva: Addr, perm: Flags)
    requires KValid(k) && Live(k, cur) && Live(k, i)
    ensures var (k', r) := SendTo(k, cur, i, value, srcva, perm);
            r <= 0 && (r < 0 ==> k' == k) && SendOutcome(k, k', r, cur, i, value, srcva, perm)
  {
    hide KValid, MapInto, PermOk, Known, OnePageChanged, Room, PGOFF;
    hide Source, NoTableFor, Sent, Deliver, Mapping;
    if k.envs[i].recving && Transfers(k, i, srcva) && Source(k, cur, srcva).Some? {
      MapSourceCorrect(k, cur, srcva, i, k.envs[i].dstva, perm);
      if PermOk(perm) && (perm & PTE_W != 0 ==> Source(k, cur, srcva).value.flags & PTE_W != 0) {
        PageIsSent(k, cur, i, value, srcva, perm);
      }
    }
    if k.envs[i].recving && !Transfers(k, i, srcva) {
      ValueIsSent(k, cur, i, value, srcva, perm);
    }
  }

  lemma ValueIsSent(k: Kern, cur: nat, i: nat, value: int, srcva: Addr, perm: Flags)
    requires KValid(k) && Live(k, cur) && Live(k, i) && k.envs[i].recving && !Transfers(k, i, srcva)
    ensures Sent(k, Deliver(k, i, value, k.envs[cur].id, None), cur, i, value, srcva, perm)
  {
    StatusKept(k, Deliver(k, i, value, k.envs[cur].id, None), i);
  }

  lemma PageIsSent(k: Kern, cur: nat, i: nat, value: int, srcva: Addr, perm: Flags)
    requires KValid(k) && Live(k, cur) && Live(k, i) && k.envs[i].recving && Transfers(k, i, srcva) && PermOk(perm)
    requires Source(k, cur, srcva).Some? && (perm & PTE_W != 0 ==> Source(k, cur, srcva).value.flags & PTE_W != 0)
    ensures Source(k, cur, srcva).value.frame < |k.vm.ref|
    ensures var (k1, ok) := MapInto(k, i, k.envs[i].dstva, Source(k, cur, srcva).value.frame, perm);
            ok ==> Sent(k, Deliver(k1, i, value, k.envs[cur].id, Some(perm)), cur, i, value, srcva, perm)
  {
    assert k.envs[i].status.NotRunnable?;
    hide Valid, MapInto, PermOk, Known, FreeSlots, IdsOk, PgdirsOk, RecvOk, Room;
    hide Entry, Refers, Source, NoTableFor, PDX, PTX, Mapping;
    MapSourceCorrect(k, cur, srcva, i, k.envs[i].dstva, perm);
    var f := Source(k, cur, srcva).value.frame;
    var (k1, ok) := MapInto(k, i, k.envs[i].dstva, f, perm);
    if ok {
      var k' := Deliver(k1, i, value, k.envs[cur].id, Some(perm));
      SentValid(k1, k', i);
      SameVmChanged(k, k1, k', i, k.envs[i].dstva, Some(Word(f, perm | PTE_P)));
    }
  }

  /** Waking the receiver neither breaks the invariant nor repairs it. */
  lemma SentValid(k: Kern, k': Kern, i: nat)
    requires |k.envs| == NENV && Live(k, i) && k'.vm == k.vm && k'.free == k.free
    requires |k'.envs| == |k.envs| && k'.envs == k.envs[i := k'.envs[i]] && k.envs[i].recving
    requires k'.envs[i].id == k.envs[i].id && k'.envs[i].pgdir == k.envs[i].pgdir
    requires k'.envs[i].status.Runnable? && !k'.envs[i].recving && k.envs[i].status.NotRunnable?
    ensures KValid(k') <==> KValid(k)
  {
    hide Valid, FreeSlots, IdsOk, PgdirsOk;
    assert forall j: nat | j < |k.envs| && j != i :: k'.envs[j] == k.envs[j];
    if KValid(k) { SameOwners(k, k'); }
    if KValid(k') { SameOwners(k', k); }
  }

  /** env_ipc_perm is nonzero exactly if a page came, as ipc_recv promises, exactly if one came or the
      field was zero before: a send without a page leaves it alone. */
  lemma PermTellsTransferIff(k: Kern, cur: nat, envid: int, value: int, srcva: Addr, perm: Flags)
    requires KValid(k) && Live(k, cur) && SysIpcTrySend(k, cur, envid, value, srcva, perm).1 == 0
    ensures Lookup(k, cur, envid, false).Some?
    ensures var k', i := SysIpcTrySend(k, cur, envid, value, srcva, perm).0, Lookup(k, cur, envid, false).value;
            && i < |k.envs| == |k'.envs|
            && ((k'.envs[i].perm != 0 <==> Transfers(k, i, srcva)) <==>
                (Transfers(k, i, srcva) || k.envs[i].perm == 0))
  {
    hide SysIpcTrySend, Valid, Entry, Lookup, PDX, PTX, BadPage, Room, Source;
    SysIpcTrySendCorrect(k, cur, envid, value, srcva, perm);
    assert PermOk(perm) ==> perm != 0;
  }

  lemma SameVmChanged(k: Kern, k1: Kern, k2: Kern, i: nat, va: Addr, e: Option<Word>)
    requires KValid(k) && Live(k, i) && OnePageChanged(k, k1, i, va, e) && k2.vm == k1.vm
    ensures OnePageChanged(k, k2, i, va, e)
  {
  }

  /** sys_ipc_recv, up to its call of sys_yield. */
  function SysIpcRecv(k: Kern, cur: nat, dstva: Addr): (Kern, int)
    requires KValid(k) && Live(k, cur)
  {
    if dstva < UTOP && PGOFF(dstva) != 0 then (k, E_INVAL)
    else (k.(envs := k.envs[cur := k.envs[cur].(recving := true, status := NotRunnable, dstva := dstva)]), 0)
  }

  /** sys_ipc_recv blocks the caller with its receive slot open, or refuses an unaligned address below
      UTOP and changes nothing. */
  lemma SysIpcRecvCorrect(k: Kern, cur: nat, dstva: Addr)
    requires KValid(k) && Live(k, cur)
    ensures var (k', r) := SysIpcRecv(k, cur, dstva);
            && KValid(k') && (r == 0 || r == E_INVAL)
            && (r == E_INVAL <==> dstva < UTOP && dstva % PGSIZE != 0) && (r != 0 ==> k' == k)
            && (r == 0 ==>
                  var e, e' := k.envs[cur], k'.envs[cur];
                  && e'.recving && e'.status.NotRunnable? && e'.dstva == dstva
                  && e' == e.(recving := true, status := NotRunnable, dstva := dstva)
                  && k'.vm == k.vm && k'.free == k.free && |k'.envs| == |k.envs|
                  && forall j: nat | j < NENV && j != cur :: k'.envs[j] == k.envs[j])
  {
    if SysIpcRecv(k, cur, dstva).1 == 0 {
      StatusKept(k, SysIpcRecv(k, cur, dstva).0, cur);
    }
  }

  // ------------------------------------------------------------------
  // env_destroy.
  // ------------------------------------------------------------------

  /** env_destroy(envs + i) for a caller running in slot `cur`, up to its call of sched_yield. */
  function EnvDestroy(k: Kern, cur: nat, i: nat): Kern
    requires KValid(k) && Live(k, cur) && Live(k, i)
  {
    if k.envs[i].status.Running? && i != cur then k.(envs := k.envs[i := k.envs[i].(status := Dying)])
    else EnvFreeValid(k, i); EnvFree(k, i)
  }

  /** env_destroy marks an environment that runs on another CPU as dying, and nothing else; any other
      one it frees: its slot goes to the head of env_free_list, its id and its address space go, and
      every other environment keeps all its mappings. */
  lemma EnvDestroyCorrect(k: Kern, cur: nat, i: nat)
    requires KValid(k) && Live(k, cur) && Live(k, i)
    ensures var k' := EnvDestroy(k, cur, i);
            && KValid(k') && |k'.envs| == |k.envs|
            && (forall j: nat | j < NENV && j != i :: k'.envs[j] == k.envs[j])
            && (if k.envs[i].status.Running? && i != cur then
                  k'.vm == k.vm && k'.free == k.free && k'.envs[i] == k.envs[i].(status := Dying)
                else
                  && !Live(k', i) && k'.free == [i] + k.free && k'.envs[i].pgdir == None
                  && k'.vm.roots == k.vm.roots - {Space(k, i) as nat}
                  && (forall j: nat, va: Addr | Live(k, j) && j != i && va < UTOP ::
                        Mapping(k', j, va) == Mapping(k, j, va))
                  && Lookup(k', cur, k.envs[i].id, false) == None)
  {
    if k.envs[i].status.Running? && i != cur {
      StatusKept(k, EnvDestroy(k, cur, i), i);
    } else {
      EnvFreeValid(k, i);
      MappingsOutlive(k, i);
      hide Valid, Teardown, FreeSlots, IdsOk, PgdirsOk, RecvOk, Mapping;
    }
  }

  /** No environment but the freed one loses a page. */
  lemma MappingsOutlive(k: Kern, i: nat)
    requires KValid(k) && Live(k, i)
    ensures k.envs[i].pgdir.Some? && k.envs[i].pgdir.value < |k.vm.mem| && KValid(EnvFree(k, i))
    ensures EnvFree(k, i).vm.roots == k.vm.roots - {Space(k, i) as nat}
    ensures forall j: nat | Live(k, j) && j != i :: Live(EnvFree(k, i), j)
    ensures forall j: nat, va: Addr | Live(k, j) && j != i && va < UTOP ::
              Mapping(EnvFree(k, i), j, va) == Mapping(k, j, va)
  {
    EnvFreeValid(k, i);
    hide Valid, Teardown, Entry, PDX, PTX, FreeSlots, RecvOk, IdOk;
    TeardownCorrect(k.vm, Space(k, i));
    var k' := EnvFree(k, i);
    forall j: nat, va: Addr | Live(k, j) && j != i && va < UTOP ensures Mapping(k', j, va) == Mapping(k, j, va) {
      assert PDX(va) < UTOPX by { UserIndexes(va); }
      assert Space(k, j) as nat in k'.vm.roots;
    }
  }
}
