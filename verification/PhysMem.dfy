/** The page allocator and the page table operations of kern/pmap.c, and the address space half of
    kern/env.c, in place: `mem` is physical memory, `ppRef` and `ppLink` are the fields of
    `pages[]`, and each method is proved to do what the function of the same purpose in Pmap or
    EnvVm does to the value `View()`. */
module PhysMem {
  import opened Mmu
  import opened Pmap
  import opened EnvVm
  import opened KernMap
  import opened FreeList

  /** A pointer to a page table entry: the table's frame and the index in it. */
  datatype Pte = Pte(table: Frame, index: Index)

  class Memory {
    const kern: Frame
    const mem: array<Page>
    const ppRef: array<nat>
    const ppLink: array<Option<nat>>
    var pageFreeList: Option<nat>

    ghost var free: seq<nat>
    ghost var roots: set<nat>
    ghost var reserved: set<nat>

    ghost function View(): State
      reads this, mem, ppRef
    {
      State(mem[..], ppRef[..], free, roots, kern, reserved)
    }

    /** page_free_list and the pp_link fields spell out `free`. */
    ghost predicate Linked()
      reads this, ppLink
    {
      IsList(ppLink[..], pageFreeList, free)
    }

    ghost predicate Ok()
      reads this, mem, ppRef, ppLink
    {
      && mem.Length == ppRef.Length == ppLink.Length <= 0x10_0000
      && kern < mem.Length
      && Linked()
    }

    // ----------------------------------------------------------------
    // page_init.
    // ----------------------------------------------------------------

    /** Whether page_init puts frame i on the free list: not frame 0, nor that of MPENTRY_PADDR, nor those
        from IOPHYSMEM up to the end of the kernel. */
    static predicate FreeAtBoot(i: nat, basemem: nat, kernEnd: nat) {
      i != 0 && i != 7 && (i < basemem || !(160 <= i < 256 || 160 <= i < kernEnd))
    }

    /** Whether frame i is the boot code's, if base memory does not reach into the I/O hole. */
    static predicate TakenAtBoot(i: nat, kernEnd: nat) {
      i == 0 || i == 7 || 160 <= i < kernEnd
    }

    /** mem_init up to page_init, on a machine whose memory holds `ram`: kern_pgdir cleared, its
        self-map, and a zeroed `pages[]`. */
    constructor (ram: seq<Page>, basemem: nat, kernEnd: nat, kernPgdir: Frame)
      requires 256 <= kernPgdir < kernEnd <= |ram| <= 0x10_0000 && basemem <= 160
      ensures Ok() && Valid(View()) && fresh(mem) && fresh(ppRef) && fresh(ppLink)
      ensures View().mem == ram[kernPgdir as nat := ZeroPage()[UVPTX := Word(kernPgdir, PTE_U | PTE_P)]]
      ensures roots == {} && kern == kernPgdir
      ensures forall i: nat :: i in free <==> i < |ram| && i !in reserved
      ensures forall i: nat :: i in reserved <==>
                i < |ram| && (i == 0 || i == 0x7000 / PGSIZE || 0xA_0000 / PGSIZE <= i < kernEnd)
    {
      kern := kernPgdir;
      mem := new Page[|ram|](i requires 0 <= i < |ram| => ram[i]);
      ppRef := new nat[|ram|](_ => 0);
      ppLink := new Option<nat>[|ram|](_ => None);
      pageFreeList := None;
      free := [];
      roots := {};
      reserved := set i: nat | i < |ram| && TakenAtBoot(i, kernEnd);
      new;
      MemInit(ram, basemem, kernEnd);
    }

    /** The clearing of kern_pgdir, its self-map, and page_init. */
    method MemInit(ghost ram: seq<Page>, basemem: nat, kernEnd: nat)
      requires mem.Length == ppRef.Length == ppLink.Length == |ram| <= 0x10_0000 && mem[..] == ram
      requires 256 <= kern < kernEnd <= |ram| && basemem <= 160 && free == [] && roots == {} && Linked()
      requires forall i: nat | i < ppRef.Length :: ppRef[i] == 0
      requires forall i: nat :: i in reserved <==> i < |ram| && TakenAtBoot(i, kernEnd)
      modifies this`free, this`pageFreeList, mem, ppRef, ppLink
      ensures Ok() && Valid(View())
      ensures View().mem == ram[kern as nat := ZeroPage()[UVPTX := Word(kern, PTE_U | PTE_P)]]
      ensures forall i: nat :: i in free <==> i < |ram| && i !in reserved
    {
      mem[kern] := ZeroPage();
      mem[kern] := mem[kern][UVPTX := Word(kern, PTE_U | PTE_P)];
      PageInit(basemem, kernEnd);
      SpellsDistinct(ppLink[..], pageFreeList, free);
      hide Valid, IsList;
      assert forall j: nat | j < |free| :: free[j] in free;
      BootState(View());
    }

    /** page_init. */
    method PageInit(basemem: nat, kernEnd: nat)
      requires ppRef.Length == ppLink.Length && free == [] && Linked()
      requires forall j: nat | j < ppRef.Length :: ppRef[j] == 0
      modifies this`free, this`pageFreeList, ppRef, ppLink
      ensures Linked()
      ensures forall j: nat :: j in free <==>
                && j < ppRef.Length && j != 0 && j != 0x7000 / PGSIZE
                && (j < basemem || !(0xA_0000 / PGSIZE <= j < 0x10_0000 / PGSIZE || 0xA_0000 / PGSIZE <= j < kernEnd))
      ensures forall j: nat | j < ppRef.Length :: ppRef[j] == if j in free || j == 0x7000 / PGSIZE then 0 else 1
    {
      for i := 0 to ppRef.Length
        invariant Linked()
        invariant forall j: nat :: j in free <==> j < i && FreeAtBoot(j, basemem, kernEnd)
        invariant forall j: nat | j < i :: ppRef[j] == if FreeAtBoot(j, basemem, kernEnd) || j == 7 then 0 else 1
        invariant forall j: nat | i <= j < ppRef.Length :: ppRef[j] == 0
      {
        if i == 0 {
          ppRef[i] := 1;
          ppLink[i] := None;
        } else if i == 0x7000 / PGSIZE {
        } else if i < basemem {
          PushFree(i);
        } else if 0xA0000 / PGSIZE <= i < 0x100000 / PGSIZE {
          ppRef[i] := 1;
        } else if 0xA0000 / PGSIZE <= i < kernEnd {
          ppRef[i] := 1;
          ppLink[i] := None;
        } else {
          PushFree(i);
        }
      }
    }

    /** The last lines of page_free, which page_init repeats. */
    method PushFree(pp: nat)
      requires pp < ppRef.Length == ppLink.Length && Linked() && pp !in free
      modifies this`free, this`pageFreeList, ppRef, ppLink
      ensures Linked() && free == [pp] + old(free)
      ensures ppRef[..] == old(ppRef[..])[pp := 0]
    {
      ListPush(ppLink[..], pageFreeList, free, pp);
      ppRef[pp] := 0;
      ppLink[pp] := pageFreeList;
      pageFreeList := Some(pp);
      free := [pp] + free;
      assert ppLink[..] == old(ppLink[..])[pp := old(pageFreeList)];
    }

    // ----------------------------------------------------------------
    // page_alloc, page_free, page_decref.
    // ----------------------------------------------------------------

    method PageAlloc(zero: bool) returns (pp: Option<Frame>)
      requires Ok()
      modifies this`free, this`pageFreeList, mem, ppLink
      ensures Ok()
      ensures pp == if old(free) == [] then None else Some(old(free)[0])
      ensures pp.None? ==> View() == old(View())
      ensures pp.Some? ==> View() == if zero then AllocZero(old(View())) else old(View()).(free := old(free)[1..])
    {
      match pageFreeList
      case None => return None;
      case Some(f) =>
        ListPop(ppLink[..], pageFreeList, free);
        pageFreeList := ppLink[f];
        ppLink[f] := None;
        free := free[1..];
        assert ppLink[..] == old(ppLink[..])[f as nat := None];
        if zero {
          mem[f] := ZeroPage();
        }
        pp := Some(f);
    }

    /** page_free, whose assertions are its preconditions. */
    method PageFree(pp: Frame)
      requires Ok() && pp < ppRef.Length && ppRef[pp] == 0 && pp !in free
      modifies this`free, this`pageFreeList, ppLink
      ensures Ok() && free == [pp] + old(free)
    {
      assert ppLink[pp] == None;
      ListPush(ppLink[..], pageFreeList, free, pp);
      ppLink[pp] := pageFreeList;
      pageFreeList := Some(pp);
      free := [pp as nat] + free;
      assert ppLink[..] == old(ppLink[..])[pp := old(pageFreeList)];
    }

    method PageDecref(pp: Frame)
      requires Ok() && pp < ppRef.Length && pp !in free
      modifies this`free, this`pageFreeList, ppRef, ppLink
      ensures Ok() && View() == Decref(old(View()), pp)
    {
      ppRef[pp] := (ppRef[pp] + 0xFFFF) % 0x1_0000;
      if ppRef[pp] == 0 {
        PageFree(pp);
      }
    }

    // ----------------------------------------------------------------
    // The page tables.
    // ----------------------------------------------------------------

    method Store(f: Frame, i: Index, w: Word)
      requires f < mem.Length
      modifies mem
      ensures mem[..] == old(mem[..])[f as nat := old(mem[f])[i := w]]
    {
      mem[f] := mem[f][i := w];
    }

    /** pgdir_walk for an address space below UTOP. */
    method PgdirWalk(pgdir: Frame, va: Addr, create: bool) returns (pte: Option<Pte>)
      requires Ok() && Valid(View()) && pgdir in roots && va < UTOP
      modifies this`free, this`pageFreeList, mem, ppRef, ppLink
      ensures Ok() && Valid(View())
      ensures View() == if create then Walk(old(View()), pgdir, PDX(va)).0 else old(View())
      ensures pte == match Table(View(), pgdir, PDX(va)) { case None => None case Some(t) => Some(Pte(t, PTX(va))) }
      ensures create ==> (pte.Some? <==> Walk(old(View()), pgdir, PDX(va)).1)
    {
      hide Refers, Slots, IsSlot, Counted, Exclusive, Clean, KernelHalf, TargetsOk, PDX, PTX, SameEntries, Entry;
      ghost var s := View();
      LookupFrame(s, pgdir, va);
      var pde := mem[pgdir][PDX(va)];
      if Present(pde) {
        return Some(Pte(pde.frame, PTX(va)));
      } else if create {
        var newPt := PageAlloc(true);
        if newPt.None? { return None; }
        AddTableValid(s, pgdir, PDX(va));
        var f := newPt.value;
        ppRef[f] := (ppRef[f] + 1) % 0x1_0000;
        ghost var s1 := View();
        Store(pgdir, PDX(va), Word(f, PTE_U | PTE_W | PTE_P));
        assert s1 == Incref(AllocZero(s), f);
        assert View() == Put(s1, pgdir, PDX(va), Word(f, PTE_U | PTE_W | PTE_P));
        assert View() == AddTable(s, pgdir, PDX(va));
        return Some(Pte(mem[pgdir][PDX(va)].frame, PTX(va)));
      } else {
        return None;
      }
    }

    /** page_lookup: a frame even when the entry is not present. */
    method PageLookup(pgdir: Frame, va: Addr) returns (pp: Option<Frame>, pte: Option<Pte>)
      requires Ok() && Valid(View()) && pgdir in roots && va < UTOP
      modifies this`free, this`pageFreeList, mem, ppRef, ppLink
      ensures Ok() && View() == old(View())
      ensures pte == match Table(View(), pgdir, PDX(va)) { case None => None case Some(t) => Some(Pte(t, PTX(va))) }
      ensures pp == match pte { case None => None case Some(p) => Some(At(View(), p.table, p.index).frame) }
      ensures pp.Some? ==> pp.value < ppRef.Length && pp.value !in free
    {
      pte := PgdirWalk(pgdir, va, false);
      if pte.None? { return None, None; }
      LookupFrame(View(), pgdir, va);
      pp := Some(mem[pte.value.table][pte.value.index].frame);
    }

    method PageRemove(pgdir: Frame, va: Addr)
      requires Ok() && Valid(View()) && pgdir in roots && va < UTOP
      modifies this`free, this`pageFreeList, mem, ppRef, ppLink
      ensures Ok() && View() == Remove(old(View()), pgdir, PDX(va), PTX(va))
    {
      var pp, pte := PageLookup(pgdir, va);
      if pp.None? { return; }
      LookupFrame(View(), pgdir, va);
      PageDecref(pp.value);
      Store(pte.value.table, pte.value.index, ZERO);
    }

    /** The middle of page_insert: what `pte` maps is taken away. */
    method EvictEntry(pgdir: Frame, pp: Frame, va: Addr, pte: Pte)
      requires Ok() && Valid(View()) && pgdir in roots && va < UTOP && pp < ppRef.Length
      requires Table(View(), pgdir, PDX(va)) == Some(pte.table) && pte.table < mem.Length && pte.index == PTX(va)
      modifies this`free, this`pageFreeList, mem, ppRef, ppLink
      ensures Ok() && View() == Evict(old(View()), pgdir, PDX(va), PTX(va), pp)
    {
      if Present(mem[pte.table][pte.index]) {
        if mem[pte.table][pte.index].frame == pp {
          ppRef[pp] := (ppRef[pp] + 0xFFFF) % 0x1_0000;
        } else {
          PageRemove(pgdir, va);
        }
      }
    }

    /** page_insert: true for the return value 0, false for -E_NO_MEM. */
    method PageInsert(pgdir: Frame, pp: Frame, va: Addr, perm: Flags) returns (ok: bool)
      requires Ok() && Valid(View()) && pgdir in roots && va < UTOP && pp < ppRef.Length
      modifies this`free, this`pageFreeList, mem, ppRef, ppLink
      ensures Ok() && (View(), ok) == Insert(old(View()), pgdir, PDX(va), PTX(va), pp, perm)
    {
      hide Refers, Slots, IsSlot, Counted, Exclusive, Clean, KernelHalf, TargetsOk, FreeOk, PDX, PTX, Evict, Walk;
      LookupFrame(View(), pgdir, va);
      InsertFails(View(), pgdir, PDX(va), PTX(va), pp, perm);
      var pte := PgdirWalk(pgdir, va, true);
      if pte.None? { return false; }
      ghost var s1 := View();
      LookupFrame(s1, pgdir, va);
      EvictEntry(pgdir, pp, va, pte.value);
      ghost var s2 := View();
      Store(pte.value.table, pte.value.index, Word(pp, perm | PTE_P));
      assert View() == Put(s2, pte.value.table, pte.value.index, Word(pp, perm | PTE_P));
      ppRef[pp] := (ppRef[pp] + 1) % 0x1_0000;
      assert View() == Incref(Put(s2, pte.value.table, pte.value.index, Word(pp, perm | PTE_P)), pp);
      Store(pgdir, PDX(va), mem[pgdir][PDX(va)].(flags := mem[pgdir][PDX(va)].flags | perm));
      ok := true;
    }

    // ----------------------------------------------------------------
    // env_setup_vm and env_free.
    // ----------------------------------------------------------------

    method EnvSetupVm() returns (pgdir: Option<Frame>)
      requires Ok() && Valid(View())
      modifies this`free, this`pageFreeList, this`roots, mem, ppRef, ppLink
      ensures Ok() && Valid(View()) && (View(), pgdir) == Setup(old(View()))
    {
      hide Refers, Slots, IsSlot, Counted, Exclusive, Clean, KernelHalf, TargetsOk, FreeOk;
      SetupCorrect(View());
      pgdir := PageAlloc(true);
      if pgdir.None? { return; }
      var f := pgdir.value;
      assert f != kern by { AllocZeroValid(old(View())); }
      ppRef[f] := (ppRef[f] + 1) % 0x1_0000;
      mem[f] := mem[kern][UVPTX := Word(f, PTE_P | PTE_U)];
      roots := roots + {f};
      assert View() == Setup(old(View())).0;
    }

    /** The body of the outer loop of env_free: every page of one page table, then the table. */
    method FreeTable(pgdir: Frame, pdeno: nat)
      requires Ok() && Valid(View()) && pgdir in roots && pdeno < UTOPX && Table(View(), pgdir, pdeno).Some?
      modifies this`free, this`pageFreeList, mem, ppRef, ppLink
      ensures var s1 := ClearTable(old(View()), pgdir, pdeno, 0);
              && |s1.ref| == |s1.mem| && pgdir < |s1.mem| && At(s1, pgdir, pdeno).frame < |s1.ref|
              && View() == DropTable(s1, pgdir, pdeno)
      ensures Ok() && Valid(View())
      ensures forall x: Slot | x.r == pgdir && !x.RootSlot? && x.d == pdeno :: Refers(View(), x) == None
      ensures forall x: Slot | x.r != pgdir || x.RootSlot? || x.d != pdeno ::
                Refers(View(), x) == Refers(old(View()), x)
    {
      hide Refers, Slots, IsSlot, Counted, Exclusive, Clean, KernelHalf, TargetsOk, FreeOk, Remove;
      ghost var s0 := View();
      assert pgdir < mem.Length && PDX(PGADDR(pdeno, 0, 0)) < UTOPX;
      LookupFrame(s0, pgdir, PGADDR(pdeno, 0, 0));
      AddressFields(pdeno, 0, 0);
      var pa := mem[pgdir][pdeno].frame;
      ClearTablePeels(s0, pgdir, pdeno, 0);
      var pteno := 0;
      while pteno < 1024
        invariant 0 <= pteno <= 1024 && Ok() && Valid(View()) && roots == s0.roots
        invariant Table(View(), pgdir, pdeno) == Some(pa as nat)
        invariant ClearTable(View(), pgdir, pdeno, pteno) == ClearTable(s0, pgdir, pdeno, 0)
      {
        AddressFields(pdeno, pteno, 0);
        if Present(mem[pa][pteno]) {
          RemovePresent(View(), pgdir, pdeno, pteno);
          PageRemove(pgdir, PGADDR(pdeno, pteno, 0));
        }
        pteno := pteno + 1;
      }
      ghost var s1 := View();
      DropTablePeels(s1, pgdir, pdeno);
      NoTableNoPages(DropTable(s1, pgdir, pdeno), pgdir, pdeno);
      LookupFrame(s1, pgdir, PGADDR(pdeno, 0, 0));
      Store(pgdir, pdeno, ZERO);
      PageDecref(pa);
    }

    /** The nested loops of env_free, and the release of the page directory. */
    method EnvFreeVm(pgdir: Frame)
      requires Ok() && Valid(View()) && pgdir in roots
      modifies this`free, this`pageFreeList, this`roots, mem, ppRef, ppLink
      ensures Ok() && Valid(View()) && View() == Teardown(old(View()), pgdir)
    {
      hide Refers, Slots, IsSlot, Counted, Exclusive, Clean, KernelHalf, TargetsOk, FreeOk, ClearTable, Remove, Entry;
      ghost var s0 := View();
      assert pgdir < mem.Length;
      var pdeno := 0;
      while pdeno < UTOPX
        invariant 0 <= pdeno <= UTOPX && Ok() && Valid(View()) && roots == s0.roots
        invariant forall x: Slot | x.r == pgdir && !x.RootSlot? && x.d < pdeno :: Refers(View(), x) == None
        invariant ClearDir(View(), pgdir, pdeno) == ClearDir(s0, pgdir, 0)
      {
        EntryRefers(View(), pgdir, pdeno, 0);
        if Present(mem[pgdir][pdeno]) {
          FreeTable(pgdir, pdeno);
        } else {
          NoTableNoPages(View(), pgdir, pdeno);
        }
        pdeno := pdeno + 1;
      }
      TeardownCorrect(s0, pgdir);
      assert pgdir !in free by { TablesApart(View()); }
      roots := roots - {pgdir};
      PageDecref(pgdir);
    }

    // ----------------------------------------------------------------
    // boot_map_region, mmio_map_region and user_mem_check.
    // ----------------------------------------------------------------

    /** pgdir_walk with create set on kern_pgdir, above UTOP and before there is any environment. */
    method KernWalk(d: Index) returns (table: Option<Frame>)
      requires Ok() && Valid(View()) && roots == {} && UTOPX <= d && d != UVPTX
      modifies this`free, this`pageFreeList, this`reserved, mem, ppRef, ppLink
      ensures Ok() && Valid(View()) && table == KernTable(View(), d)
      ensures forall n: nat | n / 1024 != UVPTX :: KernPage(View(), n) == KernPage(old(View()), n)
      ensures View() == if KernTable(old(View()), d).Some? || old(free) == [] then old(View())
                        else AddKernTable(old(View()), d)
    {
      hide Refers, Slots, IsSlot, Counted, Exclusive, Clean, TargetsOk, SameEntries, Entry;
      ghost var s := View();
      var pde := mem[kern][d];
      if Present(pde) {
        return Some(pde.frame);
      }
      var newPt := PageAlloc(true);
      if newPt.None? { return None; }
      AddKernTableValid(s, d);
      var f := newPt.value;
      ppRef[f] := (ppRef[f] + 1) % 0x1_0000;
      Store(kern, d, Word(f, PTE_U | PTE_W | PTE_P));
      reserved := reserved + {f as nat};
      assert View() == AddKernTable(s, d);
      table := Some(f);
    }

    /** boot_map_region: true unless memory ran out, on which the C code writes through NULL.  The
        region's pages get their entries, and no other page of kern_pgdir changes, but for the
        self-map's view of the new page tables. */
    method BootMapRegion(va: Addr, size: nat, pa: Addr, perm: Flags) returns (ok: bool)
      requires Ok() && Valid(View()) && roots == {}
      requires va % PGSIZE == 0 && pa % PGSIZE == 0
      requires UTOP <= va && va + size <= 0x1_0000_0000 && pa + size <= 0x1_0000_0000
      requires va + size <= UVPT || UVPT + PTSIZE <= va
      modifies this`free, this`pageFreeList, this`reserved, mem, ppRef, ppLink
      ensures Ok() && Valid(View())
      ensures ok ==> forall n: nat | n / 1024 != UVPTX ::
                KernPage(View(), n) == if va / PGSIZE <= n < (va + size + PGSIZE - 1) / PGSIZE
                                       then Some(Word(pa / PGSIZE + (n - va / PGSIZE), perm | PTE_P))
                                       else KernPage(old(View()), n)
      ensures !ok ==> free == []
    {
      hide Refers, Slots, IsSlot, Counted, Exclusive, Clean, TargetsOk, KernelHalf, FreeOk, Entry;
      var pageNum := (size + PGSIZE - 1) / PGSIZE;
      var v0, p0 := va / PGSIZE, pa / PGSIZE;
      ghost var s0 := View();
      for i := 0 to pageNum
        invariant Ok() && Valid(View()) && roots == {} && kern == s0.kern
        invariant forall n: nat | n / 1024 != UVPTX ::
                    KernPage(View(), n) == if v0 <= n < v0 + i then Some(Word(p0 + (n - v0), perm | PTE_P))
                                           else KernPage(s0, n)
      {
        var n := v0 + i;
        RegionIndex(va, size, i);
        var table := KernWalk(n / 1024);
        if table.None? { return false; }
        ghost var s1 := View();
        var w := Word(p0 + i, perm | PTE_P);
        WriteKernPte(s1, n, w);
        Store(table.value, n % 1024, w);
        assert View() == Put(s1, table.value, n % 1024, w);
      }
      ok := true;
    }

    /** mmio_map_region, with its static `base` before and after, when the sum of the two does not wrap:
        None if it panics or memory ran out.  Each call maps a range of its own, right after the one
        before. */
    method MmioMapRegion(base: Addr, pa: Addr, size: Addr) returns (va: Option<Addr>, base': Addr)
      requires Ok() && Valid(View()) && roots == {} && base % PGSIZE == 0 && MMIOBASE <= base <= MMIOLIM
      requires base + RoundUp(size) < 0x1_0000_0000
      requires pa % PGSIZE == 0 && (base + RoundUp(size) <= MMIOLIM ==> pa + RoundUp(size) <= 0x1_0000_0000)
      modifies this`free, this`pageFreeList, this`reserved, mem, ppRef, ppLink
      ensures Ok() && Valid(View()) && base' % PGSIZE == 0 && base <= base' <= MMIOLIM
      ensures va.Some? ==> va.value == base && base' == base + RoundUp(size)
      ensures va.Some? && size <= 0xFFFF_F000 ==> base + size <= base' < base + size + PGSIZE
      ensures va.Some? ==> forall n: nat | n / 1024 != UVPTX ::
                KernPage(View(), n) == if base / PGSIZE <= n < base' / PGSIZE
                                       then Some(Word(pa / PGSIZE + (n - base / PGSIZE),
                                                      PTE_PCD | PTE_PWT | PTE_W | PTE_P))
                                       else KernPage(old(View()), n)
      ensures base + RoundUp(size) > MMIOLIM ==> va.None? && View() == old(View())
      ensures va.None? ==> base' == base && (base + RoundUp(size) > MMIOLIM || free == [])
    {
      hide Valid, KernPage, Linked;
      va, base' := None, base;
      var mmioSize := RoundUp(size);
      if base + mmioSize > MMIOLIM { return; }
      var ok := BootMapRegion(base, mmioSize, pa, PTE_PCD | PTE_PWT | PTE_W);
      if !ok { return; }
      va, base' := Some(base), base + mmioSize;
    }

    /** The test user_mem_check makes of each page. */
    method PageAccessible(pgdir: Frame, i: Addr, perm: Flags) returns (ok: bool)
      requires Ok() && Valid(View()) && pgdir in roots
      ensures ok == Accessible(View(), pgdir, i, perm)
    {
      hide Refers, Slots, IsSlot, Valid, PDX, PTX, Linked, Present;
      var d, t := PDX(i), PTX(i);
      TableInMemory(View(), pgdir, d);
      var pde := mem[pgdir][d];
      assert At(View(), pgdir, d) == pde;
      if !Present(pde) || i >= ULIM { return false; }
      var pte := mem[pde.frame][t];
      assert At(View(), pde.frame, t) == pte;
      ok := Present(pte) && pte.flags & perm == perm;
    }

    method UserMemCheck(pgdir: Frame, va: Addr, len: Addr, perm: Flags) returns (fault: Option<Addr>)
      requires Ok() && Valid(View()) && pgdir in roots
      ensures fault == MemCheck(View(), pgdir, va, len, perm)
    {
      hide Valid, Accessible, RoundUp, RoundDown, Linked;
      var end := RoundUp((va + len) % 0x1_0000_0000);
      var i := RoundDown(va);
      while i < end
        invariant 0 <= i <= 0xFFFF_F000 && i % PGSIZE == 0
        invariant Scan(View(), pgdir, RoundDown(va), end, perm) == Scan(View(), pgdir, i, end, perm)
      {
        var ok := PageAccessible(pgdir, i, perm);
        if !ok {
          return Some(if i < va then va else i);
        }
        i := i + PGSIZE;
      }
      fault := None;
    }
  }

  lemma RegionIndex(va: Addr, size: nat, i: nat)
    requires va % PGSIZE == 0 && UTOP <= va && va + size <= 0x1_0000_0000 && i < (size + PGSIZE - 1) / PGSIZE
    requires va + size <= UVPT || UVPT + PTSIZE <= va
    ensures UTOPX <= (va / PGSIZE + i) / 1024 < 1024 && (va / PGSIZE + i) / 1024 != UVPTX
  {
  }

  /** Every page table of an address space is a frame of the machine. */
  lemma TableInMemory(s: State, r: nat, d: Index)
    requires Valid(s) && r in s.roots
    ensures r < |s.mem| && (Table(s, r, d).Some? ==> Table(s, r, d).value < |s.mem|)
  {
    TablesApart(s);
    if d < UTOPX {
      assert OwnTable(s, r, d);
    } else if d != UVPTX {
      assert Table(s, r, d) == KernTable(s, d);
    }
  }

  lemma LookupFrame(s: State, r: Frame, va: Addr)
    requires Valid(s) && r in s.roots && va < UTOP
    ensures r < |s.mem| && PDX(va) < UTOPX
    ensures forall table | Table(s, r, PDX(va)) == Some(table) :: table < |s.mem| && table !in s.free
    ensures forall table | Table(s, r, PDX(va)) == Some(table) ::
              table < |s.mem| && At(s, table, PTX(va)).frame < |s.ref| && At(s, table, PTX(va)).frame !in s.free
  {
    UserIndexes(va);
    TablesApart(s);
    assert OwnTable(s, r, PDX(va));
    EntryRefers(s, r, PDX(va), PTX(va));
  }
}
