/** The mappings above UTOP made at boot (boot_map_region), and the check of user pointers
    (user_mem_check) in kern/pmap.c. */
module KernMap {
  import opened Mmu
  import opened Pmap

  // ------------------------------------------------------------------
  // boot_map_region.
  // ------------------------------------------------------------------

  /** What kern_pgdir maps page number n to. */
  function KernPage(s: State, n: nat): Option<Word> {
    Entry(s, s.kern, n / 1024, n % 1024)
  }

  /** pgdir_walk with create set, on kern_pgdir: the new page table is the boot code's. */
  function AddKernTable(s: State, d: nat): State
    requires 0 < |s.free| && s.free[0] < |s.mem| == |s.ref| <= 0x10_0000 && s.kern < |s.mem| && d < 1024
  {
    AddTable(s, s.kern, d).(reserved := s.reserved + {s.free[0]})
  }

  lemma BootValid(s: State)
    requires s.roots == {} && Shape(s) && FreeOk(s) && KernelHalf(s)
    requires forall f: nat | f < |s.ref| && f !in s.reserved :: s.ref[f] == 0
    ensures Valid(s)
  {
    forall f: nat ensures Refs(s, f) == {} {
    }
  }

  /** Before any mapping but the self-map of kern_pgdir. */
  lemma BootState(s: State)
    requires s.roots == {} && 0 < |s.mem| == |s.ref| <= 0x10_0000 && s.kern < |s.mem| && FreeOk(s)
    requires s.mem[s.kern] == ZeroPage()[UVPTX := Word(s.kern, PTE_U | PTE_P)]
    requires forall f: nat | f < |s.ref| :: s.ref[f] <= 1 && (f !in s.reserved ==> s.ref[f] == 0)
    requires 0 in s.reserved && s.kern in s.reserved && s.ref[0] == 1
    ensures Valid(s)
  {
    assert forall i: nat | i != UVPTX :: At(s, s.kern, i) == ZERO;
    assert !Present(ZERO);
    BootValid(s);
  }

  lemma BootUnreferenced(s: State)
    requires s.roots == {} && Valid(s)
    ensures forall f: nat | f < |s.ref| && f !in s.reserved :: s.ref[f] == 0
  {
    forall f: nat ensures Refs(s, f) == {} {
    }
  }

  lemma AddKernTableValid(s: State, d: nat)
    requires Valid(s) && s.roots == {} && UTOPX <= d < 1024 && d != UVPTX && KernTable(s, d).None? && s.free != []
    ensures var s' := AddKernTable(s, d);
            && Valid(s') && s' == s.(mem := s'.mem, ref := s'.ref, free := s.free[1..], reserved := s'.reserved)
            && KernTable(s', d) == Some(s.free[0])
            && (forall n: nat | n / 1024 != UVPTX :: KernPage(s', n) == KernPage(s, n))
  {
    var f, s' := s.free[0], AddKernTable(s, d);
    BootUnreferenced(s);
    var w := Word(f, PTE_U | PTE_W | PTE_P);
    assert Present(w);
    assert s.free == [f] + s'.free;
    assert forall g: nat, i: nat ::
             At(s', g, i) == if g == s.kern && i == d then w else if g == f then ZERO else At(s, g, i);
    AddKernHalf(s, s', d, f);
    forall n: nat | n / 1024 != UVPTX ensures KernPage(s', n) == KernPage(s, n) {
      assert n / 1024 < 1024 && n / 1024 >= UTOPX ==> Table(s, s.kern, n / 1024) == KernTable(s, n / 1024);
    }
    assert f in s.free;
    BootValid(s');
  }

  lemma AddKernHalf(s: State, s': State, d: nat, f: Frame)
    requires Shape(s) && KernelHalf(s) && Shape(s') && s'.kern == s.kern && s'.roots == {} && |s'.mem| == |s.mem|
    requires UTOPX <= d < 1024 && d != UVPTX && f < |s.mem| && f !in s.reserved
    requires s'.reserved == s.reserved + {f as nat}
    requires forall i: nat | i != d :: At(s', s.kern, i) == At(s, s.kern, i)
    requires At(s', s.kern, d) == Word(f, PTE_U | PTE_W | PTE_P)
    ensures KernelHalf(s')
  {
    hide At;
    assert forall i: nat | i != d :: KernTable(s', i) == KernTable(s, i);
  }

  /** Writing one entry of a kernel page table, given that it is there. */
  lemma WriteKernPte(s: State, n: nat, w: Word)
    requires Valid(s) && s.roots == {} && KernTable(s, n / 1024).Some? && Present(w)
    ensures var table := KernTable(s, n / 1024).value;
            && table < |s.mem|
            && var s' := Put(s, table, n % 1024, w);
            && Valid(s') && KernPage(s', n) == Some(w)
            && (forall m: nat | m != n && m / 1024 != UVPTX :: KernPage(s', m) == KernPage(s, m))
            && (forall i: nat :: KernTable(s', i) == KernTable(s, i))
  {
    var table := KernTable(s, n / 1024).value;
    var s' := Put(s, table, n % 1024, w);
    BootUnreferenced(s);
    assert forall g: nat, i: nat :: At(s', g, i) == if g == table && i == n % 1024 then w else At(s, g, i);
    KernelHalfKept(s, s');
    BootValid(s');
    assert forall i: nat :: Table(s', s.kern, i) == Table(s, s.kern, i);
    forall m: nat | m != n && m / 1024 != UVPTX ensures KernPage(s', m) == KernPage(s, m) {
      assert m / 1024 < 1024 && m / 1024 >= UTOPX ==> Table(s, s.kern, m / 1024) == KernTable(s, m / 1024);
      assert m / 1024 == n / 1024 ==> m % 1024 != n % 1024;
      assert m / 1024 < UTOPX ==> At(s, s.kern, m / 1024) == ZERO;
    }
  }

  /** The test of mmio_map_region, in 32-bit arithmetic: a region that does not fit under MMIOLIM is
      refused, unless rounding its size up wraps to 0 or adding that to `base` wraps. */
  lemma MmioAccepts(base: Addr, size: Addr)
    requires base % PGSIZE == 0 && MMIOBASE <= base <= MMIOLIM
    ensures (base + RoundUp(size)) % 0x1_0000_0000 <= MMIOLIM <==>
            base + size <= MMIOLIM || base + RoundUp(size) >= 0x1_0000_0000 || size > 0xFFFF_F000
    ensures RoundUp(0xFFFF_F001) == 0 && MMIOBASE + RoundUp(0x2000_0000) >= 0x1_0000_0000
  {
  }

  // ------------------------------------------------------------------
  // user_mem_check.
  // ------------------------------------------------------------------

  /** The user may access address x of address space r with `perm`. */
  predicate Accessible(s: State, r: nat, x: Addr, perm: Flags) {
    && x < ULIM
    && Entry(s, r, PDX(x), PTX(x)).Some?
    && Entry(s, r, PDX(x), PTX(x)).value.flags & perm == perm
  }

  function RoundDown(x: Addr): (y: Addr)
    ensures y % PGSIZE == 0 && y <= x < y + PGSIZE
  {
    x - x % PGSIZE
  }

  /** ROUNDUP(x, PGSIZE) on 32-bit words. */
  function RoundUp(x: Addr): (y: Addr)
    ensures y % PGSIZE == 0
    ensures x <= 0xFFFF_F000 ==> x <= y < x + PGSIZE
    ensures x > 0xFFFF_F000 ==> y == 0
  {
    RoundDown((x + PGSIZE - 1) % 0x1_0000_0000)
  }

  /** The page at which the loop of user_mem_check, from page i up to `end`, stops with an error. */
  function Scan(s: State, r: nat, i: Addr, end: Addr, perm: Flags): Option<Addr>
    requires i % PGSIZE == 0 && end % PGSIZE == 0
    decreases end - i
  {
    if i >= end then None
    else if !Accessible(s, r, i, perm) then Some(i)
    else Scan(s, r, i + PGSIZE, end, perm)
  }

  /** The address user_mem_check reports, or None if it returns 0. */
  function MemCheck(s: State, r: nat, va: Addr, len: Addr, perm: Flags): Option<Addr> {
    match Scan(s, r, RoundDown(va), RoundUp((va + len) % 0x1_0000_0000), perm)
    case None => None
    case Some(i) => if i < va then Some(va) else Some(i)
  }

  lemma SameIndexes(x: Addr, y: Addr)
    requires y % PGSIZE == 0 && y <= x < y + PGSIZE
    ensures PDX(x) == PDX(y) && PTX(x) == PTX(y) && (x < ULIM <==> y < ULIM)
  {
    assert x / PGSIZE == y / PGSIZE;
    assert x / PTSIZE == x / PGSIZE / 1024 && y / PTSIZE == y / PGSIZE / 1024;
  }

  lemma SamePage(s: State, r: nat, x: Addr, y: Addr, perm: Flags)
    requires y % PGSIZE == 0 && y <= x < y + PGSIZE
    ensures Accessible(s, r, x, perm) <==> Accessible(s, r, y, perm)
  {
    hide PDX, PTX, Entry;
    SameIndexes(x, y);
  }

  lemma PagesApart(x: Addr, y: Addr)
    requires x % PGSIZE == 0 && y % PGSIZE == 0 && x < y
    ensures x + PGSIZE <= y
  {
  }

  lemma {:induction false} ScanFirst(s: State, r: nat, i: Addr, end: Addr, perm: Flags)
    requires i % PGSIZE == 0 && end % PGSIZE == 0
    ensures var b := Scan(s, r, i, end, perm);
            && (b.None? ==> forall x: Addr | i <= x < end :: Accessible(s, r, x, perm))
            && (b.Some? ==>
                  && i <= b.value < end && b.value % PGSIZE == 0
                  && (forall x: Addr | i <= x < b.value :: Accessible(s, r, x, perm))
                  && (forall x: Addr | b.value <= x < b.value + PGSIZE :: !Accessible(s, r, x, perm)))
    decreases end - i
  {
    if i < end {
      hide Accessible;
      forall x: Addr | i <= x < i + PGSIZE ensures Accessible(s, r, x, perm) <==> Accessible(s, r, i, perm) {
        SamePage(s, r, x, i, perm);
      }
      if Accessible(s, r, i, perm) {
        ScanFirst(s, r, i + PGSIZE, end, perm);
      }
    }
  }

  /** The bytes of the range, or for an empty range that is not aligned, the byte at `va` all the same. */
  function Checked(va: Addr, len: Addr): nat {
    if len == 0 && va % PGSIZE != 0 then 1 else len
  }

  /** user_mem_check, for a range that does not reach the last page of memory, accepts exactly the
      ranges whose every byte the user may access, and otherwise reports the first other byte; of an
      empty range that is not aligned it looks at the byte at `va`. */
  lemma MemCheckExact(s: State, r: nat, va: Addr, len: Addr, perm: Flags)
    requires va + len <= 0xFFFF_F000
    ensures var b := MemCheck(s, r, va, len, perm);
            && (b.None? <==> forall x: Addr | va <= x < va + Checked(va, len) :: Accessible(s, r, x, perm))
            && (b.Some? ==>
                  && va <= b.value < va + Checked(va, len) && !Accessible(s, r, b.value, perm)
                  && forall x: Addr | va <= x < b.value :: Accessible(s, r, x, perm))
  {
    hide Accessible, RoundUp, RoundDown, Scan, Checked;
    var begin, end := RoundDown(va), RoundUp(va + len);
    ScanFirst(s, r, begin, end, perm);
    CheckedPages(va, len);
    match Scan(s, r, begin, end, perm)
    case None =>
    case Some(i) =>
      PagesApart(i, end);
      assert !Accessible(s, r, if i < va then va else i, perm);
  }

  /** The pages that are scanned are those of the bytes to be checked. */
  lemma CheckedPages(va: Addr, len: Addr)
    requires va + len <= 0xFFFF_F000
    ensures var begin, end, last := RoundDown(va), RoundUp(va + len), va + Checked(va, len);
            && begin <= va < begin + PGSIZE
            && (Checked(va, len) == 0 ==> begin == end) && (Checked(va, len) > 0 ==> last <= end < last + PGSIZE)
  {
  }

  /** An empty range is refused exactly if it starts inside a page that the user may not access. */
  lemma EmptyRangeRefused(s: State, r: nat, va: Addr, perm: Flags)
    requires va <= 0xFFFF_F000
    ensures MemCheck(s, r, va, 0, perm).Some? <==> va % PGSIZE != 0 && !Accessible(s, r, va, perm)
    ensures 1 % PGSIZE != 0 && (!Accessible(s, r, 1, perm) ==> MemCheck(s, r, 1, 0, perm) == Some(1))
  {
    hide Accessible, MemCheck;
    MemCheckExact(s, r, va, 0, perm);
    MemCheckExact(s, r, 1, 0, perm);
  }

  /** A longer range is never accessible as a whole, but its rounded end wraps: user_mem_check refuses
      it exactly if the wrapped end is still above `va` and the user may not access `va` itself. */
  lemma MemCheckWraps(s: State, r: nat, va: Addr, len: Addr, perm: Flags)
    requires va + len > 0xFFFF_F000
    ensures len > 0 ==> exists x: Addr :: va <= x < va + len && !Accessible(s, r, x, perm)
    ensures MemCheck(s, r, va, len, perm).Some? <==>
            RoundUp((va + len) % 0x1_0000_0000) > va && !Accessible(s, r, va, perm)
  {
    hide Accessible;
    var end := RoundUp((va + len) % 0x1_0000_0000);
    if len > 0 {
      var x: Addr := if va > 0xFFFF_F000 then va else 0xFFFF_F000;
      assert va <= x < va + len && !Accessible(s, r, x, perm) by { HighInaccessible(s, r, x, perm); }
    }
    WrappedEnd(va, len);
    if end > va {
      SamePage(s, r, va, RoundDown(va), perm);
    }
    ScanFirst(s, r, RoundDown(va), end, perm);
  }

  /** A wrapped end above `va` is that of the page of `va`. */
  lemma WrappedEnd(va: Addr, len: Addr)
    requires va + len > 0xFFFF_F000
    ensures var end := RoundUp((va + len) % 0x1_0000_0000);
            if end > va then end == RoundDown(va) + PGSIZE else end <= RoundDown(va)
  {
    var x := (va + len) % 0x1_0000_0000;
    if va + len < 0x1_0000_0000 {
      assert x == va + len;
    } else {
      assert x == va + len - 0x1_0000_0000 < va;
    }
  }

  lemma HighInaccessible(s: State, r: nat, x: Addr, perm: Flags)
    requires x >= ULIM
    ensures !Accessible(s, r, x, perm)
  {
  }
}
