/** Address arithmetic of the x86 two-level page tables (inc/mmu.h, inc/memlayout.h). */
module Mmu {

  const PGSIZE := 4096
  const NPDENTRIES := 1024
  const NPTENTRIES := 1024
  const PTSIZE := 0x40_0000

  // The virtual memory map, from the top down.
  const KERNBASE := 0xF000_0000
  const ULIM := 0xEF80_0000
  const MMIOLIM := 0xEFC0_0000
  const MMIOBASE := ULIM
  const UVPT := 0xEF40_0000
  const UTOP := 0xEEC0_0000
  const UXSTACKTOP := UTOP
  const USTACKTOP := UTOP - 2 * PGSIZE
  const UTEXT := 2 * PTSIZE
  const UTEMP := PTSIZE
  const PFTEMP := UTEMP + PTSIZE - PGSIZE

  // Page directory indexes of two of those addresses.
  const UTOPX := 955
  const UVPTX := 957

  type Addr = a: int | 0 <= a < 0x1_0000_0000
  type Frame = f: int | 0 <= f < 0x10_0000
  type Index = i: int | 0 <= i < 1024
  type Flags = bv12

  const PTE_P: Flags := 0x001
  const PTE_W: Flags := 0x002
  const PTE_U: Flags := 0x004
  const PTE_PWT: Flags := 0x008
  const PTE_PCD: Flags := 0x010
  const PTE_COW: Flags := 0x800
  const PTE_AVAIL: Flags := 0xE00
  const PTE_SYSCALL: Flags := 0xE07

  /** A 32-bit page table or page directory entry: PTE_ADDR is `frame * PGSIZE`, and the low
      twelve bits are `flags`. */
  datatype Word = Word(frame: Frame, flags: Flags)

  const ZERO := Word(0, 0)

  type Page = p: seq<Word> | |p| == 1024 witness seq(1024, _ => ZERO)

  function ZeroPage(): Page {
    seq(1024, _ => ZERO)
  }

  predicate Present(w: Word) {
    w.flags & PTE_P != 0
  }

  function PGNUM(la: Addr): (n: nat)
    ensures n < 0x10_0000
  {
    la / PGSIZE
  }

  function PDX(la: Addr): Index {
    la / PTSIZE % NPDENTRIES
  }

  function PTX(la: Addr): Index {
    la / PGSIZE % NPTENTRIES
  }

  function PGOFF(la: Addr): (o: nat)
    ensures o < PGSIZE
  {
    la % PGSIZE
  }

  function PGADDR(d: Index, t: Index, o: nat): Addr
    requires o < PGSIZE
  {
    d * PTSIZE + t * PGSIZE + o
  }

  /** PGADDR and the three field selectors are inverse to each other. */
  lemma AddressFields(d: Index, t: Index, o: nat)
    requires o < PGSIZE
    ensures PDX(PGADDR(d, t, o)) == d && PTX(PGADDR(d, t, o)) == t && PGOFF(PGADDR(d, t, o)) == o
    ensures PGNUM(PGADDR(d, t, o)) == d * 1024 + t
  {
  }

  lemma AddressRebuilt(la: Addr)
    ensures PGADDR(PDX(la), PTX(la), PGOFF(la)) == la
    ensures PGNUM(la) == PDX(la) * 1024 + PTX(la)
  {
  }

  /** The user part of the address space is exactly the directory slots below UTOPX. */
  lemma UserIndexes(la: Addr)
    ensures la < UTOP <==> PDX(la) < UTOPX
    ensures PDX(UTOP) == UTOPX && PDX(UVPT) == UVPTX
  {
  }

  // ------------------------------------------------------------------
  // The hardware walk and the self-map.
  // ------------------------------------------------------------------

  /** An entry through which an access may go: user accesses also need PTE_U. */
  predicate Passes(w: Word, user: bool) {
    Present(w) && (user ==> w.flags & PTE_U != 0)
  }

  /** What the MMU does with a read of a linear address: the word of physical memory it reads, or
      None on a page fault.  (Intel SDM volume 3A, section 4.3, 32-bit paging.) */
  function HwRead(mem: seq<Page>, cr3: nat, la: Addr, user: bool): (r: Option<Word>) {
    if cr3 >= |mem| || !Passes(mem[cr3][PDX(la)], user) then None
    else
      var table := mem[cr3][PDX(la)].frame;
      if table >= |mem| || !Passes(mem[table][PTX(la)], user) then None
      else
        var frame := mem[table][PTX(la)].frame;
        if frame >= |mem| then None else Some(mem[frame][PGOFF(la) / 4])
  }

  datatype Option<+T> = None | Some(value: T)

  /** Directory entry UVPTX of `dir` is the directory itself, readable by the user. */
  predicate SelfMapped(mem: seq<Page>, dir: nat) {
    dir < |mem| && dir < 0x10_0000 && mem[dir][UVPTX] == Word(dir, PTE_P | PTE_U)
  }

  /** Reading `uvpt[n]` gives the page table entry of page number n, exactly when page n has a
      page table that the user may see; otherwise the read faults. */
  lemma UvptReadsPageTable(mem: seq<Page>, dir: nat, n: nat, user: bool)
    requires SelfMapped(mem, dir) && n < 0x10_0000
    requires Passes(mem[dir][n / 1024], user) ==> mem[dir][n / 1024].frame < |mem|
    ensures HwRead(mem, dir, UVPT + 4 * n, user) ==
            if Passes(mem[dir][n / 1024], user) then Some(mem[mem[dir][n / 1024].frame][n % 1024]) else None
  {
    var la: Addr := UVPT + 4 * n;
    assert PDX(la) == UVPTX;
    assert PTX(la) == n / 1024;
    assert PGOFF(la) / 4 == n % 1024;
    assert Passes(Word(dir, PTE_P | PTE_U), user);
  }

  /** Reading `uvpd[d]` gives directory entry d, and never faults. */
  lemma UvpdReadsDirectory(mem: seq<Page>, dir: nat, d: Index, user: bool)
    requires SelfMapped(mem, dir)
    ensures HwRead(mem, dir, UVPT + UVPT / PGSIZE * 4 + 4 * d, user) == Some(mem[dir][d])
  {
    var n := UVPT / PGSIZE + d;
    assert n / 1024 == UVPTX && n % 1024 == d;
    assert Passes(Word(dir, PTE_P | PTE_U), user);
    UvptReadsPageTable(mem, dir, n, user);
  }
}
