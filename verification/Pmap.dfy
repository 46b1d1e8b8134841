/** Physical frames, reference counts and two-level page tables (kern/pmap.c, kern/env.c), as
    functions on a value.  The module PhysMem runs the same operations in place. */
module Pmap {
  import opened Mmu

  /** `mem` is physical memory, a page of words for each frame; `ref` is pp_ref; `free` is the
      free list from its head; `roots` are the frames in use as some env_pgdir; `kern` is the frame
      of kern_pgdir; `reserved` are the frames the boot code owns, whose pp_ref means nothing. */
  datatype State = State(mem: seq<Page>, ref: seq<nat>, free: seq<nat>, roots: set<nat>,
                         kern: Frame, reserved: set<nat>)

  /** A place that can hold a counted reference to a frame: an env_pgdir, a page directory entry
      below UTOP, or a page table entry below UTOP. */
  datatype Slot = RootSlot(r: nat) | PdeSlot(r: nat, d: nat) | PteSlot(r: nat, d: nat, t: nat)

  function At(s: State, f: nat, i: nat): Word {
    if f < |s.mem| && i < 1024 then s.mem[f][i] else ZERO
  }

  function Put(s: State, f: nat, i: nat, w: Word): State
    requires f < |s.mem| && i < 1024
  {
    s.(mem := s.mem[f := s.mem[f][i := w]])
  }

  function Points(w: Word): Option<nat> {
    if Present(w) then Some(w.frame) else None
  }

  function Table(s: State, r: nat, d: nat): Option<nat> {
    Points(At(s, r, d))
  }

  /** The flat view of an address space: the entry that maps page (d, t) of `r`, if any. */
  function Entry(s: State, r: nat, d: nat, t: nat): Option<Word> {
    match Table(s, r, d)
    case None => None
    case Some(table) => if Present(At(s, table, t)) then Some(At(s, table, t)) else None
  }

  predicate IsSlot(roots: set<nat>, x: Slot) {
    x.r in roots && (x.PdeSlot? || x.PteSlot? ==> x.d < UTOPX) && (x.PteSlot? ==> x.t < 1024)
  }

  ghost function Slots(roots: set<nat>): (ss: set<Slot>)
    ensures forall x :: x in ss <==> IsSlot(roots, x)
  {
    (set r | r in roots :: RootSlot(r)) +
    (set r, d: nat | r in roots && d < UTOPX :: PdeSlot(r, d)) +
    (set r, d: nat, t: nat | r in roots && d < UTOPX && t < 1024 :: PteSlot(r, d, t))
  }

  /** The frame slot x refers to, if any. */
  function Refers(s: State, x: Slot): (f: Option<nat>)
    ensures f.Some? ==> IsSlot(s.roots, x)
  {
    if !IsSlot(s.roots, x) then None else
    match x
    case RootSlot(r) => Some(r)
    case PdeSlot(r, d) => Table(s, r, d)
    case PteSlot(r, d, t) =>
      match Entry(s, r, d, t)
      case None => None
      case Some(w) => Some(w.frame)
  }

  /** The references to frame f. */
  ghost function Refs(s: State, f: nat): set<Slot> {
    set x | x in Slots(s.roots) && Refers(s, x) == Some(f)
  }

  ghost predicate Held(s: State, f: nat) {
    exists x :: Refers(s, x) == Some(f)
  }

  // ------------------------------------------------------------------
  // The invariant.
  // ------------------------------------------------------------------

  ghost predicate Shape(s: State) {
    && 0 < |s.mem| == |s.ref| <= 0x10_0000
    && s.kern < |s.mem|
    && (forall r <- s.roots :: r < |s.mem|)
    && (forall f: nat | f < |s.ref| :: s.ref[f] < 0x1_0000)
    && 0 in s.reserved && s.kern in s.reserved && s.ref[0] == 1
  }

  ghost predicate FreeOk(s: State) {
    && (forall i: nat | i < |s.free| :: s.free[i] < |s.ref| && s.free[i] !in s.reserved)
    && (forall i: nat, j: nat | i < j < |s.free| :: s.free[i] != s.free[j])
  }

  /** A referenced frame exists, and is neither free nor the boot code's. */
  ghost predicate TargetsOk(s: State) {
    forall x | Refers(s, x).Some? ::
      var f := Refers(s, x).value; f < |s.ref| && f !in s.free && f !in s.reserved
  }

  /** pp_ref counts the references. */
  ghost predicate Counted(s: State) {
    forall f: nat | f < |s.ref| && f !in s.reserved :: s.ref[f] == |Refs(s, f)|
  }

  /** A page directory or page table has one reference, and no page is mapped to it. */
  ghost predicate Exclusive(s: State) {
    forall x, y | Refers(s, x).Some? && !x.PteSlot? :: Refers(s, x) == Refers(s, y) ==> x == y
  }

  /** User page tables hold present entries and zeros, and grant what their entries grant. */
  ghost predicate Clean(s: State) {
    forall r, d: nat | r in s.roots && d < UTOPX && Table(s, r, d).Some? ::
      && At(s, r, d).flags & 7 == 7
      && forall t: nat | t < 1024 ::
           Present(At(s, At(s, r, d).frame, t)) || At(s, At(s, r, d).frame, t) == ZERO
  }

  /** The page table of kern_pgdir's entry d above UTOP, other than the self-map. */
  function KernTable(s: State, d: nat): Option<nat> {
    if UTOPX <= d < 1024 && d != UVPTX then Table(s, s.kern, d) else None
  }

  ghost predicate KernTablesOk(s: State) {
    && (forall d: nat | KernTable(s, d).Some? ::
         KernTable(s, d).value < |s.mem| && KernTable(s, d).value != s.kern && KernTable(s, d).value in s.reserved)
    && (forall d: nat, d': nat | KernTable(s, d).Some? && KernTable(s, d') == KernTable(s, d) :: d == d')
  }

  /** Above UTOP every address space is kern_pgdir's, but for its own self-map. */
  ghost predicate KernelHalf(s: State)
    requires Shape(s)
  {
    && (forall d: nat | d < UTOPX :: At(s, s.kern, d) == ZERO)
    && At(s, s.kern, UVPTX) == Word(s.kern, PTE_U | PTE_P)
    && KernTablesOk(s)
    && (forall r: nat, d: nat | r in s.roots && UTOPX <= d < 1024 ::
         At(s, r, d) == if d == UVPTX then Word(r, PTE_U | PTE_P) else At(s, s.kern, d))
  }

  ghost predicate Valid(s: State) {
    Shape(s) && FreeOk(s) && TargetsOk(s) && Counted(s) && Exclusive(s) && Clean(s) && KernelHalf(s)
  }

  lemma KernelHalfKept(s: State, s': State)
    requires Shape(s) && Shape(s') && KernelHalf(s)
    requires s'.kern == s.kern && s.reserved <= s'.reserved && |s'.mem| == |s.mem| && s'.roots <= s.roots
    requires forall i: nat :: At(s', s.kern, i) == At(s, s.kern, i)
    requires forall r: nat, d: nat | r in s'.roots && UTOPX <= d < 1024 :: At(s', r, d) == At(s, r, d)
    ensures KernelHalf(s')
  {
    hide At;
    assert forall d: nat :: KernTable(s', d) == KernTable(s, d);
  }

  // ------------------------------------------------------------------
  // Counting.
  // ------------------------------------------------------------------

  function One(b: bool): nat {
    if b then 1 else 0
  }

  lemma OneElementApart<T>(a: set<T>, b: set<T>, x: T)
    requires a - {x} == b - {x}
    ensures |b| == |a| - One(x in a) + One(x in b)
  {
    assert a == (a - {x}) + if x in a then {x} else {};
    assert b == (b - {x}) + if x in b then {x} else {};
  }

  /** What a change of one slot does to the count of frame g. */
  lemma Retarget(s: State, s': State, x: Slot, g: nat)
    requires forall y | y != x :: Refers(s', y) == Refers(s, y)
    ensures |Refs(s', g)| == |Refs(s, g)| - One(Refers(s, x) == Some(g)) + One(Refers(s', x) == Some(g))
  {
    hide Refers, Slots, IsSlot;
    OneElementApart(Refs(s, g), Refs(s', g), x);
  }

  lemma HeldCount(s: State, f: nat)
    ensures Held(s, f) <==> |Refs(s, f)| > 0
  {
    if Held(s, f) {
      var x :| Refers(s, x) == Some(f);
      assert x in Refs(s, f);
    } else {
      assert Refs(s, f) == {};
    }
  }

  // ------------------------------------------------------------------
  // page_alloc, page_free, page_decref.
  // ------------------------------------------------------------------

  /** page_alloc(ALLOC_ZERO) when a page is free: the page, its contents zeroed, is off the list. */
  function AllocZero(s: State): State
    requires s.free != [] && s.free[0] < |s.mem|
  {
    s.(free := s.free[1..], mem := s.mem[s.free[0] := ZeroPage()])
  }

  /** page_decref: pp_ref is 16 bits wide, so a count of zero wraps. */
  function Decref(s: State, f: nat): State
    requires f < |s.ref|
  {
    var n := (s.ref[f] + 0xFFFF) % 0x1_0000;
    s.(ref := s.ref[f := n], free := if n == 0 then [f] + s.free else s.free)
  }

  function Incref(s: State, f: nat): State
    requires f < |s.ref|
  {
    s.(ref := s.ref[f := (s.ref[f] + 1) % 0x1_0000])
  }

  ghost function FreeSet(s: State): set<nat> {
    set f | f in s.free
  }

  /** A frame allocated but not yet referenced: between page_alloc and page_insert. */
  ghost predicate InTransit(s: State, f: nat) {
    f < |s.ref| && f !in s.reserved && f !in s.free && !Held(s, f)
  }

  /** On the free list or referenced: accounted for. */
  ghost predicate Known(s: State, f: nat) {
    f in s.free || Held(s, f)
  }

  /** A frame page_insert may map: held only by page table entries, or in transit. */
  ghost predicate DataPage(s: State, f: nat) {
    && f < |s.ref| && f !in s.reserved && f !in s.free
    && forall x | Refers(s, x) == Some(f) :: x.PteSlot?
  }

  /** No user entry of any address space differs. */
  ghost predicate SameEntries(s: State, s': State) {
    && s'.roots == s.roots
    && forall r: nat, d: nat, t: nat | r in s.roots && d < UTOPX && t < 1024 ::
         Entry(s', r, d, t) == Entry(s, r, d, t)
  }

  /** Memory that differs from s only in a frame that is no page directory and no page table. */
  lemma ScratchWrite(s: State, s': State, f: nat)
    requires Valid(s) && f != s.kern && forall x | Refers(s, x) == Some(f) :: x.PteSlot?
    requires |s'.mem| == |s.mem| && s'.roots == s.roots && s'.kern == s.kern && s'.reserved == s.reserved && Shape(s')
    requires forall g: nat | g < |s.mem| && g != f :: s'.mem[g] == s.mem[g]
    ensures forall x :: Refers(s', x) == Refers(s, x)
    ensures SameEntries(s, s') && Clean(s') && Exclusive(s') && KernelHalf(s')
    ensures forall g: nat :: Refs(s', g) == Refs(s, g)
  {
    forall r: nat | r in s.roots ensures r != f {
      assert Refers(s, RootSlot(r)) == Some(r);
    }
    forall r: nat, d: nat | r in s.roots && d < UTOPX ensures Table(s, r, d) != Some(f) {
      assert Refers(s, PdeSlot(r, d)) == Table(s, r, d);
    }
    assert forall r: nat, i: nat | r in s.roots || r == s.kern :: At(s', r, i) == At(s, r, i);
    KernelHalfKept(s, s');
    forall r: nat, d: nat, t: nat | r in s.roots && d < UTOPX && Table(s, r, d).Some?
      ensures At(s', At(s, r, d).frame, t) == At(s, At(s, r, d).frame, t)
    {
      assert At(s, r, d).frame != f;
    }
    forall x ensures Refers(s', x) == Refers(s, x) {
    }
    forall g: nat ensures Refs(s', g) == Refs(s, g) {
    }
  }

  lemma AllocZeroValid(s: State)
    requires Valid(s) && s.free != []
    ensures Valid(AllocZero(s)) && InTransit(AllocZero(s), s.free[0])
    ensures SameEntries(s, AllocZero(s))
    ensures forall x :: Refers(AllocZero(s), x) == Refers(s, x)
    ensures FreeSet(s) == FreeSet(AllocZero(s)) + {s.free[0]}
  {
    var f, s' := s.free[0], AllocZero(s);
    assert s.free == [f] + s'.free;
    assert f in s.free;
    ScratchWrite(s, s', f);
  }

  /** What a data page holds is nothing to the kernel: writing it changes no mapping and no reference. */
  lemma DataWrite(s: State, f: nat, p: Page)
    requires Valid(s) && DataPage(s, f)
    ensures f < |s.mem|
    ensures var s' := s.(mem := s.mem[f := p]);
            && Valid(s') && SameEntries(s, s')
            && (forall x :: Refers(s', x) == Refers(s, x)) && (forall g: nat :: Known(s', g) <==> Known(s, g))
  {
    var s' := s.(mem := s.mem[f := p]);
    ScratchWrite(s, s', f);
    hide Refers;
    forall g: nat ensures Known(s', g) <==> Known(s, g) {
      HeldCount(s, g);
      HeldCount(s', g);
    }
  }

  /** What a reference depends on. */
  lemma SameMemory(s: State, s': State)
    requires s'.mem == s.mem && s'.roots == s.roots
    ensures forall x :: Refers(s', x) == Refers(s, x)
    ensures forall g: nat :: Refs(s', g) == Refs(s, g)
    ensures SameEntries(s, s')
    ensures forall f: nat, i: nat :: At(s', f, i) == At(s, f, i)
  {
    forall x ensures Refers(s', x) == Refers(s, x) {
    }
    forall g: nat ensures Refs(s', g) == Refs(s, g) {
    }
  }

  /** Everything of the state but memory, and what the invariant asks of memory alone. */
  ghost predicate SameBook(s: State, s': State) {
    && s'.ref == s.ref && s'.free == s.free && s'.kern == s.kern && s'.reserved == s.reserved
    && |s'.mem| == |s.mem|
    && Shape(s') && Clean(s') && KernelHalf(s')
  }

  lemma ReleaseCounts(s: State, s1: State, x: Slot, f: nat)
    requires Valid(s) && Refers(s, x) == Some(f) && SameBook(s, s1) && Refers(s1, x) == None
    requires forall y | y != x :: Refers(s1, y) == Refers(s, y)
    ensures f < |s1.ref| && f !in s.reserved && f !in s.free && Counted(Decref(s1, f))
    ensures Decref(s1, f).ref[f] == |Refs(s1, f)|
  {
    hide Refers, Slots, IsSlot, Clean, Entry, KernelHalf, Exclusive;
    var s2 := Decref(s1, f);
    SameMemory(s1, s2);
    assert x in Refs(s, f);
    forall g: nat ensures |Refs(s2, g)| == |Refs(s, g)| - One(g == f) {
      Retarget(s, s2, x, g);
    }
    hide Refs;
  }

  /** Clearing slot x and then calling page_decref on the frame it held. */
  lemma Release(s: State, s1: State, x: Slot, f: nat)
    requires Valid(s) && Refers(s, x) == Some(f)
    requires SameBook(s, s1) && Refers(s1, x) == None
    requires forall y | y != x :: Refers(s1, y) == Refers(s, y)
    ensures f < |s1.ref| && Valid(Decref(s1, f))
    ensures forall y :: Refers(Decref(s1, f), y) == Refers(s1, y)
    ensures FreeSet(Decref(s1, f)) == FreeSet(s) + (if Held(s1, f) then {} else {f})
    ensures SameEntries(s1, Decref(s1, f))
  {
    hide Refers, Slots, IsSlot, Clean, Entry, KernelHalf, Counted, Refs;
    var s2 := Decref(s1, f);
    SameMemory(s1, s2);
    ReleaseCounts(s, s1, x, f);
    HeldCount(s1, f);
    CleanSame(s1, s2);
    hide Held;
    assert f in s2.free <==> |Refs(s1, f)| == 0;
    assert TargetsOk(s2) by {
      forall y | Refers(s2, y).Some?
        ensures var h := Refers(s2, y).value; h < |s2.ref| && h !in s2.free && h !in s2.reserved
      {
        assert Refers(s, y) == Refers(s2, y);
        if Refers(s2, y) == Some(f) { HeldBy(s1, y, f); }
      }
    }
    assert Exclusive(s2);
    hide TargetsOk, Exclusive;
  }

  lemma HeldBy(s: State, x: Slot, f: nat)
    requires Refers(s, x) == Some(f)
    ensures Held(s, f)
  {
  }

  lemma CleanSame(s: State, s': State)
    requires s'.mem == s.mem && s'.roots == s.roots && s'.kern == s.kern && s'.reserved == s.reserved
    requires Shape(s) && Shape(s') && Clean(s) && KernelHalf(s)
    ensures Clean(s') && KernelHalf(s')
  {
    assert forall f: nat, i: nat :: At(s', f, i) == At(s, f, i);
    KernelHalfKept(s, s');
  }

  /** Setting an empty slot x to frame f, and then incrementing its count. */
  lemma Acquire(s: State, s1: State, x: Slot, f: nat)
    requires Valid(s) && Refers(s, x) == None
    requires SameBook(s, s1) && Refers(s1, x) == Some(f)
    requires forall y | y != x :: Refers(s1, y) == Refers(s, y)
    requires if x.PteSlot? then DataPage(s, f) else InTransit(s, f)
    requires s.ref[f] < 0xFFFF
    ensures Valid(Incref(s1, f))
    ensures forall y :: Refers(Incref(s1, f), y) == Refers(s1, y)
    ensures SameEntries(s1, Incref(s1, f))
  {
    hide Refers, Slots, IsSlot, Clean, Entry;
    var s2 := Incref(s1, f);
    SameMemory(s1, s2);
    forall g: nat ensures |Refs(s2, g)| == |Refs(s, g)| + One(g == f) {
      Retarget(s, s2, x, g);
    }
    assert Clean(s2) && KernelHalf(s2) by {
      CleanSame(s1, s2);
    }
  }

  // ------------------------------------------------------------------
  // Writing one entry.
  // ------------------------------------------------------------------

  /** A page table is not free, not a directory, and is the table of one directory entry. */
  ghost predicate OwnTable(s: State, r: nat, d: nat) {
    forall f | Table(s, r, d) == Some(f) ::
      && f < |s.mem| && f != s.kern && f !in s.free && f !in s.reserved && f !in s.roots
      && forall r': nat, d': nat | r' in s.roots && d' < UTOPX && Table(s, r', d') == Some(f) :: r == r' && d == d'
  }

  lemma TablesApart(s: State)
    requires Valid(s)
    ensures forall r: nat, d: nat | r in s.roots && d < UTOPX :: OwnTable(s, r, d)
    ensures forall r: nat | r in s.roots :: r != s.kern && r !in s.free && r !in s.reserved && r < |s.mem|
  {
    forall r: nat | r in s.roots ensures r != s.kern && r !in s.free && r !in s.reserved && r < |s.mem| {
      assert Refers(s, RootSlot(r)) == Some(r);
    }
    forall r: nat, d: nat | r in s.roots && d < UTOPX ensures OwnTable(s, r, d) {
      assert Refers(s, PdeSlot(r, d)) == Table(s, r, d);
      forall r': nat, d': nat |
        r' in s.roots && d' < UTOPX && Table(s, r, d).Some? && Table(s, r', d') == Table(s, r, d)
        ensures r == r' && d == d'
      {
        assert Refers(s, PdeSlot(r', d')) == Table(s, r', d');
      }
      forall r': nat | r' in s.roots ensures Table(s, r, d) != Some(r') {
        assert Refers(s, RootSlot(r')) == Some(r');
      }
    }
  }

  lemma WritePte(s: State, r: nat, d: nat, t: nat, w: Word)
    requires Valid(s) && r in s.roots && d < UTOPX && t < 1024 && Table(s, r, d).Some?
    requires Present(w) || w == ZERO
    ensures Table(s, r, d).value < |s.mem|
    ensures var s1 := Put(s, Table(s, r, d).value, t, w);
            && SameBook(s, s1) && s1.roots == s.roots
            && Entry(s1, r, d, t) == (if Present(w) then Some(w) else None)
            && (forall x | x != PteSlot(r, d, t) :: Refers(s1, x) == Refers(s, x))
            && (forall r': nat, d': nat, t': nat |
                 r' in s.roots && d' < UTOPX && t' < 1024 && (r', d', t') != (r, d, t) ::
                 Entry(s1, r', d', t') == Entry(s, r', d', t'))
            && (forall r': nat, d': nat | r' in s.roots :: At(s1, r', d') == At(s, r', d'))
  {
    TablesApart(s);
    assert OwnTable(s, r, d);
    var table := Table(s, r, d).value;
    var s1 := Put(s, table, t, w);
    assert forall f: nat, i: nat :: At(s1, f, i) == if f == table && i == t then w else At(s, f, i);
    forall r': nat, d': nat | r' in s.roots && d' < UTOPX && (r', d') != (r, d)
      ensures Table(s, r', d') != Some(table)
    {
      assert OwnTable(s, r', d');
    }
    KernelHalfKept(s, s1);
    hide Put, At, OwnTable, Counted, FreeOk, Exclusive, KernelHalf;
    assert forall r': nat, d': nat | r' in s.roots :: Table(s1, r', d') == Table(s, r', d');
    forall r': nat, d': nat, t': nat | r' in s.roots && d' < UTOPX && t' < 1024 && (r', d', t') != (r, d, t)
      ensures Entry(s1, r', d', t') == Entry(s, r', d', t')
    {
    }
    forall x | x != PteSlot(r, d, t) ensures Refers(s1, x) == Refers(s, x) {
    }
  }

  lemma WritePde(s: State, r: nat, d: nat, w: Word)
    requires Valid(s) && r in s.roots && d < UTOPX
    ensures var s1 := Put(s, r, d, w);
            && s1.roots == s.roots && Shape(s1) && KernelHalf(s1)
            && (forall x | x != PdeSlot(r, d) && !(x.PteSlot? && x.r == r && x.d == d) :: Refers(s1, x) == Refers(s, x))
            && (forall r': nat, d': nat, t': nat | r' in s.roots && d' < UTOPX && t' < 1024 && (r', d') != (r, d) ::
                 Entry(s1, r', d', t') == Entry(s, r', d', t'))
            && (forall f: nat, i: nat | f != r || i != d :: At(s1, f, i) == At(s, f, i))
            && At(s1, r, d) == w
  {
    TablesApart(s);
    var s1 := Put(s, r, d, w);
    assert forall f: nat, i: nat :: At(s1, f, i) == if f == r && i == d then w else At(s, f, i);
    KernelHalfKept(s, s1);
    forall r': nat, d': nat | r' in s.roots && d' < UTOPX
      ensures Table(s, r', d') != Some(r)
    {
      assert OwnTable(s, r', d');
    }
    hide Put, At, OwnTable, Counted, FreeOk, Exclusive, KernelHalf, TargetsOk, Clean;
    forall x | x != PdeSlot(r, d) && !(x.PteSlot? && x.r == r && x.d == d) ensures Refers(s1, x) == Refers(s, x) {
    }
  }

  // ------------------------------------------------------------------
  // pgdir_walk with create set.
  // ------------------------------------------------------------------

  /** The branch of pgdir_walk that makes a page table. */
  function AddTable(s: State, r: nat, d: nat): State
    requires 0 < |s.free| && s.free[0] < |s.mem| == |s.ref| <= 0x10_0000 && r < |s.mem| && d < 1024
  {
    var f := s.free[0];
    Incref(Put(AllocZero(s), r, d, Word(f, PTE_U | PTE_W | PTE_P)), f)
  }

  /** pgdir_walk(pgdir, va, 1): the state after it, and whether it returned a pointer. */
  function Walk(s: State, r: nat, d: nat): (State, bool)
    requires 0 < |s.free| ==> s.free[0] < |s.mem| == |s.ref| <= 0x10_0000 && r < |s.mem|
    requires d < 1024
  {
    if Table(s, r, d).Some? then (s, true)
    else if s.free == [] then (s, false)
    else (AddTable(s, r, d), true)
  }

  /** A new page table changes no mapping: it takes the head of the free list and nothing else. */
  lemma AddTableValid(s: State, r: nat, d: nat)
    requires Valid(s) && r in s.roots && d < UTOPX && Table(s, r, d).None? && s.free != []
    ensures var s' := AddTable(s, r, d);
            && Valid(s') && SameEntries(s, s')
            && Table(s', r, d) == Some(s.free[0]) && s'.free == s.free[1..]
            && s' == s.(mem := s'.mem, free := s'.free, ref := s'.ref) && |s'.ref| == |s.ref|
            && (forall x | x != PdeSlot(r, d) :: Refers(s', x) == Refers(s, x))
            && (forall f: nat | f < |s.ref| && f != s.free[0] :: s'.ref[f] == s.ref[f])
  {
    var f := s.free[0];
    var s1 := AllocZero(s);
    var w := Word(f, PTE_U | PTE_W | PTE_P);
    assert Present(w) && w.flags & 7 == 7;
    AllocZeroValid(s);
    assert forall i: nat :: At(s1, f, i) == ZERO;
    TablesApart(s);
    SameEntriesSameRefers(s, s1);
    WritePde(s1, r, d, w);
    var s2 := Put(s1, r, d, w);
    assert Entry(s1, r, d, 0) == Entry(s, r, d, 0);
    assert forall t: nat | t < 1024 :: Entry(s2, r, d, t) == None;
    assert Refers(s1, PdeSlot(r, d)) == None by {
      assert At(s1, r, d) == At(s, r, d);
    }
    assert Clean(s2);
    assert s1.ref[f] == |Refs(s1, f)| by { }
    HeldCount(s1, f);
    assert Refers(s2, PdeSlot(r, d)) == Some(f as nat);
    Acquire(s1, s2, PdeSlot(r, d), f);
  }

  lemma SameEntriesSameRefers(s: State, s': State)
    requires SameEntries(s, s')
    requires forall r: nat, d: nat | r in s.roots && d < UTOPX :: Table(s', r, d) == Table(s, r, d)
    ensures forall x :: Refers(s', x) == Refers(s, x)
  {
  }

  // ------------------------------------------------------------------
  // page_remove and page_insert.
  // ------------------------------------------------------------------

  /** page_remove: it does not look at PTE_P, so an entry that is not present counts as frame 0. */
  function Remove(s: State, r: nat, d: nat, t: nat): State
    requires t < 1024 && |s.ref| == |s.mem|
  {
    match Table(s, r, d)
    case None => s
    case Some(table) =>
      var f := At(s, table, t).frame;
      if table < |s.mem| && f < |s.ref| then Put(Decref(s, f), table, t, ZERO) else s
  }

  /** Only entry (r, d, t) differs, and it is now e. */
  ghost predicate OneEntryChanged(s: State, s': State, r: nat, d: nat, t: nat, e: Option<Word>) {
    && s'.roots == s.roots
    && Entry(s', r, d, t) == e
    && forall r': nat, d': nat, t': nat | r' in s.roots && d' < UTOPX && t' < 1024 && (r', d', t') != (r, d, t) ::
         Entry(s', r', d', t') == Entry(s, r', d', t')
  }

  lemma RemoveIsRelease(s: State, r: nat, d: nat, t: nat, table: nat, f: nat)
    requires |s.mem| == |s.ref| && t < 1024 && Table(s, r, d) == Some(table) && table < |s.mem|
    requires f == At(s, table, t).frame && f < |s.ref|
    ensures Remove(s, r, d, t) == Decref(Put(s, table, t, ZERO), f)
  {
  }

  lemma RemovePresent(s: State, r: nat, d: nat, t: nat)
    requires Valid(s) && r in s.roots && d < UTOPX && t < 1024 && Entry(s, r, d, t).Some?
    ensures var s', f := Remove(s, r, d, t), Entry(s, r, d, t).value.frame;
            && Valid(s') && OneEntryChanged(s, s', r, d, t, None)
            && FreeSet(s') == FreeSet(s) + (if Held(s', f) then {} else {f})
            && (forall x | x != PteSlot(r, d, t) :: Refers(s', x) == Refers(s, x))
            && Refers(s', PteSlot(r, d, t)) == None
            && s' == s.(mem := s'.mem, free := s'.free, ref := s'.ref) && |s'.ref| == |s.ref|
            && (forall i: nat | i < |s.ref| && i != f :: s'.ref[i] == s.ref[i])
            && (forall r': nat, d': nat | r' in s.roots :: At(s', r', d') == At(s, r', d'))
  {
    hide Put, At, Clean, Refers, Slots, IsSlot;
    var table, f := Table(s, r, d).value, Entry(s, r, d, t).value.frame;
    WritePte(s, r, d, t, ZERO);
    var s1 := Put(s, table, t, ZERO);
    EntryRefers(s, r, d, t);
    EntryRefers(s1, r, d, t);
    Release(s, s1, PteSlot(r, d, t), f);
    RemoveIsRelease(s, r, d, t, table, f);
    SameMemory(s1, Decref(s1, f));
  }

  lemma EntryRefers(s: State, r: nat, d: nat, t: nat)
    requires r in s.roots && d < UTOPX && t < 1024
    ensures Refers(s, PteSlot(r, d, t)) == match Entry(s, r, d, t) { case None => None case Some(w) => Some(w.frame) }
    ensures Refers(s, PdeSlot(r, d)) == Table(s, r, d) && Refers(s, RootSlot(r)) == Some(r)
  {
  }

  /** One slot emptied, its frame freed if it was the last reference: no frame is lost or found. */
  lemma KnownAfterRelease(s: State, s': State, x: Slot, f: nat)
    requires Refers(s, x) == Some(f) && Refers(s', x) == None
    requires forall y | y != x :: Refers(s', y) == Refers(s, y)
    requires FreeSet(s') == FreeSet(s) + (if Held(s', f) then {} else {f})
    ensures forall g: nat :: Known(s', g) <==> Known(s, g)
  {
    hide Refers, Slots, IsSlot;
    forall g: nat ensures Known(s', g) <==> Known(s, g) {
      assert g in s.free <==> g in FreeSet(s);
      assert g in s'.free <==> g in FreeSet(s');
      if Held(s, g) && g != f {
        var y :| Refers(s, y) == Some(g);
        assert Refers(s', y) == Some(g);
      }
      if Held(s', g) {
        var y :| Refers(s', y) == Some(g);
        assert Refers(s, y) == Some(g);
      }
    }
  }

  lemma KnownAfterAcquire(s: State, s': State, x: Slot, f: nat)
    requires Refers(s, x) == None && Refers(s', x) == Some(f)
    requires forall y | y != x :: Refers(s', y) == Refers(s, y)
    requires FreeSet(s') == FreeSet(s) || FreeSet(s) == FreeSet(s') + {f}
    ensures forall g: nat :: Known(s', g) <==> Known(s, g) || g == f
  {
    hide Refers, Slots, IsSlot;
    forall g: nat ensures Known(s', g) <==> Known(s, g) || g == f {
      assert g in s.free <==> g in FreeSet(s);
      assert g in s'.free <==> g in FreeSet(s');
      if Held(s, g) {
        var y :| Refers(s, y) == Some(g);
        assert Refers(s', y) == Some(g);
      }
      if Held(s', g) && g != f {
        var y :| Refers(s', y) == Some(g);
        assert Refers(s, y) == Some(g);
      }
    }
  }

  /** page_remove keeps the invariant exactly when its page is mapped or has no page table; on an
      entry that is not present it puts frame 0 on the free list. */
  lemma RemoveValidIff(s: State, r: nat, d: nat, t: nat)
    requires Valid(s) && r in s.roots && d < UTOPX && t < 1024
    ensures Valid(Remove(s, r, d, t)) <==> (Table(s, r, d).None? || Entry(s, r, d, t).Some?)
    ensures Table(s, r, d).Some? && Entry(s, r, d, t).None? ==> 0 in Remove(s, r, d, t).free
  {
    if Entry(s, r, d, t).Some? {
      RemovePresent(s, r, d, t);
    } else if Table(s, r, d).Some? {
      TablesApart(s);
      assert OwnTable(s, r, d);
      assert At(s, At(s, r, d).frame, t) == ZERO;
      var s' := Remove(s, r, d, t);
      assert s'.free[0] == 0 && 0 in s'.reserved;
    }
  }

  /** The middle of page_insert: taking away what the entry maps, keeping a frame that is to be
      mapped there again off the free list. */
  function Evict(s: State, r: nat, d: nat, t: nat, pp: nat): State
    requires t < 1024 && |s.ref| == |s.mem| && pp < |s.ref|
  {
    match Entry(s, r, d, t)
    case None => s
    case Some(w) =>
      if w.frame == pp then s.(ref := s.ref[pp := (s.ref[pp] + 0xFFFF) % 0x1_0000]) else Remove(s, r, d, t)
  }

  /** page_insert from its second line on, given the page table. */
  function Store(s: State, r: nat, d: nat, t: nat, pp: Frame, perm: Flags): State
    requires |s.mem| == |s.ref| <= 0x10_0000 && r < |s.mem| && pp < |s.ref| && d < 1024 && t < 1024
  {
    match Table(s, r, d)
    case None => s
    case Some(table) =>
      if table >= |s.mem| then s else
      var s2 := Evict(s, r, d, t, pp);
      Permit(Incref(Put(s2, table, t, Word(pp, perm | PTE_P)), pp), r, d, perm)
  }

  /** The last line of page_insert: OR-ing permissions into a directory entry. */
  function Permit(s: State, r: nat, d: nat, perm: Flags): State
    requires r < |s.mem| && d < 1024
  {
    Put(s, r, d, At(s, r, d).(flags := At(s, r, d).flags | perm))
  }

  /** page_insert: the state after it, and whether it returned 0. */
  function Insert(s: State, r: nat, d: nat, t: nat, pp: Frame, perm: Flags): (State, bool)
    requires 0 < |s.free| ==> s.free[0] < |s.mem|
    requires |s.mem| == |s.ref| <= 0x10_0000 && r < |s.mem| && pp < |s.ref| && d < 1024 && t < 1024
  {
    var (s1, ok) := Walk(s, r, d);
    if ok then (Store(s1, r, d, t, pp, perm), true) else (s1, false)
  }

  lemma InsertFails(s: State, r: nat, d: nat, t: nat, pp: Frame, perm: Flags)
    requires Valid(s) && r in s.roots && d < UTOPX && t < 1024 && pp < |s.ref|
    ensures !Insert(s, r, d, t, pp, perm).1 ==> Insert(s, r, d, t, pp, perm).0 == s
    ensures Insert(s, r, d, t, pp, perm).1 <==> Table(s, r, d).Some? || s.free != []
  {
    TablesApart(s);
    assert OwnTable(s, r, d);
    if Table(s, r, d).None? && s.free != [] {
      AddTableValid(s, r, d);
    }
  }

  /** page_insert, once the page table is there. */
  lemma InsertForm(s: State, r: nat, d: nat, t: nat, pp: Frame, perm: Flags)
    requires Valid(s) && r in s.roots && d < UTOPX && t < 1024 && pp < |s.ref| && Table(s, r, d).Some?
    ensures Table(s, r, d).value < |s.mem| && |Evict(s, r, d, t, pp).mem| == |Evict(s, r, d, t, pp).ref| == |s.ref|
    ensures r < |s.mem|
    ensures var s1 := Put(Evict(s, r, d, t, pp), Table(s, r, d).value, t, Word(pp, perm | PTE_P));
            Insert(s, r, d, t, pp, perm) == (Permit(Incref(s1, pp), r, d, perm), true)
  {
    TablesApart(s);
    assert OwnTable(s, r, d);
    hide Refers, Slots, IsSlot, Counted, Exclusive, Clean, KernelHalf, TargetsOk, FreeOk;
  }

  /** Once the page table is there and the page holds nothing, page_insert writes one entry, for any
      frame. */
  lemma InsertEmptyWrites(s: State, r: nat, d: nat, t: nat, pp: Frame, perm: Flags)
    requires Valid(s) && r in s.roots && d < UTOPX && t < 1024 && pp < |s.ref|
    requires Table(s, r, d).Some? && Entry(s, r, d, t).None?
    ensures Table(s, r, d).value < |s.mem| && r < |s.mem|
    ensures var w := Word(pp, perm | PTE_P);
            var s1 := Put(s, Table(s, r, d).value, t, w);
            var s2 := Incref(s1, pp);
            var s' := Insert(s, r, d, t, pp, perm).0;
            && s' == Permit(s2, r, d, perm) && s'.free == s.free && s'.reserved == s.reserved && NoTable(s2, r)
            && SameBook(s, s1) && s1.roots == s.roots
            && OneEntryChanged(s, s', r, d, t, Some(w))
            && (forall x | x != PteSlot(r, d, t) :: Refers(s1, x) == Refers(s, x))
            && (forall x :: Refers(s', x) == Refers(s2, x) == Refers(s1, x))
            && Refers(s1, PteSlot(r, d, t)) == Some(pp as nat)
  {
    InsertForm(s, r, d, t, pp, perm);
    assert Evict(s, r, d, t, pp) == s;
    hide Insert, Evict, Slots, Clean, Exclusive, KernelHalf;
    var table := Table(s, r, d).value;
    var w := Word(pp, perm | PTE_P);
    assert Present(w);
    WritePte(s, r, d, t, w);
    var s1 := Put(s, table, t, w);
    assert Refers(s1, PteSlot(r, d, t)) == Some(pp as nat);
    var s2 := Incref(s1, pp);
    SameMemory(s1, s2);
    RootIsNoTable(s, r);
    assert NoTable(s2, r) by {
      assert forall r': nat, d': nat | r' in s.roots :: At(s2, r', d') == At(s1, r', d') == At(s, r', d');
    }
    hide Refers;
    PermitMore(s2, r, d, perm);
  }

  lemma InsertEmpty(s: State, r: nat, d: nat, t: nat, pp: Frame, perm: Flags)
    requires Valid(s) && r in s.roots && d < UTOPX && t < 1024 && DataPage(s, pp)
    requires Table(s, r, d).Some? && Entry(s, r, d, t).None?
    ensures var s' := Insert(s, r, d, t, pp, perm).0;
            && OneEntryChanged(s, s', r, d, t, Some(Word(pp, perm | PTE_P)))
            && s'.free == s.free
            && (forall x | x != PteSlot(r, d, t) :: Refers(s', x) == Refers(s, x))
            && Refers(s', PteSlot(r, d, t)) == Some(pp as nat)
            && (forall g: nat :: Known(s', g) <==> Known(s, g) || g == pp)
            && (Valid(s') <==> s.ref[pp] < 0xFFFF)
  {
    InsertEmptyWrites(s, r, d, t, pp, perm);
    hide Insert, Slots, Clean, Exclusive, KernelHalf;
    var s' := Insert(s, r, d, t, pp, perm).0;
    var s1 := Put(s, Table(s, r, d).value, t, Word(pp, perm | PTE_P));
    assert Refers(s, PteSlot(r, d, t)) == None;
    hide Refers, Put;
    KnownAfterAcquire(s, s', PteSlot(r, d, t), pp);
    if s.ref[pp] < 0xFFFF {
      Acquire(s, s1, PteSlot(r, d, t), pp);
      PermitMoreValid(Incref(s1, pp), r, d, perm);
    } else {
      Retarget(s, s', PteSlot(r, d, t), pp);
      assert s'.ref[pp] == 0;
    }
  }

  /** page_insert maps a reserved frame like any other, and breaks the invariant. */
  lemma InsertReserved(s: State, r: nat, d: nat, t: nat, pp: Frame, perm: Flags)
    requires Valid(s) && r in s.roots && d < UTOPX && t < 1024 && pp < |s.ref| && pp in s.reserved
    requires Insert(s, r, d, t, pp, perm).1
    ensures var s' := Insert(s, r, d, t, pp, perm).0;
            OneEntryChanged(s, s', r, d, t, Some(Word(pp, perm | PTE_P))) && !Valid(s')
  {
    InsertFails(s, r, d, t, pp, perm);
    EntryRefers(s, r, d, t);
    assert Entry(s, r, d, t).Some? ==> Entry(s, r, d, t).value.frame != pp by {
      if Entry(s, r, d, t).Some? { assert Refers(s, PteSlot(r, d, t)).Some?; }
    }
    var s' := Insert(s, r, d, t, pp, perm).0;
    hide Insert, Slots, Clean, Exclusive, KernelHalf, Counted, Entry, AddTable, Remove;
    if Table(s, r, d).None? {
      AddTableValid(s, r, d);
      InsertAfterWalk(s, r, d, t, pp, perm);
      EntryRefers(AddTable(s, r, d), r, d, t);
      InsertEmptyWrites(AddTable(s, r, d), r, d, t, pp, perm);
    } else if Entry(s, r, d, t).None? {
      InsertEmptyWrites(s, r, d, t, pp, perm);
    } else {
      RemovePresent(s, r, d, t);
      InsertAfterRemove(s, r, d, t, pp, perm);
      InsertEmptyWrites(Remove(s, r, d, t), r, d, t, pp, perm);
    }
    assert Refers(s', PteSlot(r, d, t)) == Some(pp as nat) && pp in s'.reserved;
  }

  ghost predicate NoTable(s: State, r: nat) {
    forall r': nat, d': nat | r' in s.roots && d' < UTOPX :: Table(s, r', d') != Some(r)
  }

  lemma RootIsNoTable(s: State, r: nat)
    requires Valid(s) && r in s.roots
    ensures NoTable(s, r)
  {
    TablesApart(s);
    forall r': nat, d': nat | r' in s.roots && d' < UTOPX ensures Table(s, r', d') != Some(r) {
      assert OwnTable(s, r', d');
    }
  }

  lemma PermitMore(s: State, r: nat, d: nat, perm: Flags)
    requires r < |s.mem| && d < UTOPX && Table(s, r, d).Some?
    requires NoTable(s, r)
    ensures var s' := Permit(s, r, d, perm);
            && (forall x :: Refers(s', x) == Refers(s, x))
            && (forall g: nat :: Refs(s', g) == Refs(s, g))
            && SameEntries(s, s')
  {
    var s' := Permit(s, r, d, perm);
    var v := At(s, r, d).flags;
    assert v & PTE_P != 0 ==> (v | perm) & PTE_P != 0;
    assert forall f: nat, i: nat | f != r || i != d :: At(s', f, i) == At(s, f, i);
    hide Put, At;
    assert forall r': nat, d': nat :: Table(s', r', d') == Table(s, r', d');
    forall r': nat, d': nat, t: nat | r' in s.roots && d' < UTOPX ensures Entry(s', r', d', t) == Entry(s, r', d', t) {
    }
    SameEntriesSameRefers(s, s');
    forall g: nat ensures Refs(s', g) == Refs(s, g) {
      hide Refers;
    }
  }

  lemma PermitMoreValid(s: State, r: nat, d: nat, perm: Flags)
    requires Valid(s) && r in s.roots && d < UTOPX && Table(s, r, d).Some?
    ensures Valid(Permit(s, r, d, perm))
  {
    var s' := Permit(s, r, d, perm);
    var v := At(s, r, d).flags;
    assert v & 7 == 7 ==> (v | perm) & 7 == 7;
    RootIsNoTable(s, r);
    TablesApart(s);
    PermitMore(s, r, d, perm);
    WritePde(s, r, d, At(s', r, d));
    hide Refers, Slots, IsSlot, Entry, Put, KernelHalf, Permit;
    CleanPermitted(s, s', r, d);
    hide Clean;
    assert s'.ref == s.ref && s'.free == s.free;
  }

  /** A present entry with more permissions is as clean as before. */
  lemma CleanPermitted(s: State, s': State, r: nat, d: nat)
    requires Clean(s) && s'.roots == s.roots && NoTable(s, r) && r in s.roots && d < UTOPX && Table(s, r, d).Some?
    requires forall f: nat, i: nat | f != r || i != d :: At(s', f, i) == At(s, f, i)
    requires At(s', r, d).frame == At(s, r, d).frame && At(s', r, d).flags & 7 == 7
    ensures Clean(s')
  {
    forall r': nat, d': nat | r' in s.roots && d' < UTOPX ensures Table(s', r', d') == Table(s, r', d') {
      if r' == r && d' == d {
        var v := At(s', r, d).flags;
        assert v & 7 == 7 ==> v & PTE_P != 0;
      }
    }
  }

  /** Re-inserting the frame already mapped there only changes the permissions. */
  lemma InsertSame(s: State, r: nat, d: nat, t: nat, pp: Frame, perm: Flags)
    requires Valid(s) && r in s.roots && d < UTOPX && t < 1024
    requires Entry(s, r, d, t).Some? && Entry(s, r, d, t).value.frame == pp
    requires pp < |s.ref| && DataPage(s, pp)
    ensures var s' := Insert(s, r, d, t, pp, perm).0;
            && OneEntryChanged(s, s', r, d, t, Some(Word(pp, perm | PTE_P)))
            && s'.free == s.free && s'.ref == s.ref && Valid(s')
            && (forall g: nat :: Known(s', g) <==> Known(s, g) || g == pp)
  {
    hide Refers, Slots, IsSlot, Clean, Insert, Exclusive, KernelHalf, Permit;
    var s' := Insert(s, r, d, t, pp, perm).0;
    var table := Table(s, r, d).value;
    var w := Word(pp, perm | PTE_P);
    assert Present(w);
    WritePte(s, r, d, t, w);
    var s1 := Put(s, table, t, w);
    InsertSameForm(s, r, d, t, pp, perm);
    EntryRefers(s1, r, d, t);
    EntryRefers(s, r, d, t);
    assert forall x: Slot :: Refers(s1, x) == Refers(s, x);
    SameRefersValid(s, s1);
    hide Put, Counted, TargetsOk, FreeOk, At;
    RootIsNoTable(s1, r);
    PermitMore(s1, r, d, perm);
    PermitMoreValid(s1, r, d, perm);
    assert Held(s, pp);
    HeldByRefers(s, s');
  }

  lemma InsertSameForm(s: State, r: nat, d: nat, t: nat, pp: Frame, perm: Flags)
    requires Valid(s) && r in s.roots && d < UTOPX && t < 1024 && DataPage(s, pp)
    requires Entry(s, r, d, t).Some? && Entry(s, r, d, t).value.frame == pp
    ensures Table(s, r, d).value < |s.mem| && r < |s.mem|
    ensures var s' := Insert(s, r, d, t, pp, perm).0;
            && s' == Permit(Put(s, Table(s, r, d).value, t, Word(pp, perm | PTE_P)), r, d, perm)
            && s'.free == s.free && s'.ref == s.ref
  {
    InsertForm(s, r, d, t, pp, perm);
    EntryRefers(s, r, d, t);
    assert Held(s, pp);
    HeldCount(s, pp);
    hide Refers, Slots, IsSlot, Clean, Insert, Exclusive, KernelHalf, TargetsOk;
    assert 0 < s.ref[pp] < 0x1_0000;
    assert s.ref[pp := (s.ref[pp] + 0xFFFF) % 0x1_0000][pp := s.ref[pp]] == s.ref;
  }

  lemma SameRefersValid(s: State, s': State)
    requires Valid(s) && SameBook(s, s') && s'.roots == s.roots && forall x: Slot :: Refers(s', x) == Refers(s, x)
    ensures Valid(s')
  {
    hide Refers, Clean, KernelHalf, IsSlot, Slots;
    forall g: nat ensures Refs(s', g) == Refs(s, g) {
    }
  }

  lemma HeldByRefers(s: State, s': State)
    requires (forall g: nat :: Refs(s', g) == Refs(s, g)) || forall x: Slot :: Refers(s', x) == Refers(s, x)
    ensures forall g: nat :: Held(s', g) <==> Held(s, g)
  {
    hide Refs;
    forall g: nat ensures Held(s', g) <==> Held(s, g) {
      HeldCount(s, g);
      HeldCount(s', g);
    }
  }

  /** The permissions the MMU finds on the way to a page. */
  function Grants(s: State, r: nat, d: nat, t: nat): Flags {
    match Entry(s, r, d, t)
    case None => 0
    case Some(w) => At(s, r, d).flags & w.flags
  }

  /** The MMU lets user code write page (d, t). */
  predicate UserWrites(s: State, r: nat, d: nat, t: nat) {
    Grants(s, r, d, t) & (PTE_U | PTE_W | PTE_P) == PTE_U | PTE_W | PTE_P
  }

  /** User code can write exactly the pages it maps with PTE_U and PTE_W, and only data pages. */
  lemma UserWritesData(s: State, r: nat, d: nat, t: nat)
    requires Valid(s) && r in s.roots && d < UTOPX && t < 1024
    ensures UserWrites(s, r, d, t) <==> Entry(s, r, d, t).Some? && Entry(s, r, d, t).value.flags & 7 == 7
    ensures Entry(s, r, d, t).Some? ==> DataPage(s, Entry(s, r, d, t).value.frame)
  {
    GrantsEntry(s, r, d, t);
    EntryRefers(s, r, d, t);
    assert PTE_U | PTE_W | PTE_P == 7;
    hide Refers;
    if Entry(s, r, d, t).Some? {
      var f := Entry(s, r, d, t).value.frame;
      assert Refers(s, PteSlot(r, d, t)) == Some(f as nat);
      forall x | Refers(s, x) == Some(f as nat) ensures x.PteSlot? {
      }
    }
  }

  lemma GrantsEntry(s: State, r: nat, d: nat, t: nat)
    requires Valid(s) && r in s.roots && d < UTOPX && t < 1024
    ensures Grants(s, r, d, t) & 7 == match Entry(s, r, d, t) { case None => 0 case Some(w) => w.flags & 7 }
  {
    if Entry(s, r, d, t).Some? {
      var v, w := At(s, r, d).flags, Entry(s, r, d, t).value.flags;
      assert v & 7 == 7;
      assert v & 7 == 7 ==> (v & w) & 7 == w & 7;
    }
  }

  /** page_insert goes on as if the page table had been there, and the old page not. */
  lemma InsertAfterWalk(s: State, r: nat, d: nat, t: nat, pp: Frame, perm: Flags)
    requires Valid(s) && r in s.roots && d < UTOPX && t < 1024 && pp < |s.ref| && Table(s, r, d).None? && s.free != []
    ensures Valid(AddTable(s, r, d)) && Insert(s, r, d, t, pp, perm) == Insert(AddTable(s, r, d), r, d, t, pp, perm)
  {
    AddTableValid(s, r, d);
    hide Refers, Slots, IsSlot, Clean, AddTable, Store;
  }

  lemma InsertAfterRemove(s: State, r: nat, d: nat, t: nat, pp: Frame, perm: Flags)
    requires Valid(s) && r in s.roots && d < UTOPX && t < 1024 && pp < |s.ref|
    requires Entry(s, r, d, t).Some? && Entry(s, r, d, t).value.frame != pp
    ensures Valid(Remove(s, r, d, t)) && Insert(s, r, d, t, pp, perm) == Insert(Remove(s, r, d, t), r, d, t, pp, perm)
    ensures Table(Remove(s, r, d, t), r, d) == Table(s, r, d)
  {
    RemovePresent(s, r, d, t);
    assert Table(Remove(s, r, d, t), r, d) == Table(s, r, d);
    hide Refers, Slots, IsSlot, Clean, Remove, Permit, Incref, Put, Entry, Table;
  }

  /** page_insert on the flat map: a success changes entry (r, d, t) and no other, in any address
      space; it keeps the invariant exactly when pp_ref has room or the frame is the one mapped
      there; and frames move between the free list and the tables only as said. */
  lemma InsertCorrect(s: State, r: nat, d: nat, t: nat, pp: Frame, perm: Flags)
    requires Valid(s) && r in s.roots && d < UTOPX && t < 1024 && DataPage(s, pp)
    requires Insert(s, r, d, t, pp, perm).1
    ensures var s', e := Insert(s, r, d, t, pp, perm).0, Entry(s, r, d, t);
            && OneEntryChanged(s, s', r, d, t, Some(Word(pp, perm | PTE_P)))
            && (Valid(s') <==> s.ref[pp] < 0xFFFF || (e.Some? && e.value.frame == pp))
            && (forall g: nat :: Known(s', g) <==> Known(s, g) || g == pp)
            && FreeSet(s') == FreeSet(s) - (if Table(s, r, d).None? then {s.free[0]} else {})
                                         + (if e.Some? && !Held(s', e.value.frame) then {e.value.frame} else {})
  {
    InsertFails(s, r, d, t, pp, perm);
    var s' := Insert(s, r, d, t, pp, perm).0;
    var e := Entry(s, r, d, t);
    hide Refers, Slots, IsSlot, Clean, Insert;
    if Table(s, r, d).None? {
      InsertNewTable(s, r, d, t, pp, perm);
    } else if e.None? {
      InsertEmpty(s, r, d, t, pp, perm);
    } else if e.value.frame == pp {
      InsertSame(s, r, d, t, pp, perm);
      EntryRefers(s', r, d, t);
      assert Held(s', pp);
    } else {
      InsertOver(s, r, d, t, pp, perm);
    }
  }

  lemma InsertNewTable(s: State, r: nat, d: nat, t: nat, pp: Frame, perm: Flags)
    requires Valid(s) && r in s.roots && d < UTOPX && t < 1024 && DataPage(s, pp) && Table(s, r, d).None?
    requires s.free != []
    ensures var s' := Insert(s, r, d, t, pp, perm).0;
            && OneEntryChanged(s, s', r, d, t, Some(Word(pp, perm | PTE_P)))
            && (Valid(s') <==> s.ref[pp] < 0xFFFF)
            && (forall g: nat :: Known(s', g) <==> Known(s, g) || g == pp)
            && FreeSet(s') == FreeSet(s) - {s.free[0]}
  {
    hide Refers, Slots, IsSlot, Clean, Insert, AddTable;
    AddTableValid(s, r, d);
    InsertAfterWalk(s, r, d, t, pp, perm);
    var s1 := AddTable(s, r, d);
    assert s.free == [s.free[0]] + s1.free;
    EntryRefers(s1, r, d, t);
    assert DataPage(s1, pp);
    InsertEmpty(s1, r, d, t, pp, perm);
    EntryRefers(s, r, d, t);
    KnownAfterAcquire(s, s1, PdeSlot(r, d), s.free[0]);
  }

  lemma InsertOver(s: State, r: nat, d: nat, t: nat, pp: Frame, perm: Flags)
    requires Valid(s) && r in s.roots && d < UTOPX && t < 1024 && DataPage(s, pp)
    requires Entry(s, r, d, t).Some? && Entry(s, r, d, t).value.frame != pp
    ensures var s', f := Insert(s, r, d, t, pp, perm).0, Entry(s, r, d, t).value.frame;
            && OneEntryChanged(s, s', r, d, t, Some(Word(pp, perm | PTE_P)))
            && (Valid(s') <==> s.ref[pp] < 0xFFFF)
            && (forall g: nat :: Known(s', g) <==> Known(s, g) || g == pp)
            && FreeSet(s') == FreeSet(s) + (if !Held(s', f) then {f} else {})
  {
    hide Refers, Slots, IsSlot, Clean, Insert, Remove;
    var s', f := Insert(s, r, d, t, pp, perm).0, Entry(s, r, d, t).value.frame;
    RemovePresent(s, r, d, t);
    InsertAfterRemove(s, r, d, t, pp, perm);
    var s2 := Remove(s, r, d, t);
    EntryRefers(s, r, d, t);
    assert pp !in FreeSet(s2);
    InsertEmpty(s2, r, d, t, pp, perm);
    HeldAfterInsert(s2, s', r, d, t, f);
    KnownAfterRelease(s, s2, PteSlot(r, d, t), f);
  }

  lemma HeldAfterInsert(s: State, s': State, r: nat, d: nat, t: nat, f: nat)
    requires forall x | x != PteSlot(r, d, t) :: Refers(s', x) == Refers(s, x)
    requires Refers(s, PteSlot(r, d, t)) != Some(f) && Refers(s', PteSlot(r, d, t)) != Some(f)
    ensures Held(s', f) <==> Held(s, f)
  {
    hide Refers, Slots, IsSlot;
  }

  /** page_insert adds its permissions to the directory entry, which keeps its page table, or gets a new one
      that user code may use in all ways. */
  lemma InsertPermits(s: State, r: nat, d: nat, t: nat, pp: Frame, perm: Flags)
    requires Valid(s) && r in s.roots && d < UTOPX && t < 1024 && pp < |s.ref| && Insert(s, r, d, t, pp, perm).1
    ensures s.free != [] ==> s.free[0] < 0x10_0000
    ensures var e := At(Insert(s, r, d, t, pp, perm).0, r, d);
            if Table(s, r, d).Some? then e == Word(At(s, r, d).frame, At(s, r, d).flags | perm)
            else s.free != [] && e == Word(s.free[0], 0x007 | perm)
  {
    InsertFails(s, r, d, t, pp, perm);
    assert |s.mem| == |s.ref| <= 0x10_0000;
    hide Insert;
    if Table(s, r, d).Some? {
      InsertPermitsIn(s, r, d, t, pp, perm);
    } else {
      InsertAfterWalk(s, r, d, t, pp, perm);
      AddTableEntry(s, r, d);
      InsertPermitsIn(AddTable(s, r, d), r, d, t, pp, perm);
    }
  }

  lemma InsertPermitsIn(s: State, r: nat, d: nat, t: nat, pp: Frame, perm: Flags)
    requires Valid(s) && r in s.roots && d < UTOPX && t < 1024 && pp < |s.ref| && Table(s, r, d).Some?
    ensures At(Insert(s, r, d, t, pp, perm).0, r, d) == Word(At(s, r, d).frame, At(s, r, d).flags | perm)
  {
    InsertForm(s, r, d, t, pp, perm);
    EvictKeepsRoot(s, r, d, t, pp);
    hide Valid, Insert, Evict;
  }

  lemma EvictKeepsRoot(s: State, r: nat, d: nat, t: nat, pp: Frame)
    requires Valid(s) && r in s.roots && d < UTOPX && t < 1024 && pp < |s.ref| && Table(s, r, d).Some?
    ensures At(Evict(s, r, d, t, pp), r, d) == At(s, r, d) && Table(s, r, d) != Some(r)
  {
    TablesApart(s);
    assert OwnTable(s, r, d);
    if Entry(s, r, d, t).Some? && Entry(s, r, d, t).value.frame != pp {
      RemovePresent(s, r, d, t);
    }
    hide Valid, Remove, Refers;
  }

  lemma AddTableEntry(s: State, r: nat, d: nat)
    requires Valid(s) && r in s.roots && d < UTOPX && Table(s, r, d).None? && s.free != []
    ensures s.free[0] < |s.mem| <= 0x10_0000 && Valid(AddTable(s, r, d)) && Table(AddTable(s, r, d), r, d).Some?
    ensures At(AddTable(s, r, d), r, d) == Word(s.free[0], 0x007) && AddTable(s, r, d).roots == s.roots
    ensures |AddTable(s, r, d).ref| == |s.ref|
  {
    AddTableValid(s, r, d);
    assert PTE_U | PTE_W | PTE_P == 0x007;
    hide Refers, Slots, IsSlot, Counted, Exclusive, Clean, KernelHalf, TargetsOk;
  }

  /** page_insert does not touch the contents of any data page. */
  lemma InsertKeepsContents(s: State, r: nat, d: nat, t: nat, pp: Frame, perm: Flags, g: Frame)
    requires Valid(s) && r in s.roots && d < UTOPX && t < 1024 && pp < |s.ref| && DataPage(s, g)
    ensures |Insert(s, r, d, t, pp, perm).0.mem| == |s.mem| && Insert(s, r, d, t, pp, perm).0.mem[g] == s.mem[g]
  {
    hide Insert;
    InsertFails(s, r, d, t, pp, perm);
    if Table(s, r, d).Some? {
      InsertKeepsContentsIn(s, r, d, t, pp, perm, g);
    } else if s.free != [] {
      InsertAfterWalk(s, r, d, t, pp, perm);
      AddTableKeeps(s, r, d, g);
      InsertKeepsContentsIn(AddTable(s, r, d), r, d, t, pp, perm, g);
    }
  }

  lemma InsertKeepsContentsIn(s: State, r: nat, d: nat, t: nat, pp: Frame, perm: Flags, g: Frame)
    requires Valid(s) && r in s.roots && d < UTOPX && t < 1024 && pp < |s.ref| && DataPage(s, g) && Table(s, r, d).Some?
    ensures |Insert(s, r, d, t, pp, perm).0.mem| == |s.mem| && Insert(s, r, d, t, pp, perm).0.mem[g] == s.mem[g]
  {
    InsertForm(s, r, d, t, pp, perm);
    DataIsNoTable(s, r, d, g);
    hide Refers, Slots, IsSlot, Counted, Exclusive, Clean, KernelHalf, TargetsOk, Insert, DataPage;
    assert Evict(s, r, d, t, pp).mem[g] == s.mem[g];
  }

  lemma DataIsNoTable(s: State, r: nat, d: nat, g: nat)
    requires Valid(s) && r in s.roots && d < UTOPX && DataPage(s, g)
    ensures r != g && Table(s, r, d) != Some(g) && g < |s.mem|
  {
    EntryRefers(s, r, d, 0);
    hide Refers;
  }

  lemma RemoveKeepsContents(s: State, r: nat, d: nat, t: nat, g: nat)
    requires Valid(s) && r in s.roots && d < UTOPX && t < 1024 && DataPage(s, g)
    ensures |Remove(s, r, d, t).mem| == |s.mem| && g < |s.mem| && Remove(s, r, d, t).mem[g] == s.mem[g]
  {
    DataIsNoTable(s, r, d, g);
    hide Valid, Refers, DataPage;
  }

  lemma AddTableKeeps(s: State, r: nat, d: nat, pp: Frame)
    requires Valid(s) && r in s.roots && d < UTOPX && Table(s, r, d).None? && s.free != [] && DataPage(s, pp)
    ensures s.free[0] < |s.mem|
    ensures var s1 := AddTable(s, r, d);
            && |s1.mem| == |s.mem| && s1.roots == s.roots && Table(s1, r, d).Some?
            && s1.mem[pp] == s.mem[pp] && DataPage(s1, pp)
  {
    AddTableValid(s, r, d);
    assert Refers(s, RootSlot(r)) == Some(r);
    assert s.free[0] in s.free;
    hide Refers, Slots, IsSlot, Counted, Exclusive, Clean, KernelHalf, TargetsOk;
  }

  // ------------------------------------------------------------------
  // The self-map.
  // ------------------------------------------------------------------

  /** In every valid state, user code that reads `uvpd` and `uvpt` sees what pgdir_walk sees: all of
      its directory, and the entry of each page below UTOP that has a page table. */
  lemma UserSeesTables(s: State, r: Frame, d: Index, t: Index)
    requires Valid(s) && r as nat in s.roots
    ensures SelfMapped(s.mem, r)
    ensures HwRead(s.mem, r, UVPT + UVPT / PGSIZE * 4 + 4 * d, true) == Some(At(s, r, d))
    ensures d < UTOPX ==> HwRead(s.mem, r, UVPT + 4 * (d * 1024 + t), true) ==
                          match Table(s, r, d) { case None => None case Some(table) => Some(At(s, table, t)) }
  {
    TablesApart(s);
    assert At(s, r, UVPTX) == Word(r, PTE_U | PTE_P);
    assert SelfMapped(s.mem, r);
    UvpdReadsDirectory(s.mem, r, d, true);
    if d < UTOPX {
      var n := d * 1024 + t;
      assert n / 1024 == d && n % 1024 == t;
      assert OwnTable(s, r, d);
      var v := At(s, r, d).flags;
      assert Table(s, r, d).Some? ==> v & 7 == 7;
      assert v & 7 == 7 ==> v & PTE_U != 0;
      UvptReadsPageTable(s.mem, r, n, true);
    }
  }
}
