/** Making and tearing down the address space of an environment (env_setup_vm and env_free in
    kern/env.c), and the invariant of kern/pmap.c over every run. */
module EnvVm {
  import opened Mmu
  import opened Pmap

  // ------------------------------------------------------------------
  // env_setup_vm.
  // ------------------------------------------------------------------

  /** env_setup_vm: the state after it, and the new env_pgdir unless memory ran out. */
  function Setup(s: State): (State, Option<Frame>)
    requires 0 < |s.free| ==> s.free[0] < |s.mem| == |s.ref| <= 0x10_0000
    requires s.kern < |s.mem|
  {
    if s.free == [] then (s, None) else
    var f := s.free[0];
    var s1 := AllocZero(s);
    var dir: Page := s.mem[s.kern][UVPTX := Word(f, PTE_P | PTE_U)];
    (Incref(s1.(mem := s1.mem[f := dir], roots := s1.roots + {f}), f), Some(f))
  }

  /** The new address space maps nothing below UTOP, maps itself at UVPT, and touches no other. */
  lemma SetupCorrect(s: State)
    requires Valid(s)
    ensures Setup(s).1.None? <==> s.free == []
    ensures Setup(s).1.None? ==> Setup(s).0 == s
    ensures Setup(s).1.Some? ==>
              var s', f := Setup(s).0, Setup(s).1.value;
              && Valid(s') && f !in s.roots && s'.roots == s.roots + {f}
              && FreeSet(s) == FreeSet(s') + {f} && f !in s'.free
              && (forall d: nat, t: nat | d < UTOPX && t < 1024 :: Entry(s', f, d, t).None?)
              && (forall r: nat, d: nat, t: nat | r in s.roots && d < UTOPX && t < 1024 ::
                   Entry(s', r, d, t) == Entry(s, r, d, t))
              && SelfMapped(s'.mem, f)
              && (forall x | x != RootSlot(f) :: Refers(s', x) == Refers(s, x))
              && Refers(s, RootSlot(f)) == None && Refers(s', RootSlot(f)) == Some(f as nat)
  {
    if s.free != [] {
      var f := s.free[0];
      var s1, s' := AllocZero(s), Setup(s).0;
      AllocZeroValid(s);
      TablesApart(s1);
      TablesApart(s);
      assert s.free == [f] + s1.free;
      var s2 := s1.(mem := s'.mem, roots := s'.roots);
      assert forall i: nat | i < 1024 ::
               At(s2, f, i) == if i == UVPTX then Word(f, PTE_P | PTE_U) else At(s, s.kern, i);
      assert forall g: nat, i: nat | g != f :: At(s2, g, i) == At(s1, g, i) == At(s, g, i);
      forall r: nat, d: nat | r in s1.roots && d < UTOPX ensures Table(s1, r, d) != Some(f as nat) {
        EntryRefers(s1, r, d, 0);
      }
      SetupRefers(s1, s2, f);
      assert f !in s1.roots && f != s.kern;
      assert PTE_P | PTE_U == PTE_U | PTE_P;
      assert KernelHalf(s2) by {
        KernelHalfKept(s1, s2.(roots := s1.roots));
        assert forall d: nat :: KernTable(s2, d) == KernTable(s1, d);
      }
      SetupClean(s1, s2, f);
      assert s1.ref[f] == 0 by {
        HeldCount(s1, f);
      }
      hide Refers, Slots, IsSlot, Clean, KernelHalf;
      Acquire(s1, s2, RootSlot(f), f);
    }
  }

  lemma SetupClean(s: State, s': State, f: nat)
    requires Clean(s) && s'.roots == s.roots + {f}
    requires forall r: nat, d: nat | r in s.roots && d < UTOPX :: r != f && Table(s, r, d) != Some(f)
    requires forall g: nat, i: nat | g != f :: At(s', g, i) == At(s, g, i)
    requires forall i: nat | i < UTOPX :: At(s', f, i) == ZERO
    ensures Clean(s')
  {
    hide At;
    forall r: nat, d: nat | r in s'.roots && d < UTOPX && Table(s', r, d).Some?
      ensures && At(s', r, d).flags & 7 == 7
              && forall t: nat | t < 1024 ::
                   Present(At(s', At(s', r, d).frame, t)) || At(s', At(s', r, d).frame, t) == ZERO
    {
      assert r != f && Table(s, r, d) == Table(s', r, d);
    }
  }

  lemma SetupRefers(s: State, s': State, f: nat)
    requires f !in s.roots && s'.roots == s.roots + {f}
    requires forall r: nat, d: nat | r in s.roots && d < UTOPX :: Table(s, r, d) != Some(f)
    requires forall g: nat, i: nat | g != f :: At(s', g, i) == At(s, g, i)
    requires forall i: nat | i < UTOPX :: At(s', f, i) == ZERO
    ensures forall x: Slot | x != RootSlot(f) :: Refers(s', x) == Refers(s, x)
    ensures Refers(s, RootSlot(f)) == None && Refers(s', RootSlot(f)) == Some(f)
    ensures forall r: nat, d: nat, t: nat | r in s.roots && d < UTOPX && t < 1024 ::
              Entry(s', r, d, t) == Entry(s, r, d, t)
  {
    assert forall r: nat, d: nat | r in s.roots :: Table(s', r, d) == Table(s, r, d);
    hide At;
    forall r: nat, d: nat, t: nat | r in s.roots && d < UTOPX && t < 1024
      ensures Entry(s', r, d, t) == Entry(s, r, d, t)
    {
    }
    assert forall d: nat | d < UTOPX :: Table(s', f, d) == None;
  }

  // ------------------------------------------------------------------
  // env_free.
  // ------------------------------------------------------------------

  /** The inner loop of env_free from pteno == t on. */
  function ClearTable(s: State, r: nat, d: nat, t: nat): State
    requires t <= 1024 && |s.ref| == |s.mem|
    decreases 1024 - t
  {
    if t == 1024 then s
    else ClearTable(if Entry(s, r, d, t).Some? then Remove(s, r, d, t) else s, r, d, t + 1)
  }

  /** The last lines of the outer loop: the directory entry is cleared and the table released. */
  function DropTable(s: State, r: nat, d: nat): State
    requires r < |s.mem| && d < 1024 && At(s, r, d).frame < |s.ref|
  {
    Decref(Put(s, r, d, ZERO), At(s, r, d).frame)
  }

  /** The outer loop of env_free from pdeno == d on. */
  function ClearDir(s: State, r: nat, d: nat): State
    requires d <= UTOPX && |s.ref| == |s.mem| && r < |s.mem|
    decreases UTOPX - d
  {
    if d == UTOPX then s
    else if Table(s, r, d).None? then ClearDir(s, r, d + 1)
    else
      var s1 := ClearTable(s, r, d, 0);
      if |s1.ref| == |s1.mem| && r < |s1.mem| && At(s1, r, d).frame < |s1.ref|
      then var s2 := DropTable(s1, r, d); ClearDir(s2, r, d + 1)
      else s1
  }

  function Teardown(s: State, r: nat): State
    requires |s.ref| == |s.mem| && r < |s.mem|
  {
    var s1 := ClearDir(s, r, 0);
    if r < |s1.ref| then Decref(s1.(roots := s1.roots - {r}), r) else s1
  }

  /** Some references of address space r are gone, every other reference stands, and the frames
      that lost their last one are free. */
  ghost predicate Peeled(s: State, s': State, r: nat) {
    && Valid(s) && Valid(s') && |s'.ref| == |s.ref|
    && s' == s.(mem := s'.mem, ref := s'.ref, free := s'.free, roots := s'.roots)
    && (forall x: Slot :: Refers(s', x) == Refers(s, x) || (x.r == r && Refers(s', x) == None))
    && (forall f: nat :: f in FreeSet(s') <==> f in FreeSet(s) || (Held(s, f) && !Held(s', f)))
    && (forall r': nat, d: nat, t: nat | r' in s.roots && r' != r && d < UTOPX && t < 1024 ::
         r' in s'.roots && Entry(s', r', d, t) == Entry(s, r', d, t))
  }

  lemma PeeledTrans(s: State, s1: State, s2: State, r: nat)
    requires Peeled(s, s1, r) && Peeled(s1, s2, r)
    ensures Peeled(s, s2, r)
  {
    hide Refers, Valid, FreeSet, Entry, Held;
    forall f: nat ensures Held(s2, f) ==> Held(s1, f) {
      HeldPeels(s1, s2, r, f);
    }
    forall f: nat ensures Held(s1, f) ==> Held(s, f) {
      HeldPeels(s, s1, r, f);
    }
  }

  lemma HeldPeels(s: State, s': State, r: nat, f: nat)
    requires Peeled(s, s', r)
    ensures Held(s', f) ==> Held(s, f)
  {
    hide Refers, Valid, FreeSet, Entry;
  }

  lemma PeeledRefl(s: State, r: nat)
    requires Valid(s)
    ensures Peeled(s, s, r)
  {
    hide Refers, Counted, Exclusive, Clean, KernelHalf, FreeOk, TargetsOk, FreeSet;
  }

  lemma RemovePeels(s: State, r: nat, d: nat, t: nat)
    requires Valid(s) && r in s.roots && d < UTOPX && t < 1024 && Entry(s, r, d, t).Some?
    ensures var s' := Remove(s, r, d, t);
            && Peeled(s, s', r) && s'.roots == s.roots && Refers(s', PteSlot(r, d, t)) == None
            && (forall x: Slot | x != PteSlot(r, d, t) :: Refers(s', x) == Refers(s, x))
  {
    hide Refers, Counted, Exclusive, Clean, KernelHalf, FreeOk, TargetsOk, Slots, IsSlot, Remove, Entry;
    var s', f := Remove(s, r, d, t), Entry(s, r, d, t).value.frame;
    RemovePresent(s, r, d, t);
    EntryRefers(s, r, d, t);
    assert Held(s, f);
  }

  /** The inner loop removes every page of table (r, d), and only those. */
  lemma {:induction false} ClearTablePeels(s: State, r: nat, d: nat, t: nat)
    requires Valid(s) && r in s.roots && d < UTOPX && t <= 1024 && Table(s, r, d).Some?
    requires forall i: nat | i < t :: Refers(s, PteSlot(r, d, i)) == None
    ensures var s' := ClearTable(s, r, d, t);
            && Peeled(s, s', r) && s'.roots == s.roots
            && (forall x: Slot | !(x.PteSlot? && x.r == r && x.d == d) :: Refers(s', x) == Refers(s, x))
            && (forall i: nat | i < 1024 :: Refers(s', PteSlot(r, d, i)) == None)
    decreases 1024 - t
  {
    hide Refers, Counted, Exclusive, Clean, KernelHalf, FreeOk, TargetsOk, Slots, IsSlot, Remove;
    PeeledRefl(s, r);
    if t < 1024 {
      var s1 := if Entry(s, r, d, t).Some? then Remove(s, r, d, t) else s;
      EntryRefers(s, r, d, t);
      if Entry(s, r, d, t).Some? {
        RemovePeels(s, r, d, t);
        EntryRefers(s1, r, d, t);
      }
      ClearTablePeels(s1, r, d, t + 1);
      PeeledTrans(s, s1, ClearTable(s1, r, d, t + 1), r);
    }
  }

  lemma ClearPde(s: State, r: nat, d: nat)
    requires Valid(s) && r in s.roots && d < UTOPX && Table(s, r, d).Some?
    requires forall i: nat | i < 1024 :: Refers(s, PteSlot(r, d, i)) == None
    ensures r < |s.mem| && At(s, r, d).frame < |s.ref| && Refers(s, PdeSlot(r, d)) == Some(At(s, r, d).frame as nat)
    ensures var s1 := Put(s, r, d, ZERO);
            && SameBook(s, s1) && s1.roots == s.roots && Refers(s1, PdeSlot(r, d)) == None
            && (forall x | x != PdeSlot(r, d) :: Refers(s1, x) == Refers(s, x))
            && (forall r': nat, d': nat, t': nat | r' in s.roots && r' != r && d' < UTOPX && t' < 1024 ::
                 Entry(s1, r', d', t') == Entry(s, r', d', t'))
  {
    TablesApart(s);
    assert OwnTable(s, r, d);
    WritePde(s, r, d, ZERO);
    var s1 := Put(s, r, d, ZERO);
    RootIsNoTable(s, r);
    DropClean(s, s1, r, d);
    forall x: Slot | x.PteSlot? && x.r == r && x.d == d ensures Refers(s1, x) == Refers(s, x) {
      assert x == PteSlot(r, d, x.t);
    }
  }

  lemma DropTablePeels(s: State, r: nat, d: nat)
    requires Valid(s) && r in s.roots && d < UTOPX && Table(s, r, d).Some?
    requires forall i: nat | i < 1024 :: Refers(s, PteSlot(r, d, i)) == None
    ensures r < |s.mem| && At(s, r, d).frame < |s.ref|
    ensures var s' := DropTable(s, r, d);
            && Peeled(s, s', r) && s'.roots == s.roots
            && (forall x | x != PdeSlot(r, d) :: Refers(s', x) == Refers(s, x))
            && Refers(s', PdeSlot(r, d)) == None
  {
    hide Refers, Counted, Exclusive, TargetsOk, FreeOk, Slots, IsSlot, Clean, KernelHalf, Entry, At, Put;
    ClearPde(s, r, d);
    var f := At(s, r, d).frame;
    assert Held(s, f);
    Release(s, Put(s, r, d, ZERO), PdeSlot(r, d), f);
  }

  lemma DropClean(s: State, s': State, r: nat, d: nat)
    requires Clean(s) && s'.roots == s.roots
    requires NoTable(s, r)
    requires forall f: nat, i: nat | f != r || i != d :: At(s', f, i) == At(s, f, i)
    requires At(s', r, d) == ZERO
    ensures Clean(s')
  {
    hide At;
    forall r': nat, d': nat | r' in s'.roots && d' < UTOPX && Table(s', r', d').Some?
      ensures && At(s', r', d').flags & 7 == 7
              && forall t: nat | t < 1024 ::
                   Present(At(s', At(s', r', d').frame, t)) || At(s', At(s', r', d').frame, t) == ZERO
    {
      assert (r', d') != (r, d) && Table(s, r', d') == Table(s', r', d');
    }
  }

  /** The outer loop releases every page and every page table of r. */
  lemma {:induction false} ClearDirPeels(s: State, r: nat, d: nat)
    requires Valid(s) && r in s.roots && d <= UTOPX
    requires forall x: Slot | x.r == r && !x.RootSlot? && x.d < d :: Refers(s, x) == None
    ensures var s' := ClearDir(s, r, d);
            && Peeled(s, s', r) && s'.roots == s.roots
            && (forall x: Slot | x.r == r && !x.RootSlot? :: Refers(s', x) == None)
            && (forall x: Slot | x.r != r || x.RootSlot? :: Refers(s', x) == Refers(s, x))
    decreases UTOPX - d
  {
    hide Refers, Counted, Exclusive, Clean, KernelHalf, FreeOk, TargetsOk, Slots, DropTable, ClearTable;
    PeeledRefl(s, r);
    if d < UTOPX {
      EntryRefers(s, r, d, 0);
      if Table(s, r, d).None? {
        NoTableNoPages(s, r, d);
        ClearDirPeels(s, r, d + 1);
      } else {
        var s1 := ClearTable(s, r, d, 0);
        ClearTablePeels(s, r, d, 0);
        EntryRefers(s1, r, d, 0);
        DropTablePeels(s1, r, d);
        var s2 := DropTable(s1, r, d);
        PeeledTrans(s, s1, s2, r);
        NoTableNoPages(s2, r, d);
        ClearDirPeels(s2, r, d + 1);
        PeeledTrans(s, s2, ClearDir(s2, r, d + 1), r);
      }
    } else {
      forall x: Slot | x.r == r && !x.RootSlot? ensures Refers(s, x) == None {
      }
    }
  }

  lemma NoTableNoPages(s: State, r: nat, d: nat)
    requires Refers(s, PdeSlot(r, d)) == None
    ensures forall x: Slot | x.r == r && !x.RootSlot? && x.d == d :: Refers(s, x) == None
  {
    forall x: Slot | x.r == r && !x.RootSlot? && x.d == d ensures Refers(s, x) == None {
      assert x.PdeSlot? ==> x == PdeSlot(r, d);
    }
  }

  lemma TeardownPeels(s: State, r: nat)
    requires Valid(s) && r in s.roots
    ensures var s' := Teardown(s, r);
            && Peeled(s, s', r) && s'.roots == s.roots - {r}
            && (forall x: Slot | x.r == r :: Refers(s', x) == None)
            && (forall x: Slot | x.r != r :: Refers(s', x) == Refers(s, x))
  {
    hide Refers, Counted, Exclusive, Clean, KernelHalf, FreeOk, TargetsOk, Slots, IsSlot, Entry, At, ClearDir;
    var s1 := ClearDir(s, r, 0);
    ClearDirPeels(s, r, 0);
    DropRootPeels(s1, r);
    PeeledTrans(s, s1, Teardown(s, r), r);
  }

  /** env_free gives back exactly the frames that only the dying environment held, lowers the count
      of every other frame by that environment's own references to it, and leaves every other
      address space as it was. */
  lemma TeardownCorrect(s: State, r: nat)
    requires Valid(s) && r in s.roots
    ensures var s' := Teardown(s, r);
            && Valid(s') && s'.roots == s.roots - {r} && |s'.ref| == |s.ref|
            && (forall r': nat, d: nat, t: nat | r' in s'.roots && d < UTOPX && t < 1024 ::
                 Entry(s', r', d, t) == Entry(s, r', d, t))
            && (forall f: nat ::
                  f in s'.free <==> f in s.free || (Held(s, f) && forall x | x in Refs(s, f) :: x.r == r))
            && (forall f: nat | f < |s.ref| && f !in s.reserved ::
                 s'.ref[f] == s.ref[f] - |set x | x in Refs(s, f) && x.r == r|)
  {
    hide Refers, Counted, Exclusive, Clean, KernelHalf, FreeOk, TargetsOk, Slots, IsSlot, Entry, At, ClearDir;
    var s' := Teardown(s, r);
    TeardownPeels(s, r);
    forall f: nat ensures f in s'.free <==> f in s.free || (Held(s, f) && forall x | x in Refs(s, f) :: x.r == r) {
      PeeledFreed(s, s', r, f);
    }
    forall f: nat | f < |s.ref| && f !in s.reserved
      ensures s'.ref[f] == s.ref[f] - |set x | x in Refs(s, f) && x.r == r|
    {
      PeeledCount(s, s', r, f);
    }
  }

  lemma ForgetRoot(s: State, r: nat)
    requires Valid(s) && r in s.roots
    requires forall x: Slot | x.r == r && !x.RootSlot? :: Refers(s, x) == None
    ensures var s1 := s.(roots := s.roots - {r});
            && SameBook(s, s1) && Refers(s, RootSlot(r)) == Some(r)
            && (forall x: Slot | x.r == r :: Refers(s1, x) == None)
            && (forall x: Slot | x != RootSlot(r) :: Refers(s1, x) == Refers(s, x))
            && (forall r': nat, d: nat, t: nat :: Entry(s1, r', d, t) == Entry(s, r', d, t))
  {
    var s1 := s.(roots := s.roots - {r});
    assert forall f: nat, i: nat :: At(s1, f, i) == At(s, f, i);
    KernelHalfKept(s, s1);
    hide At, KernelHalf;
    forall x: Slot ensures Refers(s1, x) == if x.r == r then None else Refers(s, x) {
      assert x.r == r ==> !IsSlot(s1.roots, x);
    }
    forall x: Slot | x != RootSlot(r) ensures Refers(s1, x) == Refers(s, x) {
      assert x.RootSlot? && x.r == r ==> x == RootSlot(r);
    }
  }

  lemma DropRootPeels(s: State, r: nat)
    requires Valid(s) && r in s.roots
    requires forall x: Slot | x.r == r && !x.RootSlot? :: Refers(s, x) == None
    ensures r < |s.ref|
    ensures var s' := Decref(s.(roots := s.roots - {r}), r);
            Peeled(s, s', r) && s'.roots == s.roots - {r} && forall x: Slot | x.r == r :: Refers(s', x) == None
  {
    hide Refers, Valid, Slots, IsSlot, Entry, At, Decref, FreeSet;
    ForgetRoot(s, r);
    var s1 := s.(roots := s.roots - {r});
    assert Held(s, r);
    Release(s, s1, RootSlot(r), r);
    var s' := Decref(s1, r);
    HeldSame(s1, s', r);
    assert s' == s1.(ref := s'.ref, free := s'.free) && |s'.ref| == |s1.ref| by { DecrefFrame(s1, r); }
    assert forall g: nat | g != r :: Held(s', g) <==> Held(s, g) by { HeldButOne(s, s', RootSlot(r), r); }
    hide Held;
  }

  lemma DecrefFrame(s: State, f: nat)
    requires f < |s.ref|
    ensures Decref(s, f) == s.(ref := Decref(s, f).ref, free := Decref(s, f).free) && |Decref(s, f).ref| == |s.ref|
  {
  }

  lemma HeldButOne(s: State, s': State, x: Slot, f: nat)
    requires Refers(s, x) == Some(f) && Refers(s', x) == None
    requires forall y: Slot | y != x :: Refers(s', y) == Refers(s, y)
    ensures forall g: nat | g != f :: Held(s', g) <==> Held(s, g)
  {
    hide Refers;
  }

  lemma HeldSame(s: State, s': State, f: nat)
    requires forall x: Slot :: Refers(s', x) == Refers(s, x)
    ensures forall g: nat :: Held(s', g) <==> Held(s, g)
  {
    hide Refers;
  }

  lemma PeeledFreed(s: State, s': State, r: nat, f: nat)
    requires Peeled(s, s', r) && forall x: Slot | x.r == r :: Refers(s', x) == None
    requires forall x: Slot | x.r != r :: Refers(s', x) == Refers(s, x)
    ensures f in s'.free <==> f in s.free || (Held(s, f) && forall x | x in Refs(s, f) :: x.r == r)
  {
    hide Refers, Slots, IsSlot, Valid;
    assert f in s'.free <==> f in FreeSet(s');
    assert f in s.free <==> f in FreeSet(s);
    if x :| x in Refs(s, f) && x.r != r {
      assert Refers(s', x) == Some(f);
      assert Held(s', f);
    }
  }

  lemma PeeledCount(s: State, s': State, r: nat, f: nat)
    requires Peeled(s, s', r) && f < |s.ref| && f !in s.reserved
    requires forall x: Slot | x.r == r :: Refers(s', x) == None
    requires forall x: Slot | x.r != r :: Refers(s', x) == Refers(s, x)
    ensures s'.ref[f] == s.ref[f] - |set x | x in Refs(s, f) && x.r == r|
  {
    hide Refers, Slots, IsSlot, FreeSet, Exclusive, Clean, KernelHalf, FreeOk, TargetsOk;
    var own := set x | x in Refs(s, f) && x.r == r;
    assert Refs(s', f) !! own && Refs(s, f) == Refs(s', f) + own;
  }

  // ------------------------------------------------------------------
  // Every run.
  // ------------------------------------------------------------------

  datatype Op =
    | OpAlloc
    | OpFree(f: nat)
    | OpWalk(r: nat, d: nat)
    | OpInsert(r: nat, d: nat, t: nat, pp: Frame, perm: Flags)
    | OpRemove(r: nat, d: nat, t: nat)
    | OpSetup
    | OpTeardown(r: nat)
    | OpWrite(r: nat, d: nat, t: nat, i: nat, w: Word)

  /** What the kernel has to know before it makes each call, and the MMU before user code stores a word. */
  ghost predicate Allowed(s: State, op: Op) {
    match op
    case OpAlloc => true
    case OpFree(f) => InTransit(s, f)
    case OpWalk(r, d) => r in s.roots && d < UTOPX
    case OpInsert(r, d, t, pp, perm) =>
      && r in s.roots && d < UTOPX && t < 1024 && DataPage(s, pp)
      && (s.ref[pp] < 0xFFFF || (Entry(s, r, d, t).Some? && Entry(s, r, d, t).value.frame == pp))
    case OpRemove(r, d, t) =>
      r in s.roots && d < UTOPX && t < 1024 && (Table(s, r, d).None? || Entry(s, r, d, t).Some?)
    case OpSetup => true
    case OpTeardown(r) => r in s.roots
    case OpWrite(r, d, t, i, w) => r in s.roots && d < UTOPX && t < 1024 && i < 1024 && UserWrites(s, r, d, t)
  }

  ghost function Step(s: State, op: Op): State
    requires Valid(s) && Allowed(s, op)
  {
    match op
    case OpAlloc => if s.free == [] then s else AllocZero(s)
    case OpFree(f) => s.(free := [f] + s.free)
    case OpWalk(r, d) => Walk(s, r, d).0
    case OpInsert(r, d, t, pp, perm) => Insert(s, r, d, t, pp, perm).0
    case OpRemove(r, d, t) => Remove(s, r, d, t)
    case OpSetup => Setup(s).0
    case OpTeardown(r) => Teardown(s, r)
    case OpWrite(r, d, t, i, w) =>
      UserWritesData(s, r, d, t);
      Put(s, Entry(s, r, d, t).value.frame, i, w)
  }

  /** The frame that stops being accounted for (page_alloc), or starts to be (page_free, page_insert). */
  ghost predicate Loses(s: State, op: Op, g: nat) {
    op.OpAlloc? && s.free != [] && g == s.free[0]
  }

  ghost predicate Finds(s: State, op: Op, g: nat) {
    (op.OpFree? && g == op.f) || (op.OpInsert? && g == op.pp && (Table(s, op.r, op.d).Some? || s.free != []))
  }

  /** Each operation keeps the invariant, and no frame is leaked or found but by the calls that do so. */
  lemma StepValid(s: State, op: Op)
    requires Valid(s) && Allowed(s, op)
    ensures Valid(Step(s, op))
    ensures forall g: nat :: Known(Step(s, op), g) <==> (Known(s, g) && !Loses(s, op, g)) || Finds(s, op, g)
  {
    hide Refers, Slots, IsSlot, Entry, Clean, KernelHalf, Insert, Remove, Teardown, Setup;
    match op
    case OpAlloc =>
      if s.free != [] {
        AllocZeroValid(s);
        AllocKnown(s);
      }
    case OpFree(f) => FreeValid(s, f);
    case OpWalk(r, d) =>
      if Table(s, r, d).None? && s.free != [] {
        AddTableValid(s, r, d);
        EntryRefers(s, r, d, 0);
        EntryRefers(AddTable(s, r, d), r, d, 0);
        assert s.free == [s.free[0]] + s.free[1..];
        KnownAfterAcquire(s, AddTable(s, r, d), PdeSlot(r, d), s.free[0]);
      }
    case OpInsert(r, d, t, pp, perm) =>
      InsertFails(s, r, d, t, pp, perm);
      if Insert(s, r, d, t, pp, perm).1 {
        InsertCorrect(s, r, d, t, pp, perm);
      }
    case OpRemove(r, d, t) =>
      if Entry(s, r, d, t).Some? {
        EntryRefers(s, r, d, t);
        RemovePresent(s, r, d, t);
        KnownAfterRelease(s, Remove(s, r, d, t), PteSlot(r, d, t), Entry(s, r, d, t).value.frame);
      } else {
        RemoveNothing(s, r, d, t);
      }
    case OpSetup =>
      SetupCorrect(s);
      if s.free != [] { SetupKnown(s); }
    case OpTeardown(r) =>
      TeardownCorrect(s, r);
      TeardownKnown(s, r);
    case OpWrite(r, d, t, i, w) =>
      UserWritesData(s, r, d, t);
      var f := Entry(s, r, d, t).value.frame;
      DataWrite(s, f, s.mem[f][i := w]);
  }

  lemma RemoveNothing(s: State, r: nat, d: nat, t: nat)
    requires t < 1024 && |s.ref| == |s.mem| && Table(s, r, d).None?
    ensures Remove(s, r, d, t) == s
  {
  }

  lemma AllocKnown(s: State)
    requires Valid(s) && s.free != []
    ensures forall g: nat :: Known(AllocZero(s), g) <==> Known(s, g) && g != s.free[0]
  {
    hide Refers;
    var s' := AllocZero(s);
    AllocZeroValid(s);
    forall g: nat ensures Known(s', g) <==> Known(s, g) && g != s.free[0] {
      assert g in s.free <==> g in FreeSet(s);
      assert g in s'.free <==> g in FreeSet(s');
      if Held(s, g) {
        var x :| Refers(s, x) == Some(g);
        assert Refers(s', x) == Some(g);
      }
    }
  }

  lemma FreeValid(s: State, f: nat)
    requires Valid(s) && InTransit(s, f)
    ensures Valid(s.(free := [f] + s.free))
    ensures forall g: nat :: Known(s.(free := [f] + s.free), g) <==> Known(s, g) || g == f
  {
    var s' := s.(free := [f] + s.free);
    SameMemory(s, s');
    CleanSame(s, s');
    hide Refers, Slots, IsSlot, Clean, KernelHalf, Entry, At;
    assert forall g: nat :: g in s'.free <==> g == f || g in s.free;
    assert TargetsOk(s') by {
      forall x | Refers(s', x).Some?
        ensures var h := Refers(s', x).value; h < |s'.ref| && h !in s'.free && h !in s'.reserved
      {
        assert Refers(s, x) == Refers(s', x);
        assert Held(s, Refers(s, x).value);
      }
    }
  }

  lemma SetupKnown(s: State)
    requires Valid(s) && s.free != []
    ensures forall g: nat :: Known(Setup(s).0, g) <==> Known(s, g)
  {
    hide Refers, Setup, Slots, IsSlot;
    SetupCorrect(s);
    assert s.free[0] in FreeSet(s);
    KnownAfterAcquire(s, Setup(s).0, RootSlot(Setup(s).1.value), Setup(s).1.value);
    var f := Setup(s).1.value;
    assert f in FreeSet(s);
  }

  lemma TeardownKnown(s: State, r: nat)
    requires Valid(s) && r in s.roots
    ensures forall g: nat :: Known(Teardown(s, r), g) <==> Known(s, g)
  {
    hide Refers, Teardown, Slots, IsSlot, Held, Counted, Exclusive, Clean, KernelHalf, FreeOk, TargetsOk;
    var s' := Teardown(s, r);
    TeardownPeels(s, r);
    forall g: nat ensures Known(s', g) <==> Known(s, g) {
      assert g in s.free <==> g in FreeSet(s);
      assert g in s'.free <==> g in FreeSet(s');
      HeldPeels(s, s', r, g);
    }
  }

  /** A run: each call or store is made in turn, up to the first that its caller may not make. */
  ghost function Run(s: State, ops: seq<Op>): State
    requires Valid(s)
    decreases |ops|
  {
    if ops == [] || !Allowed(s, ops[0]) then s
    else
      StepValid(s, ops[0]);
      Run(Step(s, ops[0]), ops[1..])
  }

  /** Every frame is free, referenced, the boot code's, or in some caller's hands. */
  ghost predicate NoLeak(s: State) {
    forall g: nat | g < |s.ref| && g !in s.reserved :: Known(s, g)
  }

  /** A run in which every page_alloc is followed at once by page_free or a page_insert of it. */
  ghost predicate Paired(s: State, ops: seq<Op>)
    requires Valid(s)
    decreases |ops|
  {
    if ops == [] || !Allowed(s, ops[0]) then true
    else
      StepValid(s, ops[0]);
      var s1 := Step(s, ops[0]);
      if ops[0].OpAlloc? && s.free != [] then
        && |ops| > 1 && Allowed(s1, ops[1]) && Finds(s1, ops[1], s.free[0])
        && (StepValid(s1, ops[1]); Paired(Step(s1, ops[1]), ops[2..]))
      else Paired(s1, ops[1..])
  }

  lemma InsertFrame(s: State, r: nat, d: nat, t: nat, pp: Frame, perm: Flags)
    requires Valid(s) && r in s.roots && d < UTOPX && t < 1024 && pp < |s.ref|
    ensures |Insert(s, r, d, t, pp, perm).0.ref| == |s.ref| && Insert(s, r, d, t, pp, perm).0.reserved == s.reserved
  {
    hide Refers, Slots, IsSlot, Counted, Exclusive, Clean, KernelHalf, TargetsOk, Entry;
    var s1 := Walk(s, r, d).0;
    assert |s1.mem| == |s1.ref| == |s.ref| && s1.reserved == s.reserved;
    var s2 := Evict(s1, r, d, t, pp);
    assert |s2.ref| == |s1.ref| && s2.reserved == s.reserved;
  }

  lemma StepFrame(s: State, op: Op)
    requires Valid(s) && Allowed(s, op)
    ensures |Step(s, op).ref| == |s.ref| && Step(s, op).reserved == s.reserved
  {
    hide Refers, Slots, IsSlot, Counted, Exclusive, Clean, KernelHalf, TargetsOk, Teardown;
    match op
    case OpAlloc =>
    case OpFree(f) =>
    case OpWalk(r, d) => assert |Walk(s, r, d).0.ref| == |s.ref|;
    case OpInsert(r, d, t, pp, perm) => InsertFrame(s, r, d, t, pp, perm);
    case OpRemove(r, d, t) =>
    case OpSetup =>
    case OpTeardown(r) => TeardownPeels(s, r);
    case OpWrite(r, d, t, i, w) => UserWritesData(s, r, d, t);
  }

  /** In every run the reference counts are right, and no page is ever leaked. */
  lemma {:induction false} RunCorrect(s: State, ops: seq<Op>)
    requires Valid(s)
    ensures Valid(Run(s, ops))
    ensures NoLeak(s) && Paired(s, ops) ==> NoLeak(Run(s, ops))
    decreases |ops|
  {
    hide Refers, Slots, IsSlot, Valid, Known, Step, Allowed;
    if ops != [] && Allowed(s, ops[0]) {
      StepValid(s, ops[0]);
      StepFrame(s, ops[0]);
      var s1 := Step(s, ops[0]);
      RunCorrect(s1, ops[1..]);
      if ops[0].OpAlloc? && s.free != [] && Paired(s, ops) {
        StepValid(s1, ops[1]);
        StepFrame(s1, ops[1]);
        assert ops[1..][0] == ops[1] && ops[1..][1..] == ops[2..];
        RunCorrect(Step(s1, ops[1]), ops[2..]);
      }
    }
  }
}
