/** The user library's fork and page fault handler (lib/fork.c) and the eager copy of user/dumbfork.c,
    run without interruption: each system call and each word copied is one assignment to `s`, whose
    fork and fault phases are the program counters of the step machine in Cow. */
module ForkLib {
  import Mmu
  import opened Cow

  /** The page number of UTEMP. */
  const WINDOW := 0x400

  const UTEXT_PAGE := 0x800

  /** The pages that dumbfork copies. */
  predicate DumbCopies(v: nat, end: nat, stack: nat) {
    UTEXT_PAGE <= v < end || v == stack
  }

  /** The contents of page v of environment e, if mapped. */
  function Holds(s: State, e: nat, v: nat): Mmu.Option<Content> {
    match Page(s.envs, e, v)
    case None => Mmu.None
    case Some(p) => if p.frame in s.frames then Mmu.Some(s.frames[p.frame]) else Mmu.None
  }

  class Library {
    var s: State
    var free: seq<nat>

    ghost predicate FreeUnmapped()
      reads this
    {
      && (forall i: nat | i < |free| :: Unmapped(s, free[i]))
      && (forall i: nat, j: nat | i < j < |free| :: free[i] != free[j])
    }

    ghost predicate Ok()
      reads this
    {
      Inv(s) && FreeUnmapped()
    }

    constructor (s: State, free: seq<nat>)
      requires Inv(s) && (forall i: nat | i < |free| :: Unmapped(s, free[i]))
      requires forall i: nat, j: nat | i < j < |free| :: free[i] != free[j]
      ensures Ok() && this.s == s && this.free == free
    {
      this.s := s;
      this.free := free;
    }

    /** sys_page_alloc's page_alloc. */
    method PageAlloc() returns (g: Mmu.Option<nat>)
      requires FreeUnmapped()
      modifies this`free
      ensures FreeUnmapped() && (g.None? <==> old(free) == [])
      ensures g.Some? ==> Unmapped(s, g.value) && forall i: nat | i < |free| :: free[i] != g.value
    {
      if free == [] { return Mmu.None; }
      g := Mmu.Some(free[0]);
      free := free[1..];
    }

    /** pgfault on a write to page pn: false if sys_page_alloc failed and the handler panicked. */
    method PgFault(e: nat, pn: nat) returns (ok: bool)
      requires Ok() && Runs(s, e) && s.envs[e].fault.NoFault?
      requires Page(s.envs, e, pn).Some? && Page(s.envs, e, pn).value.cow && !Page(s.envs, e, pn).value.w
      modifies this
      ensures Ok() && View(s) == old(View(s)) && s.envs.Keys == old(s.envs.Keys)
      ensures ok <==> old(free) != []
      ensures ok ==> s.envs[e].fault.NoFault? && s.envs[e].fork == old(s.envs[e].fork) && Runs(s, e)
      ensures ok ==> Page(s.envs, e, pn).Some? && Page(s.envs, e, pn).value.w
      ensures ok ==> forall e': nat, v: nat | e' != e || v != pn :: Page(s.envs, e', v) == old(Page(s.envs, e', v))
    {
      hide View, FaultOk, ForkOk, Exclusive, FramesOk;
      ghost var s0 := s;
      FaultStep(s, e, pn);
      s := SetFault(s, e, Checked(pn));
      FreeStays(s0, s, e, pn, free);
      var g := PageAlloc();
      if g.None? { return false; }
      NoTemp(s0, e);
      FaultAllocStep(s, e, g.value);
      ghost var s1 := s;
      s := SetFault(Fill(SetPage(s, e, TEMP, Pte(g.value, true, false)), g.value, ZeroContent()), e, Copying(pn, 0));
      FreeStays(s1, s, e, TEMP, free);
      CopyPageWords(e);
      InstallCopy(e);
      ok := true;
    }

    /** The sys_page_map and sys_page_unmap of pgfault. */
    method InstallCopy(e: nat)
      requires Ok() && Runs(s, e) && s.envs[e].fault.Copying? && s.envs[e].fault.k == 1024
      modifies this`s
      ensures Ok() && View(s) == old(View(s)) && s.envs.Keys == old(s.envs.Keys)
      ensures Runs(s, e) && s.envs[e].fault.NoFault? && s.envs[e].fork == old(s.envs[e].fork)
      ensures var pn := old(s.envs[e].fault.pn);
              && Page(s.envs, e, pn).Some? && Page(s.envs, e, pn).value.w && pn != TEMP
              && Page(s.envs, e, TEMP) == Mmu.None
              && forall e': nat, v: nat | e' != e || (v != pn && v != TEMP) ::
                   Page(s.envs, e', v) == old(Page(s.envs, e', v))
    {
      hide View, FaultOk, ForkOk, Exclusive, FramesOk;
      ghost var s0 := s;
      var pn := s.envs[e].fault.pn;
      NotTemp(s, e);
      FaultMapStep(s, e);
      MappedNotFree(s, e, TEMP, free);
      s := SetFault(SetPage(s, e, pn, Pte(s.envs[e].pages[TEMP].frame, true, false)), e, Moved(pn));
      FreeStays(s0, s, e, pn, free);
      FaultUnmapStep(s, e);
      ghost var s1 := s;
      s := SetFault(DropPage(s, e, TEMP), e, NoFault);
      FreeStays(s1, s, e, TEMP, free);
    }

    /** The memcpy of pgfault. */
    method CopyPageWords(e: nat)
      requires Ok() && Runs(s, e) && s.envs[e].fault.Copying? && s.envs[e].fault.k == 0
      modifies this`s
      ensures Ok() && View(s) == old(View(s))
      ensures s.envs == old(s.envs)[e := old(s.envs[e]).(fault := Copying(old(s.envs[e].fault.pn), 1024))]
    {
      hide View, FaultOk, ForkOk, Exclusive, FramesOk;
      ghost var s0 := s;
      var pn := s.envs[e].fault.pn;
      var k := 0;
      while k < 1024
        invariant 0 <= k <= 1024 && Ok() && View(s) == View(s0)
        invariant s.envs == s0.envs[e := s0.envs[e].(fault := Copying(pn, k))]
      {
        ghost var s1 := s;
        FaultCopyStep(s, e);
        var to, from := s.envs[e].pages[TEMP].frame, s.envs[e].pages[pn].frame;
        s := Fill(s, to, s.frames[to][k := s.frames[from][k]]);
        s := SetFault(s, e, Copying(pn, k + 1));
        FreeStays(s1, s, e, pn, free);
        k := k + 1;
      }
    }

    /** duppage, on the page that fork has come to. */
    method DupPage(e: nat)
      requires Ok() && Sharing(s, e)
      modifies this`s
      ensures Ok() && View(s) == CopyPage(old(View(s)), e, old(s.envs[e].fork.child), old(s.envs[e].fork.pn))
      ensures s.envs.Keys == old(s.envs.Keys)
      ensures Runs(s, e) && s.envs[e].fault.NoFault?
      ensures s.envs[e].fork == AtPage(old(s.envs[e].fork.child), old(s.envs[e].fork.pn) + 1)
    {
      hide View, FaultOk, ForkOk, Exclusive, FramesOk, CopyPage;
      ghost var s0 := s;
      ShareSetting(s, e);
      var child, pn := s.envs[e].fork.child, s.envs[e].fork.pn;
      var p := s.envs[e].pages[pn];
      ShareStep(s, e);
      MappedNotFree(s, e, pn, free);
      s := Share(s, e, child, pn, p.w || p.cow);
      FreeStays(s0, s, child, pn, free);
      if p.w || p.cow {
        ghost var s1 := s;
        ProtectStep(s, e);
        assert Pending(s.envs, child, pn) <==> p.w;
        MappedNotFree(s, e, pn, free);
        s := Protect(s, e, child, pn);
        FreeStays(s1, s, e, pn, free);
      }
    }

    /** The loop of fork. */
    method DupPages(e: nat, child: nat)
      requires Ok() && Runs(s, e) && s.envs[e].fault.NoFault? && s.envs[e].fork == AtPage(child, 0) && child in s.envs
      requires forall v: nat :: Sees(s, child, v) == Mmu.None
      modifies this`s
      ensures Ok() && s.envs.Keys == old(s.envs.Keys)
      ensures Runs(s, e) && s.envs[e].fault.NoFault? && s.envs[e].fork == AtPage(child, TOP)
      ensures forall x: nat, v: nat ::
                Sees(s, x, v) == if x != child then old(Sees(s, x, v))
                                 else if v < TOP then old(Sees(s, e, v)) else Mmu.None
    {
      hide View, FaultOk, ForkOk, Exclusive, FramesOk, CopyPage, Own, Sees;
      ghost var keys, m0 := s.envs.Keys, View(s);
      ViewOwn(s);
      ForkTwo(s, e, child);
      var pn := 0;
      while pn < TOP
        invariant 0 <= pn <= TOP && Ok() && s.envs.Keys == keys
        invariant Runs(s, e) && s.envs[e].fault.NoFault? && s.envs[e].fork == AtPage(child, pn)
        invariant forall x: nat, v: nat ::
                    Own(View(s), x, v) == if x != child then Own(m0, x, v)
                                          else if v < pn then Own(m0, e, v) else Mmu.None
      {
        ViewOwn(s);
        if pn in s.envs[e].pages {
          CopyOwnAll(View(s), e, child, pn);
          DupPage(e);
        } else {
          ghost var s1 := s;
          DupAbsentStep(s, e);
          AbsentSees(s, e, pn);
          s := SetFork(s, e, AtPage(child, pn + 1));
          FreeStays(s1, s, e, pn, free);
        }
        pn := pn + 1;
      }
      ViewOwn(s);
    }

    /** fork, from sys_exofork on: false if the child's exception stack could not be allocated.  The
        child has a copy of every page its parent has below the stack top, and nothing else changes. */
    method Fork(e: nat, child: nat) returns (ok: bool)
      requires Ok() && Cow.Free(s, e) && child !in s.envs
      modifies this
      ensures Ok() && (ok <==> old(free) != [])
      ensures ok ==> Cow.Free(s, e) && Cow.Free(s, child) && s.envs.Keys == old(s.envs.Keys) + {child}
      ensures ok ==> forall x: nat, v: nat ::
                Sees(s, x, v) == if x != child then old(Sees(s, x, v))
                                 else if v < TOP then old(Sees(s, e, v))
                                 else if v == XSTACK then Mmu.Some(OwnPage(ZeroContent(), true)) else Mmu.None
      ensures ok ==> forall v: nat | v < TOP :: Holds(s, child, v) == old(Holds(s, e, v)) == Holds(s, e, v)
    {
      hide View, FaultOk, ForkOk, Exclusive, FramesOk, Own, Sees, SetOwn, NewOwn, Pending, Holds;
      ghost var s0 := s;
      ViewOwn(s);
      ExoforkStep(s, e, child);
      OwnNew(View(s), child);
      AbsentOwn(s, child);
      s := Spawn(s, e, child);
      FreeStays(s0, s, child, 0, free);
      ViewOwn(s);
      DupPages(e, child);
      ok := FinishFork(e, child);
      if ok {
        forall v: nat | v < TOP ensures Holds(s, child, v) == Holds(s0, e, v) == Holds(s, e, v) {
          SeesHolds(s, child, v);
          SeesHolds(s, e, v);
          SeesHolds(s0, e, v);
        }
      }
    }

    /** The end of fork. */
    method FinishFork(e: nat, child: nat) returns (ok: bool)
      requires Ok() && Runs(s, e) && s.envs[e].fault.NoFault? && s.envs[e].fork == AtPage(child, TOP) && child in s.envs
      modifies this
      ensures Ok() && (ok <==> old(free) != []) && s.envs.Keys == old(s.envs.Keys)
      ensures ok ==> Cow.Free(s, e) && Cow.Free(s, child)
      ensures ok ==> forall x: nat, v: nat ::
                Sees(s, x, v) == if x == child && v == XSTACK then Mmu.Some(OwnPage(ZeroContent(), true))
                                 else old(Sees(s, x, v))
    {
      hide View, FaultOk, ForkOk, Exclusive, FramesOk, Own, Sees, SetOwn, Pending;
      var g := PageAlloc();
      if g.None? { return false; }
      ghost var s2 := s;
      ViewOwn(s);
      ForkTwo(s, e, child);
      ForkStackStep(s, e, g.value);
      OwnSet(View(s), child, XSTACK, OwnPage(ZeroContent(), true));
      s := GiveStack(s, e, child, g.value);
      FreeStays(s2, s, child, XSTACK, free);
      ghost var s3 := s;
      ForkRunStep(s, e);
      s := StartChild(s, e, child);
      FreeStays(s3, s, e, 0, free);
      ViewOwn(s);
      ok := true;
    }

    // ----------------------------------------------------------------
    // user/dumbfork.c.
    // ----------------------------------------------------------------

    method MemMove(from: nat, to: nat)
      requires from in s.frames && to in s.frames
      modifies this`s
      ensures s.envs == old(s.envs) && s.frames == old(s.frames)[to := old(s.frames[from])]
    {
      ghost var s0 := s;
      var k := 0;
      while k < 1024
        invariant 0 <= k <= 1024 && s.envs == s0.envs && to in s.frames && s.frames == s0.frames[to := s.frames[to]]
        invariant s.frames[to][..k] == s0.frames[from][..k] && (to == from ==> s.frames[to] == s0.frames[from])
      {
        ghost var c: Content := s.frames[to][k := s.frames[from][k]];
        assert c[..k + 1] == s0.frames[from][..k + 1];
        s := Fill(s, to, s.frames[to][k := s.frames[from][k]]);
        k := k + 1;
      }
      assert s.frames[to] == s.frames[to][..1024] && s0.frames[from] == s0.frames[from][..1024];
    }

    /** dumbfork's duppage, with its parent's UTEMP as the window: false if sys_page_alloc failed. */
    method DumbDupPage(e: nat, child: nat, pn: nat) returns (ok: bool)
      requires FreeUnmapped() && FramesOk(s) && e in s.envs && child in s.envs && child != e
      requires Page(s.envs, e, pn).Some? && Page(s.envs, e, WINDOW).None?
      modifies this
      ensures FreeUnmapped() && FramesOk(s) && s.envs.Keys == old(s.envs.Keys)
      ensures forall x: nat | x in s.envs :: s.envs[x].(pages := map[]) == old(s.envs[x]).(pages := map[])
      ensures forall x: nat, v: nat | x != child || v != pn :: Page(s.envs, x, v) == old(Page(s.envs, x, v))
      ensures forall x: nat, v: nat | x != child || v != pn :: Holds(s, x, v) == old(Holds(s, x, v))
      ensures ok ==> Page(s.envs, child, pn).Some? && Page(s.envs, child, pn).value.w
      ensures ok ==> Holds(s, child, pn) == old(Holds(s, e, pn))
    {
      var g := PageAlloc();
      if g.None? { return false; }
      ghost var s0 := s;
      MappedNotFree(s, e, pn, [g.value]);
      s := Fill(SetPage(s, child, pn, Pte(g.value, true, false)), g.value, ZeroContent());
      s := SetPage(s, e, WINDOW, Pte(g.value, true, false));
      FrameExists(s0, e, pn);
      MemMove(s.envs[e].pages[pn].frame, s.envs[e].pages[WINDOW].frame);
      s := DropPage(s, e, WINDOW);
      DumbDupOk(s0, s, e, child, pn, g.value, free);
      ok := true;
    }

    /** dumbfork, from sys_exofork on, for a program whose pages end at `end` and whose stack is page
        `stack`: false if memory ran out.  The child holds what its parent held on those pages. */
    method DumbFork(e: nat, child: nat, end: nat, stack: nat) returns (ok: bool)
      requires FreeUnmapped() && FramesOk(s) && e in s.envs && child !in s.envs && Page(s.envs, e, WINDOW).None?
      requires forall v: nat | DumbCopies(v, end, stack) :: Page(s.envs, e, v).Some?
      modifies this
      ensures FreeUnmapped() && FramesOk(s) && s.envs.Keys == old(s.envs.Keys) + {child}
      ensures ok ==> Cow.Free(s, child) && (old(Cow.Free(s, e)) ==> Cow.Free(s, e))
      ensures forall x: nat, v: nat | x != child ::
                Page(s.envs, x, v) == old(Page(s.envs, x, v)) && Holds(s, x, v) == old(Holds(s, x, v))
      ensures ok ==> forall v: nat ::
                if DumbCopies(v, end, stack)
                then && Page(s.envs, child, v).Some? && Page(s.envs, child, v).value.w
                     && Holds(s, child, v) == old(Holds(s, e, v))
                else Page(s.envs, child, v).None?
    {
      hide Holds, FramesOk, Page;
      ghost var s0 := s;
      SpawnPages(s, e, child);
      s := Spawn(s, e, child);
      FreeStays(s0, s, child, 0, free);
      ghost var s1 := s;
      var pn := UTEXT_PAGE;
      while pn < end
        invariant pn >= UTEXT_PAGE && FreeUnmapped() && FramesOk(s) && s.envs.Keys == s1.envs.Keys
        invariant forall x: nat | x in s.envs :: s.envs[x].(pages := map[]) == s1.envs[x].(pages := map[])
        invariant forall x: nat, v: nat | x != child ::
                    Page(s.envs, x, v) == Page(s0.envs, x, v) && Holds(s, x, v) == Holds(s0, x, v)
        invariant forall v: nat ::
                    if UTEXT_PAGE <= v < pn
                    then && v < end && Page(s.envs, child, v).Some? && Page(s.envs, child, v).value.w
                         && Holds(s, child, v) == Holds(s0, e, v)
                    else Page(s.envs, child, v).None?
      {
        assert DumbCopies(pn, end, stack);
        ok := DumbDupPage(e, child, pn);
        if !ok { return; }
        pn := pn + 1;
      }
      assert DumbCopies(stack, end, stack);
      ok := DumbDupPage(e, child, stack);
      if !ok { return; }
      ghost var s2 := s;
      StartPages(s, e, child);
      s := StartChild(s, e, child);
      FreeStays(s2, s, child, 0, free);
    }
  }

  lemma SpawnPages(s: State, e: nat, child: nat)
    requires e in s.envs && child !in s.envs && FramesOk(s)
    ensures forall x: nat, v: nat :: Page(Spawn(s, e, child).envs, x, v) == Page(s.envs, x, v)
    ensures forall x: nat, v: nat :: Holds(Spawn(s, e, child), x, v) == Holds(s, x, v)
    ensures FramesOk(Spawn(s, e, child)) && forall v: nat :: Page(Spawn(s, e, child).envs, child, v).None?
  {
    assert forall x: nat, v: nat :: Page(Spawn(s, e, child).envs, x, v) == Page(s.envs, x, v);
    assert forall x: nat, v: nat :: Frame(Spawn(s, e, child).envs, x, v) == Frame(s.envs, x, v);
  }

  lemma StartPages(s: State, e: nat, child: nat)
    requires e in s.envs && child in s.envs && FramesOk(s)
    ensures forall x: nat, v: nat :: Page(StartChild(s, e, child).envs, x, v) == Page(s.envs, x, v)
    ensures forall x: nat, v: nat :: Holds(StartChild(s, e, child), x, v) == Holds(s, x, v)
    ensures FramesOk(StartChild(s, e, child))
  {
    assert forall x: nat, v: nat :: Page(StartChild(s, e, child).envs, x, v) == Page(s.envs, x, v);
    assert forall x: nat, v: nat :: Frame(StartChild(s, e, child).envs, x, v) == Frame(s.envs, x, v);
  }

  /** What an environment that runs no library code sees is what its pages hold. */
  lemma SeesHolds(s: State, e: nat, v: nat)
    requires Inv(s) && Cow.Free(s, e)
    ensures Holds(s, e, v) == match Sees(s, e, v) { case None => Mmu.None case Some(o) => Mmu.Some(o.content) }
  {
    RunsNotPending(s, e, v);
    NoTemp(s, e);
  }

  lemma NotTemp(s: State, e: nat)
    requires Inv(s) && e in s.envs && s.envs[e].fault.Copying?
    ensures s.envs[e].fault.pn != TEMP
  {
    assert FaultOk(s, e);
  }

  /** A page with a fresh frame is new to the child, and nothing else changed. */
  lemma DumbDupOk(s: State, s': State, e: nat, child: nat, pn: nat, g: nat, free: seq<nat>)
    requires FramesOk(s) && Unmapped(s, g) && Page(s.envs, e, pn).Some? && Page(s.envs, e, WINDOW).None? && child != e
    requires (forall i: nat | i < |free| :: Unmapped(s, free[i])) && g !in free
    requires s'.frames.Keys == s.frames.Keys && forall f: nat | f in s.frames && f != g :: s'.frames[f] == s.frames[f]
    requires Page(s.envs, e, pn).value.frame in s.frames
    requires Page(s'.envs, child, pn) == Mmu.Some(Pte(g, true, false))
    requires s'.frames[g] == s.frames[Page(s.envs, e, pn).value.frame]
    requires forall x: nat, v: nat | x != child || v != pn :: Page(s'.envs, x, v) == Page(s.envs, x, v)
    ensures FramesOk(s') && forall i: nat | i < |free| :: Unmapped(s', free[i])
    ensures forall x: nat, v: nat | x != child || v != pn :: Holds(s', x, v) == Holds(s, x, v)
    ensures Holds(s', child, pn) == Holds(s, e, pn)
  {
    FreeStays(s, s', child, pn, free);
    forall x: nat, v: nat | x != child || v != pn
      ensures Holds(s', x, v) == Holds(s, x, v)
      ensures (Frame(s'.envs, x, v).Some? ==> Frame(s'.envs, x, v).value in s'.frames)
    {
      assert Frame(s.envs, x, v) != Mmu.Some(g);
      assert Page(s'.envs, x, v) == Page(s.envs, x, v);
    }
    assert Frame(s.envs, e, pn).Some?;
  }

  /** Frames that no page comes to map stay free. */
  lemma FreeStays(s: State, s': State, x: nat, y: nat, free: seq<nat>)
    requires forall i: nat | i < |free| :: Unmapped(s, free[i])
    requires s.frames.Keys <= s'.frames.Keys
    requires forall e: nat, v: nat | e != x || v != y :: Page(s'.envs, e, v) == Page(s.envs, e, v)
    requires Page(s'.envs, x, y).Some? ==>
               Page(s'.envs, x, y).value.frame !in free || Frame(s'.envs, x, y) == Frame(s.envs, x, y)
    ensures forall i: nat | i < |free| :: Unmapped(s', free[i])
  {
    forall i: nat, e: nat, v: nat | i < |free| ensures Frame(s'.envs, e, v) != Mmu.Some(free[i]) {
      assert Frame(s.envs, e, v) != Mmu.Some(free[i]);
    }
  }

  lemma NoTemp(s: State, e: nat)
    requires Inv(s) && e in s.envs && (s.envs[e].fault.NoFault? || s.envs[e].fault.Checked?)
    ensures TEMP !in s.envs[e].pages
  {
    assert FaultOk(s, e);
  }

  lemma MappedNotFree(s: State, e: nat, v: nat, free: seq<nat>)
    requires forall i: nat | i < |free| :: Unmapped(s, free[i])
    requires Page(s.envs, e, v).Some?
    ensures Page(s.envs, e, v).value.frame !in free
  {
    assert Frame(s.envs, e, v).Some?;
  }

  lemma AbsentSees(s: State, e: nat, v: nat)
    requires Page(s.envs, e, v) == Mmu.None
    ensures Sees(s, e, v) == Mmu.None
  {
  }

  lemma AbsentOwn(s: State, e: nat)
    requires e !in s.envs
    ensures forall v: nat :: Own(View(s), e, v) == Mmu.None
  {
  }

  lemma CopyOwnAll(m: Eager, e: nat, c: nat, v: nat)
    requires c in m
    ensures forall x: nat, y: nat :: Own(CopyPage(m, e, c, v), x, y) ==
                                     if x == c && y == v && Own(m, e, v).Some? then Own(m, e, v) else Own(m, x, y)
  {
  }

  /** Parent and child are two, and the child has not forked or faulted. */
  lemma ForkTwo(s: State, e: nat, c: nat)
    requires Inv(s) && Runs(s, e) && !s.envs[e].fork.NotForking? && s.envs[e].fork.child == c
    ensures c in s.envs && c != e && s.envs[c].fork.NotForking? && s.envs[c].fault.NoFault?
  {
    assert ForkOk(s.envs, e);
  }
}
