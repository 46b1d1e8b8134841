/** Copy-on-write fork (lib/fork.c) as a state machine over the page tables of all environments: a
    step is one memory access of a user program, one system call, or one word of pgfault's memcpy.
    Every run of it does what a run of the eager machine does, in which each environment has memory
    of its own and fork copies page by page. */
module Cow {
  import opened Mmu

  type Content = c: seq<int> | |c| == 1024 witness seq(1024, _ => 0)

  function ZeroContent(): Content {
    seq(1024, _ => 0)
  }

  /** A present user page table entry, by its PTE_W and PTE_COW bits. */
  datatype Pte = Pte(frame: nat, w: bool, cow: bool)

  /** How far fork has got: at page pn, between the two sys_page_map calls of duppage, or with the
      child's exception stack in place. */
  datatype ForkPhase = NotForking | AtPage(child: nat, pn: nat) | Halfway(child: nat, pn: nat) | Ready(child: nat)

  /** How far pgfault has got on page pn: before sys_page_alloc, with k words copied to PFTEMP, or
      before sys_page_unmap. */
  datatype FaultPhase = NoFault | Checked(pn: nat) | Copying(pn: nat, k: nat) | Moved(pn: nat)

  /** An environment; `parent` is set while its fork has not made it runnable. */
  datatype Env = Env(pages: map<nat, Pte>, fork: ForkPhase, fault: FaultPhase, parent: Option<nat>)

  type Table = map<nat, Env>

  datatype State = State(frames: map<nat, Content>, envs: Table)

  // Page numbers of PFTEMP, USTACKTOP and the exception stack.
  const TEMP := 0x7FF
  const TOP := 0xEEBFE
  const XSTACK := 0xEEBFF

  lemma PageNumbers()
    ensures TEMP == PGNUM(PFTEMP) && TOP == PGNUM(USTACKTOP) && XSTACK == PGNUM(UXSTACKTOP) - 1
  {
  }

  datatype Step =
    | Write(e: nat, pn: nat, i: nat, x: int)
    | PageAlloc(e: nat, pn: nat, frame: nat, w: bool, cow: bool)
    | PageUnmap(e: nat, pn: nat)
    | Fault(e: nat, pn: nat)
    | FaultAlloc(e: nat, frame: nat)
    | FaultCopy(e: nat)
    | FaultMap(e: nat)
    | FaultUnmap(e: nat)
    | Exofork(e: nat, child: nat)
    | DupFirst(e: nat)
    | DupSecond(e: nat)
    | ForkStack(e: nat, frame: nat)
    | ForkRun(e: nat)
    | Die(e: nat)

  function Page(t: Table, e: nat, pn: nat): Option<Pte> {
    if e in t && pn in t[e].pages then Some(t[e].pages[pn]) else None
  }

  function Frame(t: Table, e: nat, pn: nat): Option<nat> {
    match Page(t, e, pn)
    case None => None
    case Some(p) => Some(p.frame)
  }

  /** A frame that page_alloc may return. */
  ghost predicate Unmapped(s: State, g: nat) {
    g in s.frames && forall e: nat, pn: nat :: Frame(s.envs, e, pn) != Some(g)
  }

  function SetPage(s: State, e: nat, pn: nat, p: Pte): State
    requires e in s.envs
  {
    s.(envs := s.envs[e := s.envs[e].(pages := s.envs[e].pages[pn := p])])
  }

  function DropPage(s: State, e: nat, pn: nat): State
    requires e in s.envs
  {
    s.(envs := s.envs[e := s.envs[e].(pages := s.envs[e].pages - {pn})])
  }

  function SetFork(s: State, e: nat, f: ForkPhase): State
    requires e in s.envs
  {
    s.(envs := s.envs[e := s.envs[e].(fork := f)])
  }

  function SetFault(s: State, e: nat, f: FaultPhase): State
    requires e in s.envs
  {
    s.(envs := s.envs[e := s.envs[e].(fault := f)])
  }

  /** sys_exofork. */
  function Spawn(s: State, e: nat, child: nat): State
    requires e in s.envs
  {
    var s1 := SetFork(s, e, AtPage(child, 0));
    s1.(envs := s1.envs[child := Env(map[], NotForking, NoFault, Some(e))])
  }

  function Fill(s: State, g: nat, c: Content): State {
    s.(frames := s.frames[g := c])
  }

  /** Whether environment e can take the step: it runs, and its code is at that point. */
  ghost predicate Enabled(s: State, l: Step) {
    l.e in s.envs && s.envs[l.e].parent.None? &&
    var env := s.envs[l.e];
    match l
    case Write(e, pn, i, x) =>
      pn in env.pages && env.pages[pn].w && pn != TEMP && i < 1024 && env.pages[pn].frame in s.frames
    case PageAlloc(e, pn, frame, w, cow) =>
      env.fork.NotForking? && env.fault.NoFault? && pn != TEMP && Unmapped(s, frame)
    case PageUnmap(e, pn) => env.fork.NotForking? && env.fault.NoFault? && pn != TEMP
    case Fault(e, pn) => env.fault.NoFault? && pn in env.pages && env.pages[pn].cow && !env.pages[pn].w
    case FaultAlloc(e, frame) => env.fault.Checked? && Unmapped(s, frame)
    case FaultCopy(e) =>
      && env.fault.Copying? && env.fault.k < 1024 && env.fault.pn in env.pages && TEMP in env.pages
      && env.pages[TEMP].frame in s.frames && env.pages[env.fault.pn].frame in s.frames
    case FaultMap(e) => env.fault.Copying? && env.fault.k == 1024 && TEMP in env.pages
    case FaultUnmap(e) => env.fault.Moved?
    case Exofork(e, child) => env.fork.NotForking? && env.fault.NoFault? && child !in s.envs
    case DupFirst(e) => env.fork.AtPage? && env.fork.pn < TOP && env.fault.NoFault? && env.fork.child in s.envs
    case DupSecond(e) => env.fork.Halfway? && env.fault.NoFault? && env.fork.pn in env.pages
    case ForkStack(e, frame) =>
      && env.fork.AtPage? && env.fork.pn >= TOP && env.fault.NoFault?
      && env.fork.child in s.envs && Unmapped(s, frame)
    case ForkRun(e) => env.fork.Ready? && env.fault.NoFault? && env.fork.child in s.envs
    case Die(e) => true
  }

  ghost function Next(s: State, l: Step): State
    requires Enabled(s, l)
  {
    var env := s.envs[l.e];
    match l
    case Write(e, pn, i, x) => Fill(s, env.pages[pn].frame, s.frames[env.pages[pn].frame][i := x])
    case PageAlloc(e, pn, frame, w, cow) => Fill(SetPage(s, e, pn, Pte(frame, w, cow)), frame, ZeroContent())
    case PageUnmap(e, pn) => DropPage(s, e, pn)
    case Fault(e, pn) => SetFault(s, e, Checked(pn))
    case FaultAlloc(e, frame) =>
      SetFault(Fill(SetPage(s, e, TEMP, Pte(frame, true, false)), frame, ZeroContent()), e, Copying(env.fault.pn, 0))
    case FaultCopy(e) =>
      var g, k := env.pages[TEMP].frame, env.fault.k;
      SetFault(Fill(s, g, s.frames[g][k := s.frames[env.pages[env.fault.pn].frame][k]]), e,
               Copying(env.fault.pn, k + 1))
    case FaultMap(e) =>
      SetFault(SetPage(s, e, env.fault.pn, Pte(env.pages[TEMP].frame, true, false)), e, Moved(env.fault.pn))
    case FaultUnmap(e) => SetFault(DropPage(s, e, TEMP), e, NoFault)
    case Exofork(e, child) => Spawn(s, e, child)
    case DupFirst(e) =>
      var child, pn := env.fork.child, env.fork.pn;
      if pn !in env.pages then SetFork(s, e, AtPage(child, pn + 1))
      else if env.pages[pn].w || env.pages[pn].cow
      then SetFork(SetPage(s, child, pn, Pte(env.pages[pn].frame, false, true)), e, Halfway(child, pn))
      else SetFork(SetPage(s, child, pn, Pte(env.pages[pn].frame, false, false)), e, AtPage(child, pn + 1))
    case DupSecond(e) =>
      var child, pn := env.fork.child, env.fork.pn;
      SetFork(SetPage(s, e, pn, Pte(env.pages[pn].frame, false, true)), e, AtPage(child, pn + 1))
    case ForkStack(e, frame) =>
      SetFork(Fill(SetPage(s, env.fork.child, XSTACK, Pte(frame, true, false)), frame, ZeroContent()), e,
              Ready(env.fork.child))
    case ForkRun(e) =>
      var s1 := SetFork(s, e, NotForking);
      s1.(envs := s1.envs[env.fork.child := s1.envs[env.fork.child].(parent := None)])
    case Die(e) => s.(envs := s.envs - {e})
  }

  // ------------------------------------------------------------------
  // The invariant.
  // ------------------------------------------------------------------

  /** Environment e is between the two maps of duppage on page pn of c, which was writable: the
      parent still writes to the frame that the child has, so the child's copy is not taken yet. */
  predicate Pending(t: Table, c: nat, pn: nat) {
    c in t && t[c].parent.Some? &&
    var e := t[c].parent.value;
    && e in t && t[e].fork == Halfway(c, pn)
    && Page(t, e, pn).Some? && Page(t, e, pn).value.w && Frame(t, c, pn) == Frame(t, e, pn)
  }

  /** The two ways in which a frame mapped writable by page (e, pn) may be mapped elsewhere too. */
  predicate Excused(t: Table, e: nat, pn: nat, e': nat, pn': nat) {
    || (e' == e && e in t && t[e].fault == Moved(pn) && pn' == TEMP)
    || (e' == e && e in t && t[e].fault == Moved(pn') && pn == TEMP)
    || (pn' == pn && Pending(t, e', pn) && t[e'].parent == Some(e))
  }

  /** A frame mapped with PTE_W is mapped nowhere else, but for those two ways. */
  ghost predicate Exclusive(t: Table) {
    forall e: nat, pn: nat, e': nat, pn': nat |
      Page(t, e, pn).Some? && Page(t, e, pn).value.w && Frame(t, e', pn') == Frame(t, e, pn) ::
      (e' == e && pn' == pn) || Excused(t, e, pn, e', pn')
  }

  ghost predicate FramesOk(s: State) {
    forall e: nat, pn: nat | Frame(s.envs, e, pn).Some? :: Frame(s.envs, e, pn).value in s.frames
  }

  /** What pgfault has set up. */
  ghost predicate FaultOk(s: State, e: nat)
    requires e in s.envs
  {
    var env := s.envs[e];
    && (TEMP in env.pages <==> env.fault.Copying? || env.fault.Moved?)
    && match env.fault
       case NoFault => true
       case Checked(pn) => pn in env.pages && env.pages[pn].cow && !env.pages[pn].w && pn != TEMP
       case Copying(pn, k) =>
         && pn in env.pages && env.pages[pn].cow && !env.pages[pn].w && pn != TEMP && env.pages[TEMP].w && k <= 1024
         && env.pages[TEMP].frame in s.frames && env.pages[pn].frame in s.frames
         && s.frames[env.pages[TEMP].frame][..k] == s.frames[env.pages[pn].frame][..k]
       case Moved(pn) =>
         pn in env.pages && pn != TEMP && env.pages[pn].frame == env.pages[TEMP].frame && env.pages[pn].w
  }

  /** The child has exactly the parent's pages below `pn`, the ones that fork has been through. */
  ghost predicate Duplicated(t: Table, e: nat, c: nat, pn: nat) {
    forall v: nat :: (Page(t, c, v).Some? <==> v < pn && v != TEMP && Page(t, e, v).Some?)
  }

  ghost predicate ForkOk(t: Table, e: nat)
    requires e in t
  {
    match t[e].fork
    case NotForking => true
    case AtPage(c, pn) => c in t && t[c].parent == Some(e) && Duplicated(t, e, c, pn) && pn <= TOP
    case Halfway(c, pn) =>
      && c in t && t[c].parent == Some(e) && Duplicated(t, e, c, pn + 1) && pn < TOP
      && pn in t[e].pages && pn in t[c].pages && (t[e].pages[pn].w || t[e].pages[pn].cow)
      && t[c].pages[pn].cow
    case Ready(c) =>
      && c in t && t[c].parent == Some(e)
      && forall v: nat :: Page(t, c, v).Some? <==> v == XSTACK || (v < TOP && v != TEMP && Page(t, e, v).Some?)
  }

  ghost predicate Inv(s: State) {
    && FramesOk(s) && Exclusive(s.envs)
    && (forall e: nat | e in s.envs :: FaultOk(s, e) && ForkOk(s.envs, e))
    && (forall c: nat | c in s.envs && s.envs[c].parent.Some? ::
          s.envs[c].fork.NotForking? && s.envs[c].fault.NoFault? && s.envs[c].parent.value != c)
  }

  // ------------------------------------------------------------------
  // The eager machine.
  // ------------------------------------------------------------------

  datatype OwnPage = OwnPage(content: Content, writable: bool)

  /** What each environment has mapped, in memory of its own. */
  type Eager = map<nat, map<nat, OwnPage>>

  datatype Op =
    | Skip
    | Set(e: nat, pn: nat, i: nat, x: int)
    | New(e: nat)
    | Alloc(e: nat, pn: nat, writable: bool)
    | Unmap(e: nat, pn: nat)
    | Copy(e: nat, child: nat, pn: nat)
    | Exit(e: nat)
    | CopyExit(e: nat, child: nat, pn: nat)

  function SetOwn(m: Eager, e: nat, pn: nat, o: OwnPage): Eager {
    if e !in m then m
    else
      var pages: map<nat, OwnPage> := m[e][pn := o];
      m[e := pages]
  }

  function DropOwn(m: Eager, e: nat, pn: nat): Eager {
    if e !in m then m
    else
      var pages: map<nat, OwnPage> := m[e] - {pn};
      m[e := pages]
  }

  function NewOwn(m: Eager, e: nat): Eager {
    var none: map<nat, OwnPage> := map[];
    m[e := none]
  }

  function Apply(m: Eager, op: Op): Eager {
    match op
    case Skip => m
    case Set(e, pn, i, x) =>
      if e in m && pn in m[e] && m[e][pn].writable && i < 1024
      then SetOwn(m, e, pn, m[e][pn].(content := m[e][pn].content[i := x])) else m
    case New(e) => NewOwn(m, e)
    case Alloc(e, pn, writable) => SetOwn(m, e, pn, OwnPage(ZeroContent(), writable))
    case Unmap(e, pn) => DropOwn(m, e, pn)
    case Copy(e, child, pn) => CopyPage(m, e, child, pn)
    case Exit(e) => m - {e}
    case CopyExit(e, child, pn) => CopyPage(m, e, child, pn) - {e}
  }

  function CopyPage(m: Eager, e: nat, child: nat, pn: nat): Eager {
    if e in m && pn in m[e] then SetOwn(m, child, pn, m[e][pn]) else m
  }

  /** What the eager machine does for a step. */
  function Meaning(s: State, l: Step): Op {
    if l.e !in s.envs then Skip else
    var env := s.envs[l.e];
    match l
    case Write(e, pn, i, x) => Set(e, pn, i, x)
    case PageAlloc(e, pn, frame, w, cow) => Alloc(e, pn, w || cow)
    case PageUnmap(e, pn) => Unmap(e, pn)
    case Exofork(e, child) => New(child)
    case DupFirst(e) =>
      if env.fork.AtPage? && env.fork.pn in env.pages && !env.pages[env.fork.pn].w
      then Copy(e, env.fork.child, env.fork.pn) else Skip
    case DupSecond(e) =>
      if env.fork.Halfway? && Pending(s.envs, env.fork.child, env.fork.pn)
      then Copy(e, env.fork.child, env.fork.pn) else Skip
    case ForkStack(e, frame) => if env.fork.AtPage? then Alloc(env.fork.child, XSTACK, true) else Skip
    case Die(e) =>
      if env.fork.Halfway? && Pending(s.envs, env.fork.child, env.fork.pn)
      then CopyExit(e, env.fork.child, env.fork.pn) else Exit(e)
    case _ => Skip
  }

  /** What the program of environment e finds at page pn. */
  function Sees(s: State, e: nat, pn: nat): Option<OwnPage> {
    if pn == TEMP || Pending(s.envs, e, pn) then None
    else
      match Page(s.envs, e, pn)
      case None => None
      case Some(p) => if p.frame in s.frames then Some(OwnPage(s.frames[p.frame], p.w || p.cow)) else None
  }

  function Own(m: Eager, e: nat, pn: nat): Option<OwnPage> {
    if e in m && pn in m[e] then Some(m[e][pn]) else None
  }

  /** The eager memory that a state stands for. */
  function View(s: State): Eager {
    map e: nat | e in s.envs :: map pn: nat | pn in s.envs[e].pages && Sees(s, e, pn).Some? :: Sees(s, e, pn).value
  }


  // ------------------------------------------------------------------
  // Every step keeps the invariant, and means what the eager machine does.
  // ------------------------------------------------------------------

  lemma ViewOwn(s: State)
    ensures View(s).Keys == s.envs.Keys
    ensures forall e: nat, pn: nat :: Own(View(s), e, pn) == Sees(s, e, pn)
  {
  }

  lemma SameMemory(m: Eager, m': Eager)
    requires m.Keys == m'.Keys && forall e: nat, pn: nat :: Own(m, e, pn) == Own(m', e, pn)
    ensures m == m'
  {
    forall e: nat | e in m ensures m[e] == m'[e] {
      forall pn: nat ensures (pn in m[e] <==> pn in m'[e]) && (pn in m[e] ==> m[e][pn] == m'[e][pn]) {
        assert Own(m, e, pn) == Own(m', e, pn);
      }
    }
  }

  lemma SameView(s: State, s': State)
    requires s'.envs.Keys == s.envs.Keys && forall e: nat, pn: nat :: Sees(s', e, pn) == Sees(s, e, pn)
    ensures View(s') == View(s)
  {
    ViewOwn(s);
    ViewOwn(s');
    hide View, Own, Sees;
    SameMemory(View(s'), View(s));
  }

  lemma OnePageView(s: State, s': State, e: nat, pn: nat, o: OwnPage)
    requires s'.envs.Keys == s.envs.Keys && e in s.envs && Sees(s', e, pn) == Some(o)
    requires forall e': nat, pn': nat | e' != e || pn' != pn :: Sees(s', e', pn') == Sees(s, e', pn')
    ensures View(s') == SetOwn(View(s), e, pn, o)
  {
    ViewOwn(s);
    ViewOwn(s');
    OwnSet(View(s), e, pn, o);
    hide View, Own, Sees, SetOwn;
    SameMemory(View(s'), SetOwn(View(s), e, pn, o));
  }

  lemma PageGoneView(s: State, s': State, e: nat, pn: nat)
    requires s'.envs.Keys == s.envs.Keys && e in s.envs && Sees(s', e, pn) == None
    requires forall e': nat, pn': nat | e' != e || pn' != pn :: Sees(s', e', pn') == Sees(s, e', pn')
    ensures View(s') == DropOwn(View(s), e, pn)
  {
    ViewOwn(s);
    ViewOwn(s');
    OwnDrop(View(s), e, pn);
    hide View, Own, Sees, DropOwn;
    SameMemory(View(s'), DropOwn(View(s), e, pn));
  }

  lemma NewEnvView(s: State, s': State, c: nat)
    requires s'.envs.Keys == s.envs.Keys + {c} && c !in s.envs
    requires forall e: nat, pn: nat :: Sees(s', e, pn) == Sees(s, e, pn)
    ensures View(s') == NewOwn(View(s), c)
  {
    ViewOwn(s);
    ViewOwn(s');
    OwnNew(View(s), c);
    assert forall pn: nat :: Sees(s, c, pn) == None;
    hide View, Own, Sees, NewOwn;
    SameMemory(View(s'), NewOwn(View(s), c));
  }

  lemma OwnDrop(m: Eager, e: nat, pn: nat)
    ensures DropOwn(m, e, pn).Keys == m.Keys
    ensures forall e': nat, pn': nat ::
              Own(DropOwn(m, e, pn), e', pn') == if e' == e && pn' == pn then None else Own(m, e', pn')
  {
  }

  lemma OwnNew(m: Eager, e: nat)
    ensures NewOwn(m, e).Keys == m.Keys + {e}
    ensures forall e': nat, pn': nat :: Own(NewOwn(m, e), e', pn') == if e' == e then None else Own(m, e', pn')
  {
  }

  lemma OwnSet(m: Eager, e: nat, pn: nat, o: OwnPage)
    ensures SetOwn(m, e, pn, o).Keys == m.Keys
    ensures forall e': nat, pn': nat :: Own(SetOwn(m, e, pn, o), e', pn') ==
                                        if e in m && e' == e && pn' == pn then Some(o) else Own(m, e', pn')
  {
  }

  /** Nobody else sees, or copies, a frame that page (e, pn) maps writable. */
  lemma WriterAlone(s: State, e: nat, pn: nat, e': nat, pn': nat)
    requires Inv(s) && Page(s.envs, e, pn).Some? && Page(s.envs, e, pn).value.w && s.envs[e].parent.None?
    requires pn != TEMP || s.envs[e].fault.Copying?
    requires Frame(s.envs, e', pn') == Frame(s.envs, e, pn) && (e' != e || pn' != pn)
    ensures pn != TEMP && Sees(s, e', pn') == None
    ensures !(s.envs[e'].fault.Copying? && (pn' == TEMP || pn' == s.envs[e'].fault.pn))
  {
    assert Excused(s.envs, e, pn, e', pn');
    assert FaultOk(s, e) && FaultOk(s, e') && ForkOk(s.envs, e);
  }

  lemma FillKeeps(s: State, s': State, e: nat, pn: nat, c: Content)
    requires Inv(s) && Page(s.envs, e, pn).Some? && Page(s.envs, e, pn).value.w && s.envs[e].parent.None?
    requires pn != TEMP || s.envs[e].fault.Copying?
    requires s'.envs == s.envs && s'.frames == s.frames[s.envs[e].pages[pn].frame := c]
    ensures forall e': nat, pn': nat | e' != e || pn' != pn :: Sees(s', e', pn') == Sees(s, e', pn')
    ensures FramesOk(s') && forall e': nat | e' in s.envs && (e' != e || pn != TEMP) :: FaultOk(s', e')
  {
    forall e': nat, pn': nat | e' != e || pn' != pn ensures Sees(s', e', pn') == Sees(s, e', pn') {
      if Frame(s.envs, e', pn') == Frame(s.envs, e, pn) {
        WriterAlone(s, e, pn, e', pn');
      }
    }
    forall e': nat | e' in s.envs && (e' != e || pn != TEMP) ensures FaultOk(s', e') {
      assert FaultOk(s, e');
      if s.envs[e'].fault.Copying? {
        var v := s.envs[e'].fault.pn;
        if Frame(s.envs, e', v) == Frame(s.envs, e, pn) { WriterAlone(s, e, pn, e', v); }
        if Frame(s.envs, e', TEMP) == Frame(s.envs, e, pn) { WriterAlone(s, e, pn, e', TEMP); }
      }
    }
  }

  /** Environment e runs: its fork has made it runnable. */
  predicate Runs(s: State, e: nat) {
    e in s.envs && s.envs[e].parent.None?
  }

  /** It runs user code: neither fork nor pgfault. */
  predicate Free(s: State, e: nat) {
    Runs(s, e) && s.envs[e].fork.NotForking? && s.envs[e].fault.NoFault?
  }

  lemma WriteStep(s: State, e: nat, v: nat, i: nat, x: int)
    requires Inv(s) && Runs(s, e) && Page(s.envs, e, v).Some? && Page(s.envs, e, v).value.w && v != TEMP && i < 1024
    requires s.envs[e].pages[v].frame in s.frames
    ensures var f := s.envs[e].pages[v].frame;
            var s' := Fill(s, f, s.frames[f][i := x]);
            Inv(s') && View(s') == Apply(View(s), Set(e, v, i, x))
  {
    var f := s.envs[e].pages[v].frame;
    var c: Content := s.frames[f][i := x];
    var s' := Fill(s, f, c);
    FillKeeps(s, s', e, v, c);
    assert Sees(s, e, v) == Some(OwnPage(s.frames[f], true));
    OnePageView(s, s', e, v, OwnPage(c, true));
    ViewOwn(s);
    assert Own(View(s), e, v) == Sees(s, e, v);
  }

  /** Mapping a fresh page at page v of e, over whatever was there. */
  lemma MapFresh(s: State, s': State, e: nat, v: nat, p: Pte)
    requires Inv(s) && Unmapped(s, p.frame) && s'.frames == s.frames[p.frame := ZeroContent()]
    requires Page(s'.envs, e, v) == Some(p)
    requires forall e': nat, v': nat | e' != e || v' != v :: Page(s'.envs, e', v') == Page(s.envs, e', v')
    requires forall e1: nat, v1: nat, e2: nat, v2: nat |
               Excused(s.envs, e1, v1, e2, v2) && (e1 != e || v1 != v) && (e2 != e || v2 != v) ::
               Excused(s'.envs, e1, v1, e2, v2)
    ensures FramesOk(s') && Exclusive(s'.envs)
    ensures forall e': nat | e' in s'.envs && e' in s.envs && s'.envs[e'].fault == s.envs[e'].fault &&
              (e' != e || (s.envs[e'].fault.NoFault? && v != TEMP)) :: FaultOk(s', e')
  {
    forall e': nat | e' in s'.envs && e' in s.envs && s'.envs[e'].fault == s.envs[e'].fault &&
              (e' != e || (s.envs[e'].fault.NoFault? && v != TEMP))
      ensures FaultOk(s', e')
    {
      assert FaultOk(s, e');
      assert Page(s'.envs, e', TEMP) == Page(s.envs, e', TEMP) && Frame(s.envs, e', TEMP) != Some(p.frame);
      if !s.envs[e'].fault.NoFault? {
        assert Page(s'.envs, e', s.envs[e'].fault.pn) == Page(s.envs, e', s.envs[e'].fault.pn);
        assert Frame(s.envs, e', s.envs[e'].fault.pn) != Some(p.frame);
      }
    }
    forall e': nat, v': nat | Frame(s'.envs, e', v').Some? ensures Frame(s'.envs, e', v').value in s'.frames {
      assert (e' == e && v' == v) || Frame(s'.envs, e', v') == Frame(s.envs, e', v');
    }
    forall e1: nat, v1: nat, e2: nat, v2: nat
      | Page(s'.envs, e1, v1).Some? && Page(s'.envs, e1, v1).value.w && Frame(s'.envs, e2, v2) == Frame(s'.envs, e1, v1)
      ensures (e2 == e1 && v2 == v1) || Excused(s'.envs, e1, v1, e2, v2)
    {
      assert Frame(s.envs, e1, v1) != Some(p.frame) && Frame(s.envs, e2, v2) != Some(p.frame);
      if (e1 != e || v1 != v) && (e2 != e || v2 != v) {
        assert (e2 == e1 && v2 == v1) || Excused(s.envs, e1, v1, e2, v2);
      }
    }
  }

  lemma SeesFresh(s: State, s': State, e: nat, v: nat, p: Pte)
    requires Unmapped(s, p.frame) && s'.frames == s.frames[p.frame := ZeroContent()]
    requires Page(s'.envs, e, v) == Some(p)
    requires forall e': nat, v': nat | e' != e || v' != v :: Page(s'.envs, e', v') == Page(s.envs, e', v')
    requires forall e': nat, v': nat :: Pending(s'.envs, e', v') == Pending(s.envs, e', v')
    ensures forall e': nat, v': nat | e' != e || v' != v :: Sees(s', e', v') == Sees(s, e', v')
    ensures v != TEMP && !Pending(s.envs, e, v) ==> Sees(s', e, v) == Some(OwnPage(ZeroContent(), p.w || p.cow))
  {
    hide Pending;
    forall e': nat, v': nat | e' != e || v' != v ensures Sees(s', e', v') == Sees(s, e', v') {
      assert Frame(s.envs, e', v') != Some(p.frame);
    }
  }

  /** Pages of an environment that neither forks nor is a child to be do not matter to any fork. */
  lemma FreeElsewhere(s: State, s': State, e: nat)
    requires Inv(s) && Free(s, e) && e in s'.envs && s'.envs == s.envs[e := s'.envs[e]]
    requires s'.envs[e].fork == s.envs[e].fork && s'.envs[e].parent == s.envs[e].parent
    ensures forall c: nat, v: nat :: Pending(s'.envs, c, v) == Pending(s.envs, c, v)
    ensures forall e': nat | e' in s'.envs :: ForkOk(s'.envs, e')
  {
    assert forall e': nat, v: nat | e' != e :: Page(s'.envs, e', v) == Page(s.envs, e', v);
    forall e': nat | e' in s'.envs ensures ForkOk(s'.envs, e') {
      assert ForkOk(s.envs, e');
    }
  }

  lemma PageAllocStep(s: State, e: nat, v: nat, p: Pte)
    requires Inv(s) && Free(s, e) && v != TEMP && Unmapped(s, p.frame)
    ensures var s' := Fill(SetPage(s, e, v, p), p.frame, ZeroContent());
            Inv(s') && View(s') == Apply(View(s), Alloc(e, v, p.w || p.cow))
  {
    hide ForkOk, FaultOk, Exclusive, FramesOk, View, SetOwn, Unmapped, Sees, Duplicated;
    var s' := Fill(SetPage(s, e, v, p), p.frame, ZeroContent());
    assert Page(s'.envs, e, v) == Some(p) && !Pending(s.envs, e, v) && s'.envs.Keys == s.envs.Keys;
    assert forall e': nat, v': nat | e' != e || v' != v :: Page(s'.envs, e', v') == Page(s.envs, e', v');
    FreeElsewhere(s, s', e);
    hide Pending, Page, Frame;
    MapFresh(s, s', e, v, p);
    SeesFresh(s, s', e, v, p);
    OnePageView(s, s', e, v, OwnPage(ZeroContent(), p.w || p.cow));
  }

  /** Pages may go, but none comes. */
  lemma FewerPages(s: State, s': State)
    requires FramesOk(s) && Exclusive(s.envs) && s.frames.Keys <= s'.frames.Keys
    requires forall e: nat, v: nat :: Page(s'.envs, e, v) == None || Page(s'.envs, e, v) == Page(s.envs, e, v)
    requires forall e1: nat, v1: nat, e2: nat, v2: nat |
               Excused(s.envs, e1, v1, e2, v2) && Page(s'.envs, e1, v1).Some? && Page(s'.envs, e2, v2).Some? ::
               Excused(s'.envs, e1, v1, e2, v2)
    ensures FramesOk(s') && Exclusive(s'.envs)
  {
    hide Excused;
    forall e: nat, v: nat ensures Frame(s'.envs, e, v) == None || Frame(s'.envs, e, v) == Frame(s.envs, e, v) {
    }
    assert forall e: nat, v: nat | Frame(s'.envs, e, v).Some? :: Page(s'.envs, e, v).Some?;
    assert Exclusive(s'.envs) by {
      hide Page;
    }
  }

  /** No fork notices a change of frames and permissions, or at PFTEMP. */
  lemma SameForks(s: State, s': State)
    requires Inv(s) && s'.envs.Keys == s.envs.Keys
    requires forall e: nat, v: nat | v != TEMP :: Page(s'.envs, e, v).Some? <==> Page(s.envs, e, v).Some?
    requires forall e: nat, v: nat |
               v != TEMP && Page(s.envs, e, v).Some? && (Page(s.envs, e, v).value.w || Page(s.envs, e, v).value.cow) ::
               && (Page(s'.envs, e, v).value.w || Page(s'.envs, e, v).value.cow)
               && (s.envs[e].parent.Some? ==> Page(s'.envs, e, v) == Page(s.envs, e, v))
    requires forall e: nat | e in s.envs :: s'.envs[e].fork == s.envs[e].fork && s'.envs[e].parent == s.envs[e].parent
    requires forall e: nat | e in s.envs && s.envs[e].parent.Some? :: TEMP !in s'.envs[e].pages
    ensures forall e: nat | e in s'.envs :: ForkOk(s'.envs, e)
  {
    forall e: nat | e in s'.envs ensures ForkOk(s'.envs, e) {
      assert ForkOk(s.envs, e);
      if !s.envs[e].fork.NotForking? {
        var c := s.envs[e].fork.child;
        assert FaultOk(s, c);
        hide FaultOk, Exclusive, FramesOk;
        assert Page(s'.envs, c, TEMP) == Page(s.envs, c, TEMP) == None;
        if s.envs[e].fork.Halfway? {
          var pn := s.envs[e].fork.pn;
          assert Page(s.envs, c, pn).Some? && Page(s.envs, e, pn).Some? && pn != TEMP;
          assert Page(s'.envs, c, pn).Some? && Page(s'.envs, e, pn).Some?;
        }
      }
    }
  }

  /** The pages are the same, and only environment e is at another point of pgfault. */
  lemma OnlyFaultMoves(s: State, s': State, e: nat)
    requires Inv(s) && e in s.envs && e in s'.envs && s'.envs == SetFault(s, e, s'.envs[e].fault).envs
    ensures forall e': nat, v: nat ::
              Page(s'.envs, e', v) == Page(s.envs, e', v) && Pending(s'.envs, e', v) == Pending(s.envs, e', v)
    ensures forall e': nat | e' in s'.envs :: ForkOk(s'.envs, e')
  {
    assert forall e': nat, v: nat :: Page(s'.envs, e', v) == Page(s.envs, e', v);
    NoTempInChild(s);
    hide ForkOk, FaultOk, Exclusive, FramesOk;
    SameForks(s, s');
  }

  lemma NoTempInChild(s: State)
    requires Inv(s)
    ensures forall c: nat | c in s.envs && s.envs[c].parent.Some? :: TEMP !in s.envs[c].pages
  {
    forall c: nat | c in s.envs && s.envs[c].parent.Some? ensures TEMP !in s.envs[c].pages {
      assert FaultOk(s, c);
    }
  }

  lemma FaultStep(s: State, e: nat, v: nat)
    requires Inv(s) && Runs(s, e) && s.envs[e].fault.NoFault?
    requires Page(s.envs, e, v).Some? && Page(s.envs, e, v).value.cow && !Page(s.envs, e, v).value.w
    ensures Inv(SetFault(s, e, Checked(v))) && View(SetFault(s, e, Checked(v))) == View(s)
  {
    var s' := SetFault(s, e, Checked(v));
    OnlyFaultMoves(s, s', e);
    hide ForkOk;
    forall e': nat | e' in s'.envs ensures FaultOk(s', e') {
      assert FaultOk(s, e');
    }
    hide FaultOk, Pending;
    FewerPages(s, s');
    SameView(s, s');
  }

  /** fork never gets between its two maps of page PFTEMP. */
  lemma TempNotPending(s: State, c: nat)
    requires Inv(s)
    ensures !Pending(s.envs, c, TEMP)
    ensures forall e: nat | e in s.envs && s.envs[e].fork.Halfway? :: s.envs[e].fork.pn != TEMP
  {
    forall e: nat | e in s.envs && s.envs[e].fork.Halfway? ensures s.envs[e].fork.pn != TEMP {
      assert ForkOk(s.envs, e);
      assert Page(s.envs, s.envs[e].fork.child, s.envs[e].fork.pn).Some?;
    }
  }

  /** Only the page at PFTEMP of environment e, and its point in pgfault, change. */
  lemma TempElsewhere(s: State, s': State, e: nat)
    requires Inv(s) && Runs(s, e) && e in s'.envs && s'.envs == s.envs[e := s'.envs[e]]
    requires s'.envs[e].fork == s.envs[e].fork && s'.envs[e].parent == s.envs[e].parent
    requires forall v: nat | v != TEMP :: Page(s'.envs, e, v) == Page(s.envs, e, v)
    ensures forall c: nat, v: nat :: Pending(s'.envs, c, v) == Pending(s.envs, c, v)
    ensures forall e': nat | e' in s'.envs :: ForkOk(s'.envs, e')
  {
    assert forall e': nat, v: nat | e' != e || v != TEMP :: Page(s'.envs, e', v) == Page(s.envs, e', v);
    forall c: nat, v: nat ensures Pending(s'.envs, c, v) == Pending(s.envs, c, v) {
      TempNotPending(s, c);
    }
    NoTempInChild(s);
    hide ForkOk, FaultOk, Exclusive, FramesOk, Pending;
    SameForks(s, s');
  }

  lemma FaultAllocStep(s: State, e: nat, g: nat)
    requires Inv(s) && Runs(s, e) && s.envs[e].fault.Checked? && Unmapped(s, g)
    ensures var s' := SetFault(Fill(SetPage(s, e, TEMP, Pte(g, true, false)), g, ZeroContent()), e,
                               Copying(s.envs[e].fault.pn, 0));
            Inv(s') && View(s') == View(s)
  {
    hide ForkOk, Exclusive, FramesOk, View, Sees, Duplicated;
    var v, p := s.envs[e].fault.pn, Pte(g, true, false);
    var s' := SetFault(Fill(SetPage(s, e, TEMP, p), g, ZeroContent()), e, Copying(v, 0));
    assert Page(s'.envs, e, TEMP) == Some(p) && s'.envs.Keys == s.envs.Keys;
    assert forall e': nat, v': nat | e' != e || v' != TEMP :: Page(s'.envs, e', v') == Page(s.envs, e', v');
    TempElsewhere(s, s', e);
    hide Pending;
    MapFresh(s, s', e, TEMP, p);
    SeesFresh(s, s', e, TEMP, p);
    assert FaultOk(s, e) && Frame(s.envs, e, v) != Some(g);
    assert FaultOk(s', e) by {
      assert Frame(s'.envs, e, v) == Frame(s.envs, e, v);
      hide Exclusive;
      FrameExists(s', e, v);
    }
    assert Sees(s', e, TEMP) == Sees(s, e, TEMP) by { SeesNoTemp(s, e); SeesNoTemp(s', e); }
    SameView(s, s');
  }

  lemma FrameExists(s: State, e: nat, v: nat)
    requires FramesOk(s) && Page(s.envs, e, v).Some?
    ensures Page(s.envs, e, v).value.frame in s.frames
  {
    assert Frame(s.envs, e, v).Some?;
  }

  lemma SeesNoTemp(s: State, e: nat)
    ensures Sees(s, e, TEMP) == None
  {
  }

  lemma FaultCopyStep(s: State, e: nat)
    requires Inv(s) && Runs(s, e) && s.envs[e].fault.Copying? && s.envs[e].fault.k < 1024
    ensures var Copying(v, k) := s.envs[e].fault;
            && v in s.envs[e].pages && TEMP in s.envs[e].pages
            && var g := s.envs[e].pages[TEMP].frame;
            && g in s.frames && s.envs[e].pages[v].frame in s.frames
            && var s' := SetFault(Fill(s, g, s.frames[g][k := s.frames[s.envs[e].pages[v].frame][k]]), e,
                                  Copying(v, k + 1));
            Inv(s') && View(s') == View(s)
  {
    var Copying(v, k) := s.envs[e].fault;
    assert FaultOk(s, e);
    var g, f := s.envs[e].pages[TEMP].frame, s.envs[e].pages[v].frame;
    assert Page(s.envs, e, TEMP).Some?;
    if f == g { WriterAlone(s, e, TEMP, e, v); }
    var c: Content := s.frames[g][k := s.frames[f][k]];
    var s1 := Fill(s, g, c);
    FillKeeps(s, s1, e, TEMP, c);
    var s' := SetFault(s1, e, Copying(v, k + 1));
    OnlyFaultMoves(s, s', e);
    hide ForkOk, Pending;
    assert c[..k + 1] == s.frames[f][..k + 1];
    forall e': nat | e' in s'.envs ensures FaultOk(s', e') {
      assert e' != e ==> FaultOk(s1, e');
    }
    hide FaultOk;
    FewerPages(s, s');
    forall e': nat, v': nat ensures Sees(s', e', v') == Sees(s, e', v') {
      assert e' != e || v' != TEMP ==> Sees(s1, e', v') == Sees(s, e', v');
    }
    SameView(s, s');
  }

  lemma FaultMapStep(s: State, e: nat)
    requires Inv(s) && Runs(s, e) && s.envs[e].fault.Copying? && s.envs[e].fault.k == 1024
    ensures var v := s.envs[e].fault.pn;
            && TEMP in s.envs[e].pages
            && var s' := SetFault(SetPage(s, e, v, Pte(s.envs[e].pages[TEMP].frame, true, false)), e, Moved(v));
            Inv(s') && View(s') == View(s)
  {
    assert FaultOk(s, e);
    var v, g := s.envs[e].fault.pn, s.envs[e].pages[TEMP].frame;
    var f := s.envs[e].pages[v].frame;
    assert s.frames[g] == s.frames[f] by {
      assert s.frames[g] == s.frames[g][..1024] && s.frames[f] == s.frames[f][..1024];
    }
    assert Page(s.envs, e, TEMP).Some?;
    var s' := SetFault(SetPage(s, e, v, Pte(g, true, false)), e, Moved(v));
    assert forall e': nat, v': nat | e' != e || v' != v :: Page(s'.envs, e', v') == Page(s.envs, e', v');
    forall c: nat, v': nat ensures Pending(s'.envs, c, v') == Pending(s.envs, c, v') {
      if c in s.envs && Frame(s.envs, c, v) == Some(g) && c != e {
        WriterAlone(s, e, TEMP, c, v);
      }
    }
    hide Pending, Exclusive, FramesOk;
    MapMoved(s, s', e, v);
    SameForks(s, s');
    hide ForkOk;
    forall e': nat | e' in s'.envs ensures FaultOk(s', e') {
      assert FaultOk(s, e');
    }
    hide FaultOk, ForkOk, Pending;
    SameView(s, s');
  }

  /** Page v of e joins the writable page at PFTEMP, and nothing else has its frame. */
  lemma MapMoved(s: State, s': State, e: nat, v: nat)
    requires Inv(s) && Runs(s, e) && s.envs[e].fault.Copying? && s.envs[e].fault.pn == v
    requires s'.frames == s.frames && Page(s.envs, e, TEMP).Some? && Page(s.envs, e, TEMP).value.w
    requires e in s'.envs && s'.envs[e].fault == Moved(v)
    requires Page(s'.envs, e, v).Some? && Frame(s'.envs, e, v) == Frame(s.envs, e, TEMP) && v != TEMP
    requires forall e': nat, v': nat | e' != e || v' != v :: Page(s'.envs, e', v') == Page(s.envs, e', v')
    requires forall c: nat, v': nat :: Pending(s'.envs, c, v') == Pending(s.envs, c, v')
    requires s'.envs.Keys == s.envs.Keys && forall e': nat | e' in s.envs ::
               s'.envs[e'].parent == s.envs[e'].parent && (e' != e ==> s'.envs[e'].fault == s.envs[e'].fault)
    ensures FramesOk(s') && Exclusive(s'.envs)
  {
    hide FaultOk, ForkOk, Pending;
    forall e': nat, v': nat | Frame(s'.envs, e', v').Some? ensures Frame(s'.envs, e', v').value in s'.frames {
      assert Frame(s'.envs, e', v') == if e' == e && v' == v then Frame(s.envs, e, TEMP) else Frame(s.envs, e', v');
    }
    forall e1: nat, v1: nat, e2: nat, v2: nat
      | Page(s'.envs, e1, v1).Some? && Page(s'.envs, e1, v1).value.w && Frame(s'.envs, e2, v2) == Frame(s'.envs, e1, v1)
      ensures (e2 == e1 && v2 == v1) || Excused(s'.envs, e1, v1, e2, v2)
    {
      if e1 == e && v1 == v {
        if !(e2 == e && (v2 == v || v2 == TEMP)) { WriterAlone(s, e, TEMP, e2, v2); }
      } else if e2 == e && v2 == v {
        assert Frame(s.envs, e1, v1) == Frame(s.envs, e, TEMP);
        if !(e1 == e && v1 == TEMP) { WriterAlone(s, e, TEMP, e1, v1); }
      } else {
        assert (e2 == e1 && v2 == v1) || Excused(s.envs, e1, v1, e2, v2);
      }
    }
  }

  lemma FaultUnmapStep(s: State, e: nat)
    requires Inv(s) && Runs(s, e) && s.envs[e].fault.Moved?
    ensures var s' := SetFault(DropPage(s, e, TEMP), e, NoFault);
            Inv(s') && View(s') == View(s)
  {
    var s' := SetFault(DropPage(s, e, TEMP), e, NoFault);
    assert forall e': nat, v: nat | e' != e || v != TEMP :: Page(s'.envs, e', v) == Page(s.envs, e', v);
    assert Page(s'.envs, e, TEMP) == None;
    TempElsewhere(s, s', e);
    hide ForkOk, Pending;
    forall e': nat | e' in s'.envs ensures FaultOk(s', e') {
      assert FaultOk(s, e');
    }
    FewerPages(s, s');
    hide FaultOk, Exclusive, FramesOk;
    SameView(s, s');
  }

  lemma PageUnmapStep(s: State, e: nat, v: nat)
    requires Inv(s) && Free(s, e) && v != TEMP
    ensures Inv(DropPage(s, e, v)) && View(DropPage(s, e, v)) == Apply(View(s), Unmap(e, v))
  {
    var s' := DropPage(s, e, v);
    assert forall e': nat, v': nat | e' != e || v' != v :: Page(s'.envs, e', v') == Page(s.envs, e', v');
    assert Page(s'.envs, e, v) == None;
    FreeElsewhere(s, s', e);
    hide ForkOk, Pending;
    forall e': nat | e' in s'.envs ensures FaultOk(s', e') {
      assert FaultOk(s, e');
    }
    FewerPages(s, s');
    hide FaultOk, Exclusive, FramesOk, Excused;
    PageGoneView(s, s', e, v);
  }

  lemma ExoforkOk(s: State, e: nat, c: nat)
    requires Inv(s) && Free(s, e) && c !in s.envs
    ensures var s' := Spawn(s, e, c);
            && (forall e': nat, v: nat ::
                  Page(s'.envs, e', v) == Page(s.envs, e', v) && Pending(s'.envs, e', v) == Pending(s.envs, e', v))
            && forall e': nat | e' in s'.envs :: FaultOk(s', e') && ForkOk(s'.envs, e')
  {
    hide Exclusive, FramesOk;
    var s' := Spawn(s, e, c);
    assert forall e': nat, v: nat :: Page(s'.envs, e', v) == Page(s.envs, e', v);
    forall e': nat | e' in s'.envs ensures FaultOk(s', e') && ForkOk(s'.envs, e') {
      if e' != c && e' != e {
        assert FaultOk(s, e') && ForkOk(s.envs, e');
      }
      if e' == e { assert FaultOk(s, e); }
    }
  }

  lemma ExoforkStep(s: State, e: nat, c: nat)
    requires Inv(s) && Free(s, e) && c !in s.envs
    ensures Inv(Spawn(s, e, c)) && View(Spawn(s, e, c)) == Apply(View(s), New(c))
  {
    ExoforkOk(s, e, c);
    hide FaultOk, ForkOk, Exclusive, FramesOk, Pending, Page, Frame;
    FewerPages(s, Spawn(s, e, c));
    hide Excused;
    NewEnvView(s, Spawn(s, e, c), c);
  }

  /** A fork by e concerns only e and its child. */
  lemma OtherForks(s: State, s': State, e: nat, c: nat)
    requires Inv(s) && Runs(s, e) && c in s.envs && s.envs[c].parent == Some(e) && s'.envs.Keys == s.envs.Keys
    requires forall e': nat | e' in s.envs && e' != e && e' != c :: s'.envs[e'] == s.envs[e']
    ensures forall e': nat | e' in s.envs && e' != e && e' != c :: ForkOk(s'.envs, e')
  {
    hide FaultOk, Exclusive, FramesOk;
    assert forall e': nat, v: nat | e' != e && e' != c :: Page(s'.envs, e', v) == Page(s.envs, e', v);
    forall e': nat | e' in s.envs && e' != e && e' != c ensures ForkOk(s'.envs, e') {
      assert ForkOk(s.envs, e');
      if !s.envs[e'].fork.NotForking? {
        assert s.envs[e'].fork.child != e && s.envs[e'].fork.child != c;
      }
    }
  }

  lemma DupAbsentStep(s: State, e: nat)
    requires Inv(s) && Runs(s, e) && s.envs[e].fork.AtPage? && s.envs[e].fork.pn < TOP
    requires s.envs[e].fork.pn !in s.envs[e].pages
    ensures var s' := SetFork(s, e, AtPage(s.envs[e].fork.child, s.envs[e].fork.pn + 1));
            Inv(s') && View(s') == View(s)
  {
    var c, pn := s.envs[e].fork.child, s.envs[e].fork.pn;
    var s' := SetFork(s, e, AtPage(c, pn + 1));
    OnlyForkMoves(s, s', e, c);
    assert ForkOk(s'.envs, e) by { assert ForkOk(s.envs, e); }
    hide Pending, Exclusive, FramesOk, FaultOk, ForkOk;
    FewerPages(s, s');
    SameView(s, s');
  }

  /** The pages are the same, and only environment e is at another point of its fork, of c. */
  lemma OnlyForkMoves(s: State, s': State, e: nat, c: nat)
    requires Inv(s) && Runs(s, e) && (s.envs[e].fork.AtPage? || s.envs[e].fork.Ready?) && s.envs[e].fork.child == c
    requires s'.frames == s.frames && s'.envs.Keys == s.envs.Keys
    requires s'.envs[e] == s.envs[e].(fork := s'.envs[e].fork) && !s'.envs[e].fork.Halfway?
    requires c in s.envs && s'.envs[c] == s.envs[c].(parent := s'.envs[c].parent)
    requires s'.envs[c].parent == s.envs[c].parent || s'.envs[c].parent == None
    requires forall e': nat | e' in s.envs && e' != e && e' != c :: s'.envs[e'] == s.envs[e']
    ensures forall e': nat, v: nat ::
              Page(s'.envs, e', v) == Page(s.envs, e', v) && Pending(s'.envs, e', v) == Pending(s.envs, e', v)
    ensures forall e': nat | e' in s'.envs :: FaultOk(s', e') && (e' != e ==> ForkOk(s'.envs, e'))
  {
    hide Exclusive, FramesOk;
    assert ForkOk(s.envs, e);
    OtherForks(s, s', e, c);
    assert forall e': nat, v: nat :: Page(s'.envs, e', v) == Page(s.envs, e', v);
    forall e': nat | e' in s'.envs ensures FaultOk(s', e') {
      assert FaultOk(s, e');
    }
  }

  /** duppage's first map on page pn, at which e and its child are now. */
  function Share(s: State, e: nat, c: nat, pn: nat, cow: bool): State
    requires e in s.envs && c in s.envs && pn in s.envs[e].pages
  {
    SetFork(SetPage(s, c, pn, Pte(s.envs[e].pages[pn].frame, false, cow)), e,
            if cow then Halfway(c, pn) else AtPage(c, pn + 1))
  }

  ghost predicate Sharing(s: State, e: nat) {
    && Runs(s, e) && s.envs[e].fault.NoFault? && s.envs[e].fork.AtPage? && s.envs[e].fork.pn < TOP
    && s.envs[e].fork.pn in s.envs[e].pages
  }

  lemma ShareSetting(s: State, e: nat)
    requires Inv(s) && Sharing(s, e)
    ensures var AtPage(c, pn) := s.envs[e].fork;
            && c in s.envs && c != e && pn != TEMP && Page(s.envs, c, pn) == None && s.envs[c].parent == Some(e)
  {
    hide Exclusive, FramesOk;
    var AtPage(c, pn) := s.envs[e].fork;
    assert ForkOk(s.envs, e) && FaultOk(s, e);
  }

  lemma SharePending(s: State, e: nat, cow: bool, e': nat, v: nat)
    requires Inv(s) && Sharing(s, e)
    requires cow == (s.envs[e].pages[s.envs[e].fork.pn].w || s.envs[e].pages[s.envs[e].fork.pn].cow)
    ensures s.envs[e].fork.child in s.envs
    ensures var AtPage(c, pn) := s.envs[e].fork;
            var s' := Share(s, e, c, pn, cow);
            Pending(s'.envs, e', v) <==> Pending(s.envs, e', v) || (e' == c && v == pn && s.envs[e].pages[pn].w)
  {
    hide Exclusive, FramesOk, FaultOk;
    ShareSetting(s, e);
  }

  lemma ShareOk(s: State, e: nat, cow: bool)
    requires Inv(s) && Sharing(s, e)
    requires cow == (s.envs[e].pages[s.envs[e].fork.pn].w || s.envs[e].pages[s.envs[e].fork.pn].cow)
    ensures s.envs[e].fork.child in s.envs
    ensures var AtPage(c, pn) := s.envs[e].fork;
            var s' := Share(s, e, c, pn, cow);
            && (forall e': nat | e' in s'.envs :: FaultOk(s', e') && ForkOk(s'.envs, e'))
            && Page(s'.envs, c, pn) == Some(Pte(s.envs[e].pages[pn].frame, false, cow))
            && (forall e': nat, v: nat | e' != c || v != pn :: Page(s'.envs, e', v) == Page(s.envs, e', v))
  {
    hide Exclusive, FramesOk, Pending;
    ShareSetting(s, e);
    var AtPage(c, pn) := s.envs[e].fork;
    var s' := Share(s, e, c, pn, cow);
    assert forall e': nat, v: nat | e' != c || v != pn :: Page(s'.envs, e', v) == Page(s.envs, e', v);
    OtherForks(s, s', e, c);
    assert ForkOk(s.envs, e);
    forall e': nat | e' in s'.envs ensures FaultOk(s', e') {
      assert FaultOk(s, e');
    }
  }

  lemma ShareExclusive(s: State, s': State, e: nat, c: nat, pn: nat)
    requires Inv(s) && Runs(s, e) && s.envs[e].fault.NoFault? && c in s.envs && s.envs[c].parent == Some(e)
    requires s'.frames == s.frames
    requires Page(s.envs, e, pn).Some? && Page(s.envs, c, pn) == None && pn != TEMP
    requires Page(s'.envs, c, pn).Some? && Frame(s'.envs, c, pn) == Frame(s.envs, e, pn)
    requires !Page(s'.envs, c, pn).value.w
    requires forall e': nat, v: nat | e' != c || v != pn :: Page(s'.envs, e', v) == Page(s.envs, e', v)
    requires forall e': nat, v: nat ::
               Pending(s'.envs, e', v) <==> Pending(s.envs, e', v) || (e' == c && v == pn && s.envs[e].pages[pn].w)
    requires s'.envs.Keys == s.envs.Keys && forall e': nat | e' in s.envs ::
               s'.envs[e'].fault == s.envs[e'].fault && s'.envs[e'].parent == s.envs[e'].parent
    ensures FramesOk(s') && Exclusive(s'.envs)
  {
    hide FaultOk, ForkOk, Pending;
    forall e': nat, v: nat | Frame(s'.envs, e', v).Some? ensures Frame(s'.envs, e', v).value in s'.frames {
      assert Frame(s'.envs, e', v) == if e' == c && v == pn then Frame(s.envs, e, pn) else Frame(s.envs, e', v);
    }
    forall e1: nat, v1: nat, e2: nat, v2: nat
      | Page(s'.envs, e1, v1).Some? && Page(s'.envs, e1, v1).value.w && Frame(s'.envs, e2, v2) == Frame(s'.envs, e1, v1)
      ensures (e2 == e1 && v2 == v1) || Excused(s'.envs, e1, v1, e2, v2)
    {
      if e2 == c && v2 == pn {
        assert Frame(s.envs, e, pn) == Frame(s.envs, e1, v1);
        assert (e == e1 && pn == v1) || Excused(s.envs, e1, v1, e, pn);
        RunsNotPending(s, e, pn);
      } else {
        assert (e2 == e1 && v2 == v1) || Excused(s.envs, e1, v1, e2, v2);
      }
    }
  }

  lemma RunsNotPending(s: State, e: nat, v: nat)
    requires Runs(s, e)
    ensures !Pending(s.envs, e, v)
  {
  }

  lemma ShareStep(s: State, e: nat)
    requires Inv(s) && Sharing(s, e) && s.envs[e].fork.child in s.envs
    ensures var AtPage(c, pn) := s.envs[e].fork;
            var p := s.envs[e].pages[pn];
            var s' := Share(s, e, c, pn, p.w || p.cow);
            Inv(s') && View(s') == if p.w then View(s) else CopyPage(View(s), e, c, pn)
  {
    hide Exclusive, FaultOk, ForkOk, Pending, Frame, View, SetOwn;
    ShareSetting(s, e);
    var AtPage(c, pn) := s.envs[e].fork;
    var p := s.envs[e].pages[pn];
    var s' := Share(s, e, c, pn, p.w || p.cow);
    ShareOk(s, e, p.w || p.cow);
    forall e': nat, v: nat
      ensures Pending(s'.envs, e', v) <==> Pending(s.envs, e', v) || (e' == c && v == pn && s.envs[e].pages[pn].w)
    {
      SharePending(s, e, p.w || p.cow, e', v);
    }
    FrameExists(s, e, pn);
    hide FramesOk;
    assert s'.envs.Keys == s.envs.Keys;
    assert Frame(s'.envs, c, pn) == Frame(s.envs, e, pn) by { FrameOf(s, e, pn); FrameOf(s', c, pn); }
    ShareExclusive(s, s', e, c, pn);
    RunsNotPending(s, e, pn);
    assert forall e': nat, v: nat | e' != c || v != pn :: Sees(s', e', v) == Sees(s, e', v);
    if p.w {
      SameView(s, s');
    } else {
      var o := OwnPage(s.frames[p.frame], p.cow);
      assert Sees(s, e, pn) == Some(o);
      assert !Pending(s.envs, c, pn) by { PendingMapped(s, c, pn); }
      assert Sees(s', c, pn) == Some(o);
      OnePageView(s, s', c, pn, o);
      CopyIsSet(s, e, c, pn);
    }
  }

  lemma PendingMapped(s: State, c: nat, pn: nat)
    ensures Pending(s.envs, c, pn) ==> Page(s.envs, c, pn).Some?
  {
  }

  lemma FrameOf(s: State, e: nat, pn: nat)
    ensures Page(s.envs, e, pn).Some? ==> Frame(s.envs, e, pn) == Some(Page(s.envs, e, pn).value.frame)
  {
  }

  lemma CopyIsSet(s: State, e: nat, c: nat, pn: nat)
    requires Sees(s, e, pn).Some?
    ensures CopyPage(View(s), e, c, pn) == SetOwn(View(s), c, pn, Sees(s, e, pn).value)
  {
    ViewOwn(s);
    assert Own(View(s), e, pn) == Sees(s, e, pn);
  }

  // duppage's second map.

  function Protect(s: State, e: nat, c: nat, pn: nat): State
    requires e in s.envs && pn in s.envs[e].pages
  {
    SetFork(SetPage(s, e, pn, Pte(s.envs[e].pages[pn].frame, false, true)), e, AtPage(c, pn + 1))
  }

  lemma ProtectOk(s: State, e: nat)
    requires Inv(s) && Runs(s, e) && s.envs[e].fault.NoFault? && s.envs[e].fork.Halfway?
    ensures var Halfway(c, pn) := s.envs[e].fork;
            && pn in s.envs[e].pages && c in s.envs && c != e && pn != TEMP && s.envs[c].parent == Some(e)
            && (s.envs[e].pages[pn].w || s.envs[e].pages[pn].cow)
            && Page(s.envs, c, pn).Some? && Page(s.envs, c, pn).value.cow
            && var s' := Protect(s, e, c, pn);
            && (forall e': nat | e' in s'.envs :: FaultOk(s', e') && ForkOk(s'.envs, e'))
            && Page(s'.envs, e, pn) == Some(Pte(s.envs[e].pages[pn].frame, false, true))
            && (forall e': nat, v: nat | e' != e || v != pn :: Page(s'.envs, e', v) == Page(s.envs, e', v))
            && (forall e': nat, v: nat :: Pending(s'.envs, e', v) <==> Pending(s.envs, e', v) && !(e' == c && v == pn))
  {
    hide Exclusive, FramesOk;
    var Halfway(c, pn) := s.envs[e].fork;
    assert ForkOk(s.envs, e) && FaultOk(s, e) && FaultOk(s, c);
    assert Page(s.envs, c, pn).Some?;
    var s' := Protect(s, e, c, pn);
    assert forall e': nat, v: nat | e' != e || v != pn :: Page(s'.envs, e', v) == Page(s.envs, e', v);
    OtherForks(s, s', e, c);
    forall e': nat | e' in s'.envs ensures FaultOk(s', e') && ForkOk(s'.envs, e') {
      assert FaultOk(s, e');
    }
  }

  lemma ProtectExclusive(s: State, s': State, e: nat, c: nat, pn: nat)
    requires Inv(s) && Runs(s, e) && s.envs[e].fault.NoFault? && s'.frames == s.frames
    requires Page(s.envs, e, pn).Some? && Page(s'.envs, e, pn).Some? && Frame(s'.envs, e, pn) == Frame(s.envs, e, pn)
    requires !Page(s'.envs, e, pn).value.w
    requires c in s.envs && s.envs[c].parent == Some(e)
    requires forall e': nat, v: nat | e' != e || v != pn :: Page(s'.envs, e', v) == Page(s.envs, e', v)
    requires forall e': nat, v: nat :: Pending(s'.envs, e', v) <==> Pending(s.envs, e', v) && !(e' == c && v == pn)
    requires s'.envs.Keys == s.envs.Keys && forall e': nat | e' in s.envs ::
               s'.envs[e'].fault == s.envs[e'].fault && s'.envs[e'].parent == s.envs[e'].parent
    ensures FramesOk(s') && Exclusive(s'.envs)
  {
    hide FaultOk, ForkOk, Pending;
    assert forall e': nat, v: nat :: Frame(s'.envs, e', v) == Frame(s.envs, e', v);
    forall e1: nat, v1: nat, e2: nat, v2: nat
      | Page(s'.envs, e1, v1).Some? && Page(s'.envs, e1, v1).value.w && Frame(s'.envs, e2, v2) == Frame(s'.envs, e1, v1)
      ensures (e2 == e1 && v2 == v1) || Excused(s'.envs, e1, v1, e2, v2)
    {
      assert Page(s.envs, e1, v1) == Page(s'.envs, e1, v1);
      assert (e2 == e1 && v2 == v1) || Excused(s.envs, e1, v1, e2, v2);
    }
  }

  lemma ProtectStep(s: State, e: nat)
    requires Inv(s) && Runs(s, e) && s.envs[e].fault.NoFault? && s.envs[e].fork.Halfway?
    requires s.envs[e].fork.pn in s.envs[e].pages
    ensures var Halfway(c, pn) := s.envs[e].fork;
            var s' := Protect(s, e, c, pn);
            Inv(s') && View(s') == if Pending(s.envs, c, pn) then CopyPage(View(s), e, c, pn) else View(s)
  {
    hide Exclusive, FaultOk, ForkOk, Pending, Frame, View, SetOwn;
    ProtectOk(s, e);
    var Halfway(c, pn) := s.envs[e].fork;
    var p := s.envs[e].pages[pn];
    var s' := Protect(s, e, c, pn);
    FrameExists(s, e, pn);
    hide FramesOk;
    assert s'.envs.Keys == s.envs.Keys;
    assert Frame(s'.envs, e, pn) == Frame(s.envs, e, pn) by { FrameOf(s, e, pn); FrameOf(s', e, pn); }
    ProtectExclusive(s, s', e, c, pn);
    RunsNotPending(s, e, pn);
    var o := OwnPage(s.frames[p.frame], true);
    assert Sees(s, e, pn) == Some(o) && Sees(s', e, pn) == Some(o);
    assert forall e': nat, v: nat | e' != c || v != pn :: Sees(s', e', v) == Sees(s, e', v);
    if Pending(s.envs, c, pn) {
      PendingFrame(s, e, c, pn);
      assert Sees(s', c, pn) == Some(o);
      OnePageView(s, s', c, pn, o);
      CopyIsSet(s, e, c, pn);
    } else {
      SameView(s, s');
    }
  }

  lemma PendingFrame(s: State, e: nat, c: nat, pn: nat)
    requires Pending(s.envs, c, pn) && s.envs[c].parent == Some(e)
    ensures Page(s.envs, e, pn).Some? && Page(s.envs, c, pn).Some?
    ensures Page(s.envs, e, pn).value.w && Page(s.envs, c, pn).value.frame == Page(s.envs, e, pn).value.frame
  {
  }

  /** The child's exception stack. */
  function GiveStack(s: State, e: nat, c: nat, g: nat): State
    requires e in s.envs && c in s.envs
  {
    SetFork(Fill(SetPage(s, c, XSTACK, Pte(g, true, false)), g, ZeroContent()), e, Ready(c))
  }

  lemma StackOk(s: State, e: nat, g: nat)
    requires Inv(s) && Runs(s, e) && s.envs[e].fork.AtPage? && s.envs[e].fork.pn >= TOP
    ensures var c := s.envs[e].fork.child;
            && c in s.envs && c != e && s.envs[c].parent == Some(e)
            && var s' := GiveStack(s, e, c, g);
            && (forall e': nat | e' in s'.envs :: ForkOk(s'.envs, e'))
            && Page(s'.envs, c, XSTACK) == Some(Pte(g, true, false))
            && (forall e': nat, v: nat | e' != c || v != XSTACK :: Page(s'.envs, e', v) == Page(s.envs, e', v))
            && (forall e': nat, v: nat :: Pending(s'.envs, e', v) == Pending(s.envs, e', v))
  {
    hide Exclusive, FramesOk, FaultOk;
    assert ForkOk(s.envs, e);
    var c := s.envs[e].fork.child;
    var s' := GiveStack(s, e, c, g);
    assert forall e': nat, v: nat | e' != c || v != XSTACK :: Page(s'.envs, e', v) == Page(s.envs, e', v);
    OtherForks(s, s', e, c);
  }

  lemma ForkStackStep(s: State, e: nat, g: nat)
    requires Inv(s) && Runs(s, e) && s.envs[e].fork.AtPage? && s.envs[e].fork.pn >= TOP && Unmapped(s, g)
    requires s.envs[e].fault.NoFault?
    ensures var c := s.envs[e].fork.child;
            && c in s.envs && Inv(GiveStack(s, e, c, g))
            && View(GiveStack(s, e, c, g)) == Apply(View(s), Alloc(c, XSTACK, true))
  {
    hide FaultOk, ForkOk, Exclusive, FramesOk, View, SetOwn, Unmapped, Sees, Pending;
    StackOk(s, e, g);
    var c := s.envs[e].fork.child;
    var s' := GiveStack(s, e, c, g);
    assert !Pending(s.envs, c, XSTACK) by { NotPending(s, e, c, XSTACK); }
    hide Page, Frame;
    MapFresh(s, s', c, XSTACK, Pte(g, true, false));
    SeesFresh(s, s', c, XSTACK, Pte(g, true, false));
    OnePageView(s, s', c, XSTACK, OwnPage(ZeroContent(), true));
    forall e': nat | e' in s'.envs ensures FaultOk(s', e') {
      if e' == e { FaultKept(s, s', e); }
    }
  }

  lemma NotPending(s: State, e: nat, c: nat, v: nat)
    requires c in s.envs && s.envs[c].parent == Some(e) && e in s.envs && !s.envs[e].fork.Halfway?
    ensures !Pending(s.envs, c, v)
  {
  }

  lemma FaultKept(s: State, s': State, e: nat)
    requires e in s.envs && e in s'.envs && FaultOk(s, e) && s'.envs[e].fault == s.envs[e].fault
    requires s'.envs[e].pages == s.envs[e].pages
    requires s.envs[e].fault.NoFault?
    ensures FaultOk(s', e)
  {
  }

  function StartChild(s: State, e: nat, c: nat): State
    requires e in s.envs && c in s.envs
  {
    var s1 := SetFork(s, e, NotForking);
    s1.(envs := s1.envs[c := s1.envs[c].(parent := None)])
  }

  lemma ForkRunStep(s: State, e: nat)
    requires Inv(s) && Runs(s, e) && s.envs[e].fork.Ready?
    ensures var c := s.envs[e].fork.child;
            c in s.envs && Inv(StartChild(s, e, c)) && View(StartChild(s, e, c)) == View(s)
  {
    hide Pending, Exclusive, FramesOk, FaultOk;
    assert ForkOk(s.envs, e);
    var c := s.envs[e].fork.child;
    var s' := StartChild(s, e, c);
    OnlyForkMoves(s, s', e, c);
    assert ForkOk(s'.envs, e);
    forall v: nat ensures !Pending(s.envs, c, v) {
      NotPending(s, e, c, v);
    }
    hide ForkOk;
    FewerPages(s, s');
    SameView(s, s');
  }

  function Gone(s: State, e: nat): State {
    s.(envs := s.envs - {e})
  }

  lemma GoneOk(s: State, e: nat)
    requires Inv(s) && Runs(s, e)
    ensures var s' := Gone(s, e);
            && (forall e': nat | e' in s'.envs :: FaultOk(s', e') && ForkOk(s'.envs, e'))
            && (forall e': nat, v: nat :: Page(s'.envs, e', v) == if e' == e then None else Page(s.envs, e', v))
            && (forall e': nat, v: nat :: Pending(s'.envs, e', v) <==>
                  Pending(s.envs, e', v) && s.envs[e'].parent != Some(e))
  {
    hide Exclusive, FramesOk;
    var s' := Gone(s, e);
    assert forall e': nat, v: nat :: Page(s'.envs, e', v) == if e' == e then None else Page(s.envs, e', v);
    forall e': nat | e' in s'.envs ensures FaultOk(s', e') {
      assert FaultOk(s, e');
    }
    hide FaultOk;
    forall e': nat | e' in s'.envs ensures ForkOk(s'.envs, e') {
      assert ForkOk(s.envs, e');
    }
  }

  /** The page a dying parent leaves half duplicated. */
  lemma OrphanSees(s: State, e: nat, c: nat, pn: nat)
    requires Inv(s) && Runs(s, e) && s.envs[e].fork == Halfway(c, pn) && Pending(s.envs, c, pn)
    ensures c in s.envs && c != e && Sees(s, e, pn).Some? && Sees(Gone(s, e), c, pn) == Sees(s, e, pn)
  {
    assert ForkOk(s.envs, e);
    assert Frame(s.envs, e, pn).Some?;
    TempNotPending(s, c);
    RunsNotPending(s, e, pn);
    assert Page(Gone(s, e).envs, c, pn) == Page(s.envs, c, pn);
  }

  lemma ExitView(s: State, s': State, m: Eager, e: nat)
    requires m.Keys == s.envs.Keys && s'.envs.Keys == s.envs.Keys - {e}
    requires forall e': nat, v: nat | e' != e :: Sees(s', e', v) == Own(m, e', v)
    requires forall v: nat :: Sees(s', e, v) == None
    ensures View(s') == m - {e}
  {
    ViewOwn(s');
    assert forall e': nat, v: nat :: Own(m - {e}, e', v) == if e' == e then None else Own(m, e', v);
    hide View, Own, Sees;
    SameMemory(View(s'), m - {e});
  }

  lemma DieStep(s: State, e: nat)
    requires Inv(s) && Runs(s, e)
    ensures Inv(Gone(s, e))
    ensures View(Gone(s, e)) ==
            if s.envs[e].fork.Halfway? && Pending(s.envs, s.envs[e].fork.child, s.envs[e].fork.pn)
            then CopyPage(View(s), e, s.envs[e].fork.child, s.envs[e].fork.pn) - {e}
            else View(s) - {e}
  {
    hide FaultOk, ForkOk, Exclusive, FramesOk, View, SetOwn, Pending;
    var s' := Gone(s, e);
    GoneOk(s, e);
    hide Frame;
    FewerPages(s, s');
    hide Excused, Inv;
    ViewOwn(s);
    hide Own;
    if s.envs[e].fork.Halfway? && Pending(s.envs, s.envs[e].fork.child, s.envs[e].fork.pn) {
      var Halfway(c, pn) := s.envs[e].fork;
      OrphanSees(s, e, c, pn);
      CopyIsSet(s, e, c, pn);
      var o := Sees(s, e, pn).value;
      OwnSet(View(s), c, pn, o);
      forall e': nat, v: nat | e' != e ensures Sees(s', e', v) == Own(SetOwn(View(s), c, pn, o), e', v) {
        PendingParent(s, e, e', v);
      }
      ExitView(s, s', SetOwn(View(s), c, pn, o), e);
    } else {
      forall e': nat, v: nat | e' != e ensures Sees(s', e', v) == Own(View(s), e', v) {
        PendingParent(s, e, e', v);
      }
      ExitView(s, s', View(s), e);
    }
  }

  lemma PendingParent(s: State, e: nat, c: nat, v: nat)
    requires e in s.envs
    ensures Pending(s.envs, c, v) && s.envs[c].parent == Some(e) ==> s.envs[e].fork == Halfway(c, v)
  {
  }

  /** Every step keeps the invariant, and does to what the programs see what the eager machine does. */
  lemma StepRefines(s: State, l: Step)
    requires Inv(s) && Enabled(s, l)
    ensures Inv(Next(s, l)) && View(Next(s, l)) == Apply(View(s), Meaning(s, l))
  {
    hide Inv, View, FaultOk, ForkOk, Unmapped, SetOwn, CopyPage;
    var env := s.envs[l.e];
    match l {
      case Write(e, pn, i, x) => WriteStep(s, e, pn, i, x);
      case PageAlloc(e, pn, frame, w, cow) => PageAllocStep(s, e, pn, Pte(frame, w, cow));
      case PageUnmap(e, pn) => PageUnmapStep(s, e, pn);
      case Fault(e, pn) => FaultStep(s, e, pn);
      case FaultAlloc(e, frame) => FaultAllocStep(s, e, frame);
      case FaultCopy(e) => FaultCopyStep(s, e);
      case FaultMap(e) => FaultMapStep(s, e);
      case FaultUnmap(e) => FaultUnmapStep(s, e);
      case Exofork(e, child) => ExoforkStep(s, e, child);
      case DupFirst(e) => if env.fork.pn in env.pages { ShareStep(s, e); } else { DupAbsentStep(s, e); }
      case DupSecond(e) => ProtectStep(s, e);
      case ForkStack(e, frame) => ForkStackStep(s, e, frame);
      case ForkRun(e) => ForkRunStep(s, e);
      case Die(e) => DieStep(s, e);
    }
  }

  ghost predicate IsRun(ss: seq<State>, ls: seq<Step>) {
    |ss| == |ls| + 1 && forall i: nat | i < |ls| :: Enabled(ss[i], ls[i]) && ss[i + 1] == Next(ss[i], ls[i])
  }

  /** What the eager machine has done after the first n steps. */
  function EagerRun(m: Eager, ss: seq<State>, ls: seq<Step>, n: nat): Eager
    requires n <= |ls| < |ss|
  {
    if n == 0 then m else Apply(EagerRun(m, ss, ls, n - 1), Meaning(ss[n - 1], ls[n - 1]))
  }

  /** No fork or fault is under way, PFTEMP is unused, and writable pages are not shared. */
  ghost predicate Quiet(s: State) {
    && FramesOk(s)
    && (forall e: nat | e in s.envs :: Free(s, e) && TEMP !in s.envs[e].pages)
    && forall e: nat, pn: nat, e': nat, pn': nat |
         Page(s.envs, e, pn).Some? && Page(s.envs, e, pn).value.w && Frame(s.envs, e', pn') == Frame(s.envs, e, pn) ::
           e' == e && pn' == pn
  }

  lemma QuietInv(s: State)
    requires Quiet(s)
    ensures Inv(s)
  {
    forall e: nat | e in s.envs ensures FaultOk(s, e) && ForkOk(s.envs, e) {
      assert Free(s, e);
    }
  }

  /** Copy-on-write fork refines eager copying: in every interleaving of the accesses, faults and
      forks of all environments, each of them sees exactly what it would if every one had memory of
      its own and fork had copied page by page. */
  lemma {:induction false} ForkRefinesEagerCopy(ss: seq<State>, ls: seq<Step>, n: nat)
    requires IsRun(ss, ls) && Quiet(ss[0]) && n <= |ls|
    ensures Inv(ss[n]) && View(ss[n]) == EagerRun(View(ss[0]), ss, ls, n)
  {
    hide Enabled, Next, View, Apply, Meaning;
    if n == 0 {
      QuietInv(ss[0]);
    } else {
      ForkRefinesEagerCopy(ss, ls, n - 1);
      hide Inv;
      StepRefines(ss[n - 1], ls[n - 1]);
    }
  }

  /** The invariant it rests on: what an environment outside fork and pgfault may write to is mapped
      nowhere else. */
  lemma WritableUnshared(ss: seq<State>, ls: seq<Step>, n: nat, e: nat, pn: nat, e': nat, pn': nat)
    requires IsRun(ss, ls) && Quiet(ss[0]) && n <= |ls| && Free(ss[n], e)
    requires Page(ss[n].envs, e, pn).Some? && Page(ss[n].envs, e, pn).value.w
    ensures Frame(ss[n].envs, e', pn') == Frame(ss[n].envs, e, pn) <==> e' == e && pn' == pn
  {
    ForkRefinesEagerCopy(ss, ls, n);
    hide IsRun, Quiet;
    WritableAlone(ss[n], e, pn, e', pn');
  }

  lemma WritableAlone(s: State, e: nat, pn: nat, e': nat, pn': nat)
    requires Inv(s) && Free(s, e) && Page(s.envs, e, pn).Some? && Page(s.envs, e, pn).value.w
    ensures Frame(s.envs, e', pn') == Frame(s.envs, e, pn) <==> e' == e && pn' == pn
  {
    hide FaultOk, ForkOk, FramesOk;
    assert Exclusive(s.envs);
  }

  // ------------------------------------------------------------------
  // What the child gets.
  // ------------------------------------------------------------------

  /** Environment e forks c, and page v of e still holds o; so does page v of c, once it is there. */
  ghost predicate Snapshot(s: State, e: nat, c: nat, v: nat, o: Option<OwnPage>) {
    && Runs(s, e) && !s.envs[e].fork.NotForking? && s.envs[e].fork.child == c
    && Sees(s, e, v) == o && (Sees(s, c, v).Some? ==> Sees(s, c, v) == o)
  }

  /** The step ends the fork or the parent, or writes page v of it. */
  predicate Disturbs(l: Step, e: nat, v: nat) {
    l.e == e && (l.ForkRun? || l.Die? || (l.Write? && l.pn == v))
  }

  predicate Targets(op: Op, e: nat, v: nat) {
    match op
    case Skip => false
    case Set(e', v', _, _) => e' == e && v' == v
    case New(e') => e' == e
    case Alloc(e', v', _) => e' == e && v' == v
    case Unmap(e', v') => e' == e && v' == v
    case Copy(_, c, v') => c == e && v' == v
    case Exit(e') => e' == e
    case CopyExit(e', c, v') => e' == e || (c == e && v' == v)
  }

  lemma Untargeted(m: Eager, op: Op, e: nat, v: nat)
    requires !Targets(op, e, v)
    ensures Own(Apply(m, op), e, v) == Own(m, e, v)
  {
  }

  lemma CopyOwn(m: Eager, e: nat, c: nat, v: nat)
    ensures Own(CopyPage(m, e, c, v), c, v) == if Own(m, e, v).Some? && c in m then Own(m, e, v) else Own(m, c, v)
  {
  }

  /** During a fork, only its own copy of a page changes that page of the child. */
  lemma ForkTargets(s: State, l: Step, e: nat, c: nat, v: nat)
    requires Inv(s) && Enabled(s, l) && !Disturbs(l, e, v) && v < TOP
    requires Runs(s, e) && !s.envs[e].fork.NotForking? && s.envs[e].fork.child == c
    ensures c in s.envs && s.envs[c].parent == Some(e) && c != e
    ensures !Targets(Meaning(s, l), e, v) && (Targets(Meaning(s, l), c, v) ==> Meaning(s, l) == Copy(e, c, v))
    ensures Runs(Next(s, l), e) && !Next(s, l).envs[e].fork.NotForking? && Next(s, l).envs[e].fork.child == c
  {
    assert ForkOk(s.envs, e) && ForkOk(s.envs, l.e);
    hide FaultOk, Exclusive, FramesOk, Pending, Duplicated, Unmapped;
  }

  lemma SnapshotStep(s: State, l: Step, e: nat, c: nat, v: nat, o: Option<OwnPage>)
    requires Inv(s) && Enabled(s, l) && Snapshot(s, e, c, v, o) && !Disturbs(l, e, v) && v < TOP
    ensures Snapshot(Next(s, l), e, c, v, o)
  {
    hide Enabled, Next, View, Inv, Own, Sees, Meaning, CopyPage;
    StepRefines(s, l);
    ViewOwn(s);
    ViewOwn(Next(s, l));
    ForkTargets(s, l, e, c, v);
    Untargeted(View(s), Meaning(s, l), e, v);
    if Targets(Meaning(s, l), c, v) {
      CopyOwn(View(s), e, c, v);
    } else {
      Untargeted(View(s), Meaning(s, l), c, v);
    }
    assert Sees(s, e, v) == Own(View(s), e, v) && Sees(s, c, v) == Own(View(s), c, v);
    assert Sees(Next(s, l), e, v) == Own(View(Next(s, l)), e, v);
    assert Sees(Next(s, l), c, v) == Own(View(Next(s, l)), c, v);
  }

  lemma {:induction false} SnapshotRun(ss: seq<State>, ls: seq<Step>, a: nat, b: nat, e: nat, c: nat, v: nat)
    requires IsRun(ss, ls) && a < b <= |ls| && Inv(ss[a]) && ls[a] == Exofork(e, c) && v < TOP
    requires forall i: nat | a < i < b :: !Disturbs(ls[i], e, v)
    ensures Inv(ss[b]) && Snapshot(ss[b], e, c, v, Sees(ss[a], e, v))
  {
    hide Enabled, Next, View, Inv, Own, Meaning, Snapshot;
    StepRefines(ss[b - 1], ls[b - 1]) by { if b > a + 1 { SnapshotRun(ss, ls, a, b - 1, e, c, v); } }
    if b == a + 1 {
      ExoforkSnapshot(ss[a], e, c, v);
    } else {
      SnapshotRun(ss, ls, a, b - 1, e, c, v);
      SnapshotStep(ss[b - 1], ls[b - 1], e, c, v, Sees(ss[a], e, v));
    }
  }

  lemma ExoforkSnapshot(s: State, e: nat, c: nat, v: nat)
    requires Inv(s) && Enabled(s, Exofork(e, c))
    ensures Snapshot(Next(s, Exofork(e, c)), e, c, v, Sees(s, e, v))
  {
    var s' := Next(s, Exofork(e, c));
    assert Page(s'.envs, e, v) == Page(s.envs, e, v);
    RunsNotPending(s, e, v);
    RunsNotPending(s', e, v);
  }

  /** When a fork is done, whatever the other environments did meanwhile, the child has exactly the
      pages that its parent had below the stack top, and every page that the parent did not write
      meanwhile is as it was when the fork began, writable if it was. */
  lemma ChildIsCopy(ss: seq<State>, ls: seq<Step>, a: nat, b: nat, e: nat, c: nat, v: nat)
    requires IsRun(ss, ls) && a < b <= |ls| && Inv(ss[a]) && ls[a] == Exofork(e, c) && v < TOP
    requires forall i: nat | a < i < b :: !Disturbs(ls[i], e, v)
    requires e in ss[b].envs && ss[b].envs[e].fork.Ready?
    ensures Sees(ss[b], c, v) == Sees(ss[a], e, v)
  {
    SnapshotRun(ss, ls, a, b, e, c, v);
    var s := ss[b];
    assert ForkOk(s.envs, e);
    NotPending(s, e, c, v);
    RunsNotPending(s, e, v);
    hide IsRun;
    assert FramesOk(s);
    assert Page(s.envs, e, v).Some? ==> Frame(s.envs, e, v).Some?;
    assert Page(s.envs, c, v).Some? ==> Frame(s.envs, c, v).Some?;
    assert Page(s.envs, c, v).Some? <==> v != TEMP && Page(s.envs, e, v).Some?;
  }

  /** The last step of fork lets the child run, and both of them are done with fork; no page changes. */
  lemma ForkRunStarts(s: State, e: nat)
    requires Inv(s) && Enabled(s, ForkRun(e))
    ensures var s', c := Next(s, ForkRun(e)), s.envs[e].fork.child;
            && c != e && Free(s', e) && Free(s', c) && s'.frames == s.frames && s'.envs.Keys == s.envs.Keys
            && forall x: nat, v: nat :: Page(s'.envs, x, v) == Page(s.envs, x, v)
  {
    assert ForkOk(s.envs, e);
    hide FramesOk, Exclusive, FaultOk;
  }

  /** The parent moves on from page v, or writes it. */
  predicate Interferes(l: Step, e: nat, v: nat) {
    Disturbs(l, e, v) || (l.e == e && l.DupSecond?)
  }

  lemma HalfwayStep(s: State, l: Step, e: nat, c: nat, v: nat)
    requires Inv(s) && Enabled(s, l) && !Interferes(l, e, v) && Runs(s, e) && s.envs[e].fork == Halfway(c, v)
    ensures Runs(Next(s, l), e) && Next(s, l).envs[e].fork == Halfway(c, v)
  {
    assert ForkOk(s.envs, l.e);
    hide FaultOk, Exclusive, FramesOk, Pending, Duplicated, Unmapped;
  }

  lemma {:induction false} HalfwayRun(ss: seq<State>, ls: seq<Step>, a: nat, b: nat, e: nat, c: nat, v: nat)
    requires IsRun(ss, ls) && a < b <= |ls| && Inv(ss[a]) && v < TOP
    requires ls[a] == DupFirst(e) && ss[a].envs[e].fork == AtPage(c, v) && Page(ss[a].envs, e, v).Some?
    requires ss[a].envs[e].pages[v].w || ss[a].envs[e].pages[v].cow
    requires forall i: nat | a < i < b :: !Interferes(ls[i], e, v)
    ensures Inv(ss[b]) && Runs(ss[b], e) && ss[b].envs[e].fork == Halfway(c, v)
    ensures Snapshot(ss[b], e, c, v, Sees(ss[a], e, v))
  {
    hide View, Inv, Own, Meaning, Snapshot, Unmapped;
    if b == a + 1 {
      StepRefines(ss[a], ls[a]);
      hide Next;
      ShareSnapshot(ss[a], e, c, v);
    } else {
      HalfwayRun(ss, ls, a, b - 1, e, c, v);
      hide Next, Enabled;
      StepRefines(ss[b - 1], ls[b - 1]);
      HalfwayStep(ss[b - 1], ls[b - 1], e, c, v);
      SnapshotStep(ss[b - 1], ls[b - 1], e, c, v, Sees(ss[a], e, v));
    }
  }

  lemma ShareSnapshot(s: State, e: nat, c: nat, v: nat)
    requires Inv(s) && Enabled(s, DupFirst(e)) && s.envs[e].fork == AtPage(c, v) && Page(s.envs, e, v).Some? && v < TOP
    requires s.envs[e].pages[v].w || s.envs[e].pages[v].cow
    ensures var s' := Next(s, DupFirst(e));
            && s' == Share(s, e, c, v, true) && Runs(s', e) && s'.envs[e].fork == Halfway(c, v)
            && Snapshot(s', e, c, v, Sees(s, e, v))
  {
    ShareSetting(s, e);
    hide FaultOk, ForkOk, Exclusive, Duplicated;
    var s' := Next(s, DupFirst(e));
    assert s' == Share(s, e, c, v, true);
    assert Page(s'.envs, e, v) == Page(s.envs, e, v);
    RunsNotPending(s, e, v);
    RunsNotPending(s', e, v);
    FrameExists(s, e, v);
    if s.envs[e].pages[v].w {
      assert Pending(s'.envs, c, v);
    }
  }

  /** If the parent does not write a page between duppage's two maps of it, its second map is the
      eager copy of the page as it is then. */
  lemma CopiedAtCompletion(ss: seq<State>, ls: seq<Step>, a: nat, b: nat, e: nat, c: nat, v: nat)
    requires IsRun(ss, ls) && a < b < |ls| && Inv(ss[a]) && v < TOP
    requires ls[a] == DupFirst(e) && ss[a].envs[e].fork == AtPage(c, v) && Page(ss[a].envs, e, v).Some?
    requires ss[a].envs[e].pages[v].w || ss[a].envs[e].pages[v].cow
    requires ls[b] == DupSecond(e) && forall i: nat | a < i < b :: !Interferes(ls[i], e, v)
    ensures View(ss[b + 1]) == CopyPage(View(ss[b]), e, c, v)
  {
    HalfwayRun(ss, ls, a, b, e, c, v);
    hide IsRun, View, FaultOk, Exclusive, Unmapped, CopyPage;
    var s := ss[b];
    ProtectStep(s, e);
    if !Pending(s.envs, c, v) {
      assert ForkOk(s.envs, e);
      FrameExists(s, e, v);
      FrameExists(s, c, v);
      assert Sees(s, c, v).Some? && Sees(s, e, v) == Sees(s, c, v);
      CopyNothing(s, e, c, v);
    }
  }

  lemma CopyNothing(s: State, e: nat, c: nat, v: nat)
    requires Sees(s, c, v).Some? && Sees(s, e, v) == Sees(s, c, v)
    ensures CopyPage(View(s), e, c, v) == View(s)
  {
    ViewOwn(s);
    CopyIsSet(s, e, c, v);
    OwnSet(View(s), c, v, Sees(s, e, v).value);
    hide View, Sees, SetOwn, Own, CopyPage;
    SameMemory(SetOwn(View(s), c, v, Sees(s, e, v).value), View(s));
  }
}
