/** The user page fault frame: page_fault_handler (kern/trap.c) pushes it, and _pgfault_upcall
    (lib/pfentry.S) unwinds it, with faults inside the handler, and inside the unwinding itself, on the
    same stack.  Addresses are those of aligned 32-bit words. */
module Upcall {
  import opened Mmu

  const PAGE_BOTTOM := UXSTACKTOP - PGSIZE

  // Offsets in the 52 bytes of struct UTrapframe.
  const UTF_SIZE := 52
  const UTF_EIP := 0x28
  const UTF_EFLAGS := 0x2C
  const UTF_ESP := 0x30

  datatype Regs = Regs(edi: int, esi: int, ebp: int, ebx: int, edx: int, ecx: int, eax: int, eip: int, eflags: int,
                       esp: int)

  type Mem = map<int, int>

  /** One page fault and all that happens until its upcall returns: what the C handler does, what it
      leaves in the registers that C functions may change, and the faults taken by the one instruction
      of the upcall that writes to another stack, which is executed again after each. */
  datatype Trap = Trap(va: int, err: int, upcall: int, handler: Acts, eax: int, ecx: int, edx: int, eflags: int,
                       again: Traps)

  datatype Traps = NoMore | Again(first: Trap, rest: Traps)

  /** What a handler does: storing words, and faulting with given registers. */
  datatype Acts = Done | Put(a: int, x: int, rest: Acts) | Fault(r: Regs, t: Trap, more: Acts)

  function Read(m: Mem, a: int): int {
    if a in m then m[a] else 0
  }

  predicate OnExceptionStack(esp: int) {
    PAGE_BOTTOM <= esp <= UXSTACKTOP - 1
  }

  /** Which of two pages the environment may write: the exception page, and the page below it, which the
      memory map leaves to programs and set_pgfault_handler does not map. */
  datatype Pages = Pages(stack: bool, guard: bool)

  predicate Writable(w: Pages, a: int) {
    if PAGE_BOTTOM <= a < UXSTACKTOP then w.stack else PAGE_BOTTOM - PGSIZE <= a < PAGE_BOTTOM && w.guard
  }

  /** user_mem_assert of a frame: its first and last bytes say it for all pages it touches. */
  predicate FrameWritable(w: Pages, base: int) {
    Writable(w, base) && Writable(w, base + UTF_SIZE - 1)
  }

  /** The frame fits, and so do the two words that the upcall pushes; if only these do not, the fault
      they cause has a frame that does not fit. */
  predicate Fits(w: Pages, base: int) {
    FrameWritable(w, base) && Writable(w, base - 4) && Writable(w, base - 8)
  }

  /** How far down a handler's stack can reach. */
  function Floor(w: Pages): int {
    if w.guard then PAGE_BOTTOM - PGSIZE else PAGE_BOTTOM
  }

  /** Where page_fault_handler puts the frame. */
  function FrameAt(esp: int): int {
    if OnExceptionStack(esp) then esp - UTF_SIZE - 4 else UXSTACKTOP - UTF_SIZE
  }

  /** The frame, as a struct UTrapframe. */
  function Pushed(m: Mem, base: int, r: Regs, va: int, err: int): Mem {
    m[base := va][base + 4 := err]
    [base + 8 := r.edi][base + 12 := r.esi][base + 16 := r.ebp][base + 20 := r.esp]
    [base + 24 := r.ebx][base + 28 := r.edx][base + 32 := r.ecx][base + 36 := r.eax]
    [base + UTF_EIP := r.eip][base + UTF_EFLAGS := r.eflags][base + UTF_ESP := r.esp]
  }

  /** The return address that `call` pushes, and the flags that arithmetic leaves; their values do not
      matter. */
  const RETURN := 0x80_0025

  function FlagsOf(x: int): int {
    x
  }

  /** The upcall up to its store to the trap-time stack: memory and registers. */
  function Unwinding(m: Mem, base: int, r: Regs, t: Trap): (Mem, Regs) {
    var m1 := m[base + UTF_ESP := Read(m, base + UTF_ESP) - 4];
    (m1, r.(eax := Read(m, base + UTF_EIP), ebp := Read(m1, base + UTF_ESP), ecx := t.ecx, edx := t.edx,
            eflags := FlagsOf(Read(m1, base + UTF_ESP)), eip := t.upcall, esp := base))
  }

  /** The upcall from that store on. */
  function Unwound(m0: Mem, r: Regs): (Mem, Regs) {
    var m := m0[r.ebp := r.eax];
    var base := r.esp;
    var esp := Read(m, base + UTF_ESP);
    (m, Regs(Read(m, base + 8), Read(m, base + 12), Read(m, base + 16), Read(m, base + 24), Read(m, base + 28),
             Read(m, base + 32), Read(m, base + 36), Read(m, esp), Read(m, base + UTF_EFLAGS),
             (esp + 4) % 0x1_0000_0000))
  }

  /** From a fault to the return of its upcall; None if the environment is destroyed on the way. */
  function Take(w: Pages, m: Mem, r: Regs, t: Trap): Option<(Mem, Regs)>
    decreases t
  {
    var base := FrameAt(r.esp);
    if !Fits(w, base) then None else
    var m1 := Pushed(m, base, r, t.va, t.err);
    match Handle(w, m1[base - 4 := base][base - 8 := RETURN], t.handler)
    case None => None
    case Some(m2) =>
      var (m3, r3) := Unwinding(m2, base, r, t);
      match Retry(w, m3, r3, t.again)
      case None => None
      case Some((m4, r4)) => Some(Unwound(m4, r4))
  }

  function Handle(w: Pages, m: Mem, acts: Acts): Option<Mem>
    decreases acts
  {
    match acts
    case Done => Some(m)
    case Put(a, x, rest) => Handle(w, m[a := x], rest)
    case Fault(r, t, more) =>
      match Take(w, m, r, t)
      case None => None
      case Some((m1, _)) => Handle(w, m1, more)
  }

  function Retry(w: Pages, m: Mem, r: Regs, ts: Traps): Option<(Mem, Regs)>
    decreases ts
  {
    match ts
    case NoMore => Some((m, r))
    case Again(t, rest) =>
      match Take(w, m, r, t)
      case None => None
      case Some((m1, r1)) => Retry(w, m1, r1, rest)
  }

  /** Memory holds at `base` the struct UTrapframe of a fault and of the registers that it happened with. */
  ghost predicate Described(m1: Mem, base: int, r: Regs, va: int, err: int) {
    && Read(m1, base) == va && Read(m1, base + 4) == err
    && Read(m1, base + 8) == r.edi && Read(m1, base + 12) == r.esi && Read(m1, base + 16) == r.ebp
    && Read(m1, base + 20) == r.esp && Read(m1, base + 24) == r.ebx && Read(m1, base + 28) == r.edx
    && Read(m1, base + 32) == r.ecx && Read(m1, base + 36) == r.eax
    && Read(m1, base + 40) == r.eip && Read(m1, base + 44) == r.eflags && Read(m1, base + 48) == r.esp
  }

  lemma PushedDescribes(m: Mem, base: int, r: Regs, va: int, err: int)
    ensures Described(Pushed(m, base, r, va, err), base, r, va, err)
    ensures forall a: int | !(base <= a < base + 52) :: Read(Pushed(m, base, r, va, err), a) == Read(m, a)
  {
  }

  /** When the C handler starts, it is called with the frame's address, and the frame says where and why
      the fault was; nothing else in memory has changed. */
  lemma HandlerFinds(w: Pages, m: Mem, r: Regs, t: Trap) returns (m1: Mem)
    requires Fits(w, FrameAt(r.esp))
    ensures var base := if 0xEEBF_F000 <= r.esp < 0xEEC0_0000 then r.esp - 56 else 0xEEC0_0000 - 52;
            && Described(m1, base, r, t.va, t.err)
            && Read(m1, base - 4) == base && Read(m1, base - 8) == RETURN
            && (forall a: int | a !in {base, base + 4, base + 8, base + 12, base + 16, base + 20, base + 24, base + 28,
                                       base + 32, base + 36, base + 40, base + 44, base + 48, base - 4, base - 8} ::
                  Read(m1, a) == Read(m, a))
            && Take(w, m, r, t) ==
               match Handle(w, m1, t.handler)
               case None => None
               case Some(m2) =>
                 var (m3, r3) := Unwinding(m2, base, r, t);
                 match Retry(w, m3, r3, t.again)
                 case None => None
                 case Some((m4, r4)) => Some(Unwound(m4, r4))
  {
    var base := FrameAt(r.esp);
    m1 := Pushed(m, base, r, t.va, t.err)[base - 4 := base][base - 8 := RETURN];
    hide Handle, Retry, Unwinding, Unwound;
  }

  // ------------------------------------------------------------------
  // What is asked of handlers.
  // ------------------------------------------------------------------

  /** A handler whose frame is at `base` leaves the frame and everything above it on the exception
      stack alone, and its own stack is below. */
  predicate Polite(w: Pages, acts: Acts, base: int) {
    match acts
    case Done => true
    case Put(a, x, rest) => !(base - 8 <= a < UXSTACKTOP) && Polite(w, rest, base)
    case Fault(r, t, more) =>
      Floor(w) <= r.esp <= base - 8 && StackOk(r) && PoliteTrap(w, t, FrameAt(r.esp)) && Polite(w, more, base)
  }

  predicate PoliteTrap(w: Pages, t: Trap, base: int) {
    0 <= t.upcall < 0x1_0000_0000 && Polite(w, t.handler, base) && PoliteAgain(w, t.again, base)
  }

  predicate PoliteAgain(w: Pages, ts: Traps, base: int) {
    match ts
    case NoMore => true
    case Again(t, rest) => PoliteTrap(w, t, base - UTF_SIZE - 4) && PoliteAgain(w, rest, base)
  }

  /** The addresses that handlers store to. */
  function Stores(acts: Acts): set<int> {
    match acts
    case Done => {}
    case Put(a, x, rest) => {a} + Stores(rest)
    case Fault(r, t, more) => TrapStores(t) + Stores(more)
  }

  function TrapStores(t: Trap): set<int> {
    Stores(t.handler) + AgainStores(t.again)
  }

  function AgainStores(ts: Traps): set<int> {
    match ts
    case NoMore => {}
    case Again(t, rest) => TrapStores(t) + AgainStores(rest)
  }

  /** Memory is the same but for the words in `stores` and the exception stack below `limit`. */
  ghost predicate Kept(m: Mem, m': Mem, stores: set<int>, limit: int) {
    forall a: int | a !in stores && !(PAGE_BOTTOM <= a < limit) :: Read(m', a) == Read(m, a)
  }

  /** The trap-time registers that the upcall can restore: it writes one word below trap-time esp, and
      if that is the top of the exception stack, the word is part of the frame. */
  predicate Restorable(r: Regs) {
    r.esp != UXSTACKTOP || r.eip == UXSTACKTOP - 4
  }

  predicate StackOk(r: Regs) {
    4 <= r.esp <= UXSTACKTOP && r.esp % 4 == 0 && 0 <= r.eip < 0x1_0000_0000
  }

  /** Live frames are out of every handler's reach. */
  lemma {:induction false} StoresBelow(w: Pages, acts: Acts, base: int)
    requires Polite(w, acts, base) && base <= UXSTACKTOP - UTF_SIZE && !w.guard
    ensures forall a: int | a in Stores(acts) :: !(base - 8 <= a < UXSTACKTOP)
    decreases acts
  {
    match acts
    case Done =>
    case Put(a, x, rest) => StoresBelow(w, rest, base);
    case Fault(r, t, more) =>
      TrapStoresBelow(w, t, FrameAt(r.esp));
      StoresBelow(w, more, base);
  }

  lemma {:induction false} TrapStoresBelow(w: Pages, t: Trap, base: int)
    requires PoliteTrap(w, t, base) && base <= UXSTACKTOP - UTF_SIZE && !w.guard
    ensures forall a: int | a in TrapStores(t) :: !(base - 8 <= a < UXSTACKTOP)
    decreases t
  {
    StoresBelow(w, t.handler, base);
    AgainStoresBelow(w, t.again, base);
  }

  lemma {:induction false} AgainStoresBelow(w: Pages, ts: Traps, base: int)
    requires PoliteAgain(w, ts, base) && base <= UXSTACKTOP - UTF_SIZE && !w.guard
    ensures forall a: int | a in AgainStores(ts) :: !(base - 8 <= a < UXSTACKTOP)
    decreases ts
  {
    match ts
    case NoMore =>
    case Again(t, rest) =>
      TrapStoresBelow(w, t, base - UTF_SIZE - 4);
      AgainStoresBelow(w, rest, base);
  }

  // ------------------------------------------------------------------
  // The theorem.
  // ------------------------------------------------------------------

  /** What the frame holds for the upcall, which changes only utf_esp. */
  ghost predicate Frame(m: Mem, base: int, r: Regs) {
    && Read(m, base + 8) == r.edi && Read(m, base + 12) == r.esi && Read(m, base + 16) == r.ebp
    && Read(m, base + 24) == r.ebx && Read(m, base + 28) == r.edx && Read(m, base + 32) == r.ecx
    && Read(m, base + 36) == r.eax
    && Read(m, base + UTF_EIP) == r.eip && Read(m, base + UTF_EFLAGS) == r.eflags
  }

  lemma PushedFrame(m: Mem, base: int, r: Regs, va: int, err: int)
    ensures var m' := Pushed(m, base, r, va, err);
            && Frame(m', base, r) && Read(m', base + UTF_ESP) == r.esp
            && forall a: int | !(base <= a < base + UTF_SIZE) :: Read(m', a) == Read(m, a)
  {
  }

  /** A handler leaves live frames as they are. */
  lemma {:induction false} HandleKeeps(w: Pages, m: Mem, acts: Acts, base: int)
    requires Polite(w, acts, base) && PAGE_BOTTOM <= base <= UXSTACKTOP - UTF_SIZE && base % 4 == 0 && !w.guard
    requires Handle(w, m, acts).Some?
    ensures Kept(m, Handle(w, m, acts).value, Stores(acts), base - 8)
    decreases acts
  {
    match acts
    case Done =>
    case Put(a, x, rest) => HandleKeeps(w, m[a := x], rest, base);
    case Fault(r, t, more) =>
      TakeRestores(w, m, r, t);
      var (m1, _) := Take(w, m, r, t).value;
      HandleKeeps(w, m1, more, base);
  }

  /** The faults of the upcall itself are transparent. */
  lemma {:induction false} RetryKeeps(w: Pages, m: Mem, r: Regs, ts: Traps)
    requires PoliteAgain(w, ts, r.esp) && PAGE_BOTTOM <= r.esp <= UXSTACKTOP - UTF_SIZE && StackOk(r) && !w.guard
    requires Retry(w, m, r, ts).Some?
    ensures var (m', r') := Retry(w, m, r, ts).value;
            r' == r && Kept(m, m', AgainStores(ts), r.esp)
    decreases ts
  {
    match ts
    case NoMore =>
    case Again(t, rest) =>
      TakeRestores(w, m, r, t);
      RetryKeeps(w, Take(w, m, r, t).value.0, r, rest);
  }

  /** A fault's upcall restores all registers exactly when they are restorable, and writes outside
      its own frame only the word below trap-time esp, however deep the faults in between nest: live
      outer frames are never touched. */
  lemma {:induction false} TakeRestores(w: Pages, m: Mem, r: Regs, t: Trap)
    requires StackOk(r) && PoliteTrap(w, t, FrameAt(r.esp)) && !w.guard && Take(w, m, r, t).Some?
    ensures var (m', r') := Take(w, m, r, t).value;
            && (r' == r <==> Restorable(r))
            && Kept(m, m', TrapStores(t) + {r.esp - 4}, FrameAt(r.esp) + UTF_SIZE)
    decreases t, 1
  {
    hide Pushed, Stores, AgainStores, Depth, Frame, Kept;
    var base := FrameAt(r.esp);
    assert base >= PAGE_BOTTOM + 8;
    AfterHandler(w, m, r, t);
    hide Fits;
    var m1 := Pushed(m, base, r, t.va, t.err)[base - 4 := base][base - 8 := RETURN];
    var (m3, r3) := Unwinding(Handle(w, m1, t.handler).value, base, r, t);
    hide Unwinding, Handle;
    RetryKeeps(w, m3, r3, t.again);
    AgainStoresBelow(w, t.again, base);
    var m4 := Retry(w, m3, r3, t.again).value.0;
    FrameStays(m3, m4, base, r, AgainStores(t.again));
    UnwoundRestores(m4, r3, base, r);
    KeptThrough(m, m3, m4, Unwound(m4, r3).0, t, base, r.esp);
    hide Unwound;
  }

  lemma KeptThrough(m: Mem, m3: Mem, m4: Mem, m5: Mem, t: Trap, base: int, esp: int)
    requires Kept(m, m3, Stores(t.handler), base + UTF_SIZE) && Kept(m3, m4, AgainStores(t.again), base)
    requires forall a: int | a != esp - 4 :: Read(m5, a) == Read(m4, a)
    ensures Kept(m, m5, TrapStores(t) + {esp - 4}, base + UTF_SIZE)
  {
  }

  /** The fault as far as the store to the trap-time stack. */
  lemma {:induction false} AfterHandler(w: Pages, m: Mem, r: Regs, t: Trap)
    requires StackOk(r) && PoliteTrap(w, t, FrameAt(r.esp)) && !w.guard && PAGE_BOTTOM + 8 <= FrameAt(r.esp)
    requires var base := FrameAt(r.esp);
             Handle(w, Pushed(m, base, r, t.va, t.err)[base - 4 := base][base - 8 := RETURN], t.handler).Some?
    ensures var base := FrameAt(r.esp);
            var m1 := Pushed(m, base, r, t.va, t.err)[base - 4 := base][base - 8 := RETURN];
            var (m3, r3) := Unwinding(Handle(w, m1, t.handler).value, base, r, t);
            && Frame(m3, base, r) && Read(m3, base + UTF_ESP) == r.esp - 4
            && r3.ebp == r.esp - 4 && r3.eax == r.eip && r3.esp == base && r3.eip == t.upcall
            && Kept(m, m3, Stores(t.handler), base + UTF_SIZE)
    decreases t, 0
  {
    hide Pushed, Stores;
    var base := FrameAt(r.esp);
    var m1 := Pushed(m, base, r, t.va, t.err);
    PushedFrame(m, base, r, t.va, t.err);
    var m1' := m1[base - 4 := base][base - 8 := RETURN];
    HandleKeeps(w, m1', t.handler, base);
    StoresBelow(w, t.handler, base);
    hide Handle, Polite;
    FrameSurvives(m1, Handle(w, m1', t.handler).value, base, r, t, Stores(t.handler));
  }

  /** The frame after the handler, and after utf_esp is lowered. */
  lemma FrameSurvives(m1: Mem, m2: Mem, base: int, r: Regs, t: Trap, stores: set<int>)
    requires Frame(m1, base, r) && Read(m1, base + UTF_ESP) == r.esp && PAGE_BOTTOM <= base <= UXSTACKTOP - UTF_SIZE
    requires Kept(m1[base - 4 := base][base - 8 := RETURN], m2, stores, base - 8)
    requires forall a: int | a in stores :: !(base - 8 <= a < UXSTACKTOP)
    ensures var (m3, r3) := Unwinding(m2, base, r, t);
            && Frame(m3, base, r) && Read(m3, base + UTF_ESP) == r.esp - 4
            && r3.ebp == r.esp - 4 && r3.eax == r.eip && r3.esp == base && r3.eip == t.upcall
            && forall a: int | !(base <= a < base + UTF_SIZE) :: Read(m3, a) == Read(m2, a)
  {
    assert forall a: int | base <= a < base + UTF_SIZE :: Read(m2, a) == Read(m1, a);
  }

  lemma FrameStays(m: Mem, m': Mem, base: int, r: Regs, stores: set<int>)
    requires Frame(m, base, r) && Kept(m, m', stores, base) && PAGE_BOTTOM <= base <= UXSTACKTOP - UTF_SIZE
    requires forall a: int | a in stores :: !(base - 8 <= a < UXSTACKTOP)
    ensures Frame(m', base, r) && Read(m', base + UTF_ESP) == Read(m, base + UTF_ESP)
  {
    assert forall a: int | base <= a < base + UTF_SIZE :: Read(m', a) == Read(m, a);
  }

  lemma UnwoundRestores(m: Mem, r3: Regs, base: int, r: Regs)
    requires Frame(m, base, r) && Read(m, base + UTF_ESP) == r.esp - 4 && base == FrameAt(r.esp) && StackOk(r)
    requires r3.ebp == r.esp - 4 && r3.eax == r.eip && r3.esp == base
    ensures Unwound(m, r3).1 == r <==> Restorable(r)
    ensures forall a: int | a != r.esp - 4 :: Read(Unwound(m, r3).0, a) == Read(m, a)
  {
  }

  // ------------------------------------------------------------------
  // How deep faults can nest.
  // ------------------------------------------------------------------

  function Max(a: nat, b: nat): nat {
    if a < b then b else a
  }

  /** The number of frames on the exception stack when it is fullest. */
  function Depth(t: Trap): nat {
    1 + Max(HandlerDepth(t.handler), AgainDepth(t.again))
  }

  function HandlerDepth(acts: Acts): nat {
    match acts
    case Done => 0
    case Put(a, x, rest) => HandlerDepth(rest)
    case Fault(r, t, more) => Max(Depth(t), HandlerDepth(more))
  }

  function AgainDepth(ts: Traps): nat {
    match ts
    case NoMore => 0
    case Again(t, rest) => Max(Depth(t), AgainDepth(rest))
  }

  const MAX_FRAMES := 73

  /** An environment whose upcalls all return never had more than 73 frames on its exception stack. */
  lemma {:induction false} FramesFit(w: Pages, m: Mem, r: Regs, t: Trap)
    requires StackOk(r) && PoliteTrap(w, t, FrameAt(r.esp)) && !w.guard && Take(w, m, r, t).Some?
    ensures FrameAt(r.esp) - 56 * (Depth(t) - 1) - 8 >= PAGE_BOTTOM && Depth(t) <= MAX_FRAMES
    decreases t
  {
    hide Pushed, Unwound;
    var base := FrameAt(r.esp);
    var m1 := Pushed(m, base, r, t.va, t.err)[base - 4 := base][base - 8 := RETURN];
    HandlerFramesFit(w, m1, t.handler, base);
    var (m3, r3) := Unwinding(Handle(w, m1, t.handler).value, base, r, t);
    AgainFramesFit(w, m3, r3, t.again);
  }

  lemma {:induction false} HandlerFramesFit(w: Pages, m: Mem, acts: Acts, base: int)
    requires Polite(w, acts, base) && PAGE_BOTTOM + 8 <= base <= UXSTACKTOP - UTF_SIZE && !w.guard
    requires Handle(w, m, acts).Some?
    ensures base - 56 * HandlerDepth(acts) - 8 >= PAGE_BOTTOM
    decreases acts
  {
    match acts
    case Done =>
    case Put(a, x, rest) => HandlerFramesFit(w, m[a := x], rest, base);
    case Fault(r, t, more) =>
      FramesFit(w, m, r, t);
      HandlerFramesFit(w, Take(w, m, r, t).value.0, more, base);
  }

  lemma {:induction false} AgainFramesFit(w: Pages, m: Mem, r: Regs, ts: Traps)
    requires PoliteAgain(w, ts, r.esp) && PAGE_BOTTOM + 8 <= r.esp <= UXSTACKTOP - UTF_SIZE && StackOk(r) && !w.guard
    requires Retry(w, m, r, ts).Some?
    ensures r.esp - 56 * AgainDepth(ts) - 8 >= PAGE_BOTTOM
    decreases ts
  {
    match ts
    case NoMore =>
    case Again(t, rest) =>
      FramesFit(w, m, r, t);
      TakeRestores(w, m, r, t);
      AgainFramesFit(w, Take(w, m, r, t).value.0, r, rest);
  }

  /** n faults, each on the return of the one before. */
  function Tower(n: nat): Trap
    requires n > 0
  {
    Trap(0, 0, 0, Done, 0, 0, 0, 0, if n == 1 then NoMore else Again(Tower(n - 1), NoMore))
  }

  /** With the guard page unwritable the limit is reached, and passing it destroys the environment;
      with it writable there is no limit. */
  lemma {:induction false} TowerFits(w: Pages, m: Mem, r: Regs, n: nat)
    requires n > 0 && StackOk(r) && w.stack
    ensures Depth(Tower(n)) == n && PoliteTrap(w, Tower(n), FrameAt(r.esp))
    ensures !w.guard ==> (Take(w, m, r, Tower(n)).Some? <==> FrameAt(r.esp) - 56 * (n - 1) - 8 >= PAGE_BOTTOM)
    ensures !w.guard && !OnExceptionStack(r.esp) ==> (Take(w, m, r, Tower(n)).Some? <==> n <= MAX_FRAMES)
    ensures w.guard ==> Take(w, m, r, Tower(n)).Some?
    decreases n
  {
    hide Take, Depth, PoliteTrap, Unwinding, Pushed;
    var base := FrameAt(r.esp);
    TowerPolite(w, n, base);
    TowerUnfolds(w, m, r, n);
    if Fits(w, base) && n > 1 {
      var (m3, r3) := TowerRetry(m, r, n);
      TowerFits(w, m3, r3, n - 1);
    }
  }

  /** Where the second fault of a tower finds the machine. */
  function TowerRetry(m: Mem, r: Regs, n: nat): (Mem, Regs)
    requires n > 1
  {
    var base := FrameAt(r.esp);
    Unwinding(Pushed(m, base, r, 0, 0)[base - 4 := base][base - 8 := RETURN], base, r, Tower(n))
  }

  lemma TowerUnfolds(w: Pages, m: Mem, r: Regs, n: nat)
    requires n > 0 && StackOk(r) && w.stack
    ensures Fits(w, FrameAt(r.esp)) <==> w.guard || FrameAt(r.esp) - 8 >= PAGE_BOTTOM
    ensures n == 1 ==> (Take(w, m, r, Tower(n)).Some? <==> Fits(w, FrameAt(r.esp)))
    ensures n > 1 ==>
      var (m3, r3) := TowerRetry(m, r, n);
      && (Take(w, m, r, Tower(n)).Some? <==> Fits(w, FrameAt(r.esp)) && Take(w, m3, r3, Tower(n - 1)).Some?)
      && r3.esp == FrameAt(r.esp) && r3.eip == 0 && StackOk(r3)
      && (FrameAt(r.esp) >= PAGE_BOTTOM ==> OnExceptionStack(r3.esp))
  {
    hide Pushed, Unwinding, Unwound;
    var base, t := FrameAt(r.esp), Tower(n);
    var m1 := Pushed(m, base, r, 0, 0)[base - 4 := base][base - 8 := RETURN];
    assert Handle(w, m1, t.handler) == Some(m1);
    var (m3, r3) := Unwinding(m1, base, r, t);
    UnwindingEsp(m1, base, r, t);
    if n == 1 {
      assert Retry(w, m3, r3, t.again) == Some((m3, r3));
    } else {
      assert t.again == Again(Tower(n - 1), NoMore);
      hide Tower;
      assert Retry(w, m3, r3, t.again).Some? <==> Take(w, m3, r3, Tower(n - 1)).Some?;
    }
  }

  lemma UnwindingEsp(m: Mem, base: int, r: Regs, t: Trap)
    ensures Unwinding(m, base, r, t).1.esp == base && Unwinding(m, base, r, t).1.eip == t.upcall
  {
  }

  lemma {:induction false} TowerPolite(w: Pages, n: nat, base: int)
    requires n > 0
    ensures PoliteTrap(w, Tower(n), base) && Depth(Tower(n)) == n
  {
    if n > 1 {
      TowerPolite(w, n - 1, base - UTF_SIZE - 4);
    }
  }

  // ------------------------------------------------------------------
  // The guard page.
  // ------------------------------------------------------------------

  /** The frame of a fault taken at trap-time esp stands at its end, when `m` was the memory before and
      m4 is the memory at the last store of its upcall. */
  lemma TowerReturns(w: Pages, m: Mem, r: Regs, n: nat)
    requires n > 0 && StackOk(r) && Fits(w, FrameAt(r.esp))
    ensures n == 1 ==>
              var base := FrameAt(r.esp);
              Take(w, m, r, Tower(1)) ==
              Some(Unwound(Unwinding(Pushed(m, base, r, 0, 0)[base - 4 := base][base - 8 := RETURN], base, r,
                                     Tower(1)).0,
                           Unwinding(Pushed(m, base, r, 0, 0)[base - 4 := base][base - 8 := RETURN], base, r,
                                     Tower(1)).1))
    ensures n > 1 ==>
              var (m3, r3) := TowerRetry(m, r, n);
              forall m4: Mem, r4: Regs | Take(w, m3, r3, Tower(n - 1)) == Some((m4, r4)) ::
                Take(w, m, r, Tower(n)) == Some(Unwound(m4, r4))
  {
    hide Pushed, Unwinding, Unwound;
    var base, t := FrameAt(r.esp), Tower(n);
    var m1 := Pushed(m, base, r, 0, 0)[base - 4 := base][base - 8 := RETURN];
    assert Handle(w, m1, t.handler) == Some(m1);
    var (m3, r3) := Unwinding(m1, base, r, t);
    if n == 1 {
      assert Retry(w, m3, r3, t.again) == Some((m3, r3));
    } else {
      assert t.again == Again(Tower(n - 1), NoMore);
      hide Tower;
      forall m4: Mem, r4: Regs | Take(w, m3, r3, Tower(n - 1)) == Some((m4, r4))
        ensures Retry(w, m3, r3, t.again) == Some((m4, r4))
      {
        assert Retry(w, m4, r4, NoMore) == Some((m4, r4));
      }
    }
  }

  /** The frame of a fault of a tower, from its push to the faults on its return. */
  lemma TowerFrame(m: Mem, r: Regs, n: nat)
    requires n > 0 && StackOk(r)
    ensures var base := FrameAt(r.esp);
            var m1 := Pushed(m, base, r, 0, 0)[base - 4 := base][base - 8 := RETURN];
            var (m3, r3) := Unwinding(m1, base, r, Tower(n));
            && Frame(m3, base, r) && Read(m3, base + UTF_ESP) == r.esp - 4 && Read(m3, base - 8) == RETURN
            && r3.ebp == r.esp - 4 && r3.eax == r.eip && r3.esp == base && r3.eip == 0
            && forall a: int | !(base - 8 <= a < base + UTF_SIZE) :: Read(m3, a) == Read(m, a)
  {
    var base := FrameAt(r.esp);
    PushedFrame(m, base, r, 0, 0);
    hide Pushed;
  }

  /** The trap-time esp of the fault that has j frames below the outermost one above it. */
  function TowerEsp(j: nat): int {
    UXSTACKTOP - UTF_SIZE - 56 * j
  }

  // What a 75th nested fault leaves in two words of the exception page.
  const LOST_ESP := PAGE_BOTTOM - 48

  /** Faults nested up to 75 deep with the guard page writable: the inner ones are undone, but the last
      one has put its frame and its two pushed words at the top of the page. */
  lemma {:induction false} TowerWraps(w: Pages, m: Mem, r: Regs, j: nat)
    requires w.stack && w.guard && 1 <= j <= 73 && r.esp == TowerEsp(j) && 0 <= r.eip < 0x1_0000_0000
    ensures StackOk(r) && Take(w, m, r, Tower(74 - j)).Some?
    ensures var (m', r') := Take(w, m, r, Tower(74 - j)).value;
            && r' == r && Read(m', UXSTACKTOP - 60) == RETURN && Read(m', UXSTACKTOP - 4) == LOST_ESP
            && forall a: int | r.esp <= a < UXSTACKTOP - 60 :: Read(m', a) == Read(m, a)
    decreases 74 - j
  {
    hide Take, Pushed, Unwinding, Unwound, Frame;
    var base, n := FrameAt(r.esp), 74 - j;
    TowerFrame(m, r, n);
    TowerReturns(w, m, r, n);
    var (m3, r3) := Unwinding(Pushed(m, base, r, 0, 0)[base - 4 := base][base - 8 := RETURN], base, r, Tower(n));
    if j == 73 {
      UnwoundRestores(m3, r3, base, r);
    } else {
      assert base == TowerEsp(j + 1);
      TowerWraps(w, m3, r3, j + 1);
      var (m4, r4) := Take(w, m3, r3, Tower(n - 1)).value;
      FrameKept(m3, m4, base, r);
      UnwoundRestores(m4, r4, base, r);
    }
  }

  lemma FrameKept(m: Mem, m': Mem, base: int, r: Regs)
    requires Frame(m, base, r) && forall a: int | base <= a < base + UTF_SIZE :: Read(m', a) == Read(m, a)
    ensures Frame(m', base, r) && Read(m', base + UTF_ESP) == Read(m, base + UTF_ESP)
  {
  }

  /** The outermost two frames are lost: a fault of the first upcall does not come back to where it was,
      and the first frame's saved esp is overwritten. */
  lemma OuterFramesLost(w: Pages, m: Mem, r: Regs)
    requires w.stack && w.guard && r.esp == TowerEsp(0) && 0 <= r.eip < 0x1_0000_0000
    ensures StackOk(r) && Take(w, m, r, Tower(74)).Some?
    ensures var (m', r') := Take(w, m, r, Tower(74)).value;
            r'.esp == RETURN + 4 != r.esp && Read(m', UXSTACKTOP - 4) == LOST_ESP
  {
    hide Take, Pushed, Unwinding, Frame;
    var base := FrameAt(r.esp);
    TowerFrame(m, r, 74);
    TowerReturns(w, m, r, 74);
    var (m3, r3) := TowerRetry(m, r, 74);
    assert r3.esp == TowerEsp(1);
    TowerWraps(w, m3, r3, 1);
    var (m4, r4) := Take(w, m3, r3, Tower(73)).value;
    assert Take(w, m, r, Tower(74)) == Some(Unwound(m4, r4));
  }

  /** No environment that survives ever had more than 73 frames. */
  ghost predicate Bounded(w: Pages) {
    forall m: Mem, r: Regs, t: Trap | StackOk(r) && PoliteTrap(w, t, FrameAt(r.esp)) && Take(w, m, r, t).Some? ::
      Depth(t) <= MAX_FRAMES
  }

  /** A fault on the exception stack returns to where it was, with everything above untouched. */
  ghost predicate OuterFramesKept(w: Pages) {
    forall m: Mem, r: Regs, t: Trap |
      StackOk(r) && OnExceptionStack(r.esp) && PoliteTrap(w, t, FrameAt(r.esp)) && Take(w, m, r, t).Some? ::
      var (m', r') := Take(w, m, r, t).value;
      r' == r && forall a: int | r.esp <= a < UXSTACKTOP :: Read(m', a) == Read(m, a)
  }

  /** Both hold exactly if the page below the exception page cannot be written. */
  lemma GuardIff(w: Pages)
    requires w.stack
    ensures Bounded(w) <==> !w.guard
    ensures OuterFramesKept(w) <==> !w.guard
  {
    if w.guard {
      var r := Regs(0, 0, 0, 0, 0, 0, 0, 0, 0, TowerEsp(0));
      TowerFits(w, map[], r, 74);
      OuterFramesLost(w, map[], r);
      hide Take, PoliteTrap, Depth;
      assert !Bounded(w);
      assert !OuterFramesKept(w);
    } else {
      hide Take, PoliteTrap, Depth;
      forall m: Mem, r: Regs, t: Trap | StackOk(r) && PoliteTrap(w, t, FrameAt(r.esp)) && Take(w, m, r, t).Some?
        ensures Depth(t) <= MAX_FRAMES
        ensures OnExceptionStack(r.esp) ==>
                  var (m', r') := Take(w, m, r, t).value;
                  r' == r && forall a: int | r.esp <= a < UXSTACKTOP :: Read(m', a) == Read(m, a)
      {
        FramesFit(w, m, r, t);
        TakeRestores(w, m, r, t);
        TrapStoresBelow(w, t, FrameAt(r.esp));
      }
    }
  }

  /** What is asked of a handler's own stack pointer is needed: one that faults below the exception page,
      having moved esp past a page it cannot write, gets its frame at the top, over the first one. */
  lemma LowStackOverwrites(w: Pages, m: Mem, r: Regs, r1: Regs)
    requires w.stack && StackOk(r) && StackOk(r1) && !OnExceptionStack(r.esp) && !OnExceptionStack(r1.esp)
    requires r1.esp != UXSTACKTOP && r1.esp - 4 != r.esp && r1.esp > 8
    ensures var t := Trap(0, 0, 0, Fault(r1, Tower(1), Done), 0, 0, 0, 0, NoMore);
            Take(w, m, r, t).Some? && Take(w, m, r, t).value.1 != r
  {
    hide Take, Handle, Pushed, Unwinding, Unwound, Frame;
    var t := Trap(0, 0, 0, Fault(r1, Tower(1), Done), 0, 0, 0, 0, NoMore);
    var base := UXSTACKTOP - UTF_SIZE;
    var m1 := Pushed(m, base, r, 0, 0)[base - 4 := base][base - 8 := RETURN];
    TowerFrame(m1, r1, 1);
    var (m2, r2) := Unwinding(Pushed(m1, base, r1, 0, 0)[base - 4 := base][base - 8 := RETURN], base, r1, Tower(1));
    TowerReturns(w, m1, r1, 1);
    UnwoundRestores(m2, r2, base, r1);
    var m3 := Unwound(m2, r2).0;
    HandleOne(w, m1, r1, m3);
    HandlerOnly(w, m, r, t, m3);
    var (m4, r4) := Unwinding(m3, base, r, t);
    UnwindingLowers(m3, base, r, t);
    UnwoundEsp(m4, r4);
  }

  lemma UnwindingLowers(m: Mem, base: int, r: Regs, t: Trap)
    ensures var (m', r') := Unwinding(m, base, r, t);
            r'.esp == base && r'.ebp == Read(m', base + UTF_ESP) == Read(m, base + UTF_ESP) - 4
  {
  }

  lemma HandleOne(w: Pages, m: Mem, r: Regs, m': Mem)
    requires exists r': Regs :: Take(w, m, r, Tower(1)) == Some((m', r'))
    ensures Handle(w, m, Fault(r, Tower(1), Done)) == Some(m')
  {
    hide Take;
    assert Handle(w, m', Done) == Some(m');
  }

  lemma HandlerOnly(w: Pages, m: Mem, r: Regs, t: Trap, m2: Mem)
    requires Fits(w, FrameAt(r.esp)) && t.again == NoMore
    requires var base := FrameAt(r.esp);
             Handle(w, Pushed(m, base, r, t.va, t.err)[base - 4 := base][base - 8 := RETURN], t.handler) == Some(m2)
    ensures var (m3, r3) := Unwinding(m2, FrameAt(r.esp), r, t);
            Take(w, m, r, t) == Some(Unwound(m3, r3))
  {
    hide Pushed, Unwinding, Unwound, Handle;
  }

  lemma UnwoundEsp(m: Mem, r: Regs)
    requires r.ebp != r.esp + UTF_ESP
    ensures Unwound(m, r).1.esp == (Read(m, r.esp + UTF_ESP) + 4) % 0x1_0000_0000
  {
  }

  // ------------------------------------------------------------------
  // The instructions.
  // ------------------------------------------------------------------

  class Cpu {
    const w: Pages
    var r: Regs
    var mem: Mem

    constructor (w: Pages, r: Regs, mem: Mem)
      ensures this.w == w && this.r == r && this.mem == mem
    {
      this.w := w;
      this.r := r;
      this.mem := mem;
    }

    /** page_fault_handler, from its test of esp on: false if user_mem_assert destroyed the environment. */
    method PageFaultHandler(va: int, err: int, upcall: int) returns (ok: bool)
      modifies this
      ensures ok <==> FrameWritable(w, FrameAt(old(r.esp)))
      ensures ok ==> mem == Pushed(old(mem), FrameAt(old(r.esp)), old(r), va, err)
      ensures ok ==> r == old(r).(eip := upcall, esp := FrameAt(old(r.esp)))
      ensures r.esp == if !ok then old(r.esp) else
                       if 0xEEBF_F000 <= old(r.esp) < 0xEEC0_0000 then old(r.esp) - 56 else 0xEEC0_0000 - 52
      ensures ok ==> Described(mem, r.esp, old(r), va, err)
      ensures ok ==> forall a: int | !(r.esp <= a < r.esp + 52) :: Read(mem, a) == Read(old(mem), a)
    {
      hide FrameWritable, Writable;
      var utf := if PAGE_BOTTOM <= r.esp <= UXSTACKTOP - 1 then r.esp - UTF_SIZE - 4 else UXSTACKTOP - UTF_SIZE;
      ok := UserMemCheck(utf);
      if !ok { return; }
      StoreFrame(utf, va, err);
      PushedDescribes(old(mem), utf, r, va, err);
      hide Pushed, Described;
      r := r.(eip := upcall);
      r := r.(esp := utf);
      ok := true;
    }

    /** The assignments to *utf. */
    method StoreFrame(utf: int, va: int, err: int)
      modifies this`mem
      ensures mem == Pushed(old(mem), utf, r, va, err)
    {
      mem := mem[utf := va];
      mem := mem[utf + 4 := err];
      mem := mem[utf + 8 := r.edi][utf + 12 := r.esi][utf + 16 := r.ebp][utf + 20 := r.esp]
             [utf + 24 := r.ebx][utf + 28 := r.edx][utf + 32 := r.ecx][utf + 36 := r.eax];
      mem := mem[utf + UTF_EIP := r.eip];
      mem := mem[utf + UTF_EFLAGS := r.eflags];
      mem := mem[utf + UTF_ESP := r.esp];
    }

    /** The loop of user_mem_check over the pages of a frame. */
    method UserMemCheck(utf: int) returns (ok: bool)
      requires PAGE_BOTTOM - PGSIZE <= utf <= UXSTACKTOP - UTF_SIZE
      ensures ok <==> FrameWritable(w, utf)
    {
      var i := utf - utf % PGSIZE;
      while i < utf + UTF_SIZE
        invariant i % PGSIZE == 0 && utf - utf % PGSIZE <= i
        invariant forall a: int | utf <= a < utf + UTF_SIZE && a < i :: Writable(w, a)
      {
        if !Writable(w, i) { return false; }
        i := i + PGSIZE;
      }
      ok := true;
    }

    method PushWord(x: int)
      modifies this
      ensures r == old(r).(esp := old(r.esp) - 4) && mem == old(mem)[old(r.esp) - 4 := x]
    {
      r := r.(esp := r.esp - 4);
      mem := mem[r.esp := x];
    }

    method PopWord() returns (x: int)
      modifies this`r
      ensures x == Read(mem, old(r.esp)) && r == old(r).(esp := old(r.esp) + 4)
    {
      x := Read(mem, r.esp);
      r := r.(esp := r.esp + 4);
    }

    /** The C handler, as far as the exception stack is concerned. */
    method Handler(acts: Acts) returns (ok: bool)
      modifies this
      ensures ok <==> Handle(w, old(mem), acts).Some?
      ensures ok ==> mem == Handle(w, old(mem), acts).value
      decreases acts
    {
      match acts
      case Done => ok := true;
      case Put(a, x, rest) =>
        mem := mem[a := x];
        ok := Handler(rest);
      case Fault(r1, t, more) =>
        r := r1;
        ok := PageFault(t);
        if ok { ok := Handler(more); }
    }

    /** The faults of `movl %eax, (%ebp)`. */
    method StoreFaults(ts: Traps) returns (ok: bool)
      modifies this
      ensures ok <==> Retry(w, old(mem), old(r), ts).Some?
      ensures ok ==> (mem, r) == Retry(w, old(mem), old(r), ts).value
      decreases ts
    {
      match ts
      case NoMore => ok := true;
      case Again(t, rest) =>
        ok := PageFault(t);
        if ok { ok := StoreFaults(rest); }
    }

    /** A page fault, from the trap to the `ret` of _pgfault_upcall: false if the environment was
        destroyed on the way. */
    method PageFault(t: Trap) returns (ok: bool)
      modifies this
      ensures ok <==> Take(w, old(mem), old(r), t).Some?
      ensures ok ==> (mem, r) == Take(w, old(mem), old(r), t).value
      decreases t
    {
      hide Pushed, Handle, Retry, Unwound;
      var r0 := r;
      ok := PageFaultHandler(t.va, t.err, t.upcall);
      if !ok { return; }
      var base := r.esp;
      // The frame of a fault on one of the next two pushes would not fit.
      if !Writable(w, base - 4) || !Writable(w, base - 8) { return false; }
      PushWord(r.esp);
      PushWord(RETURN);
      ok := Handler(t.handler);
      if !ok { return; }
      // Back from the call, and addl $4, %esp.
      r := r0.(eax := t.eax, ecx := t.ecx, edx := t.edx, eflags := t.eflags, eip := t.upcall, esp := base);
      // movl 0x28(%esp), %eax; subl $4, 0x30(%esp); movl 0x30(%esp), %ebp.
      r := r.(eax := Read(mem, r.esp + UTF_EIP));
      mem := mem[r.esp + UTF_ESP := Read(mem, r.esp + UTF_ESP) - 4];
      r := r.(eflags := FlagsOf(Read(mem, r.esp + UTF_ESP)));
      r := r.(ebp := Read(mem, r.esp + UTF_ESP));
      // movl %eax, (%ebp).
      ok := StoreFaults(t.again);
      if !ok { return; }
      PopAll();
    }

    /** The rest of the upcall. */
    method PopAll()
      modifies this
      ensures (mem, r) == Unwound(old(mem), old(r))
    {
      mem := mem[r.ebp := r.eax];
      var x := PopWord();
      r := r.(eax := x);
      x := PopWord();
      r := r.(eax := x);
      // popal, which skips the saved esp.
      r := r.(edi := Read(mem, r.esp), esi := Read(mem, r.esp + 4), ebp := Read(mem, r.esp + 8),
              ebx := Read(mem, r.esp + 16), edx := Read(mem, r.esp + 20), ecx := Read(mem, r.esp + 24),
              eax := Read(mem, r.esp + 28), esp := r.esp + 32);
      // addl $4, %esp.
      r := r.(esp := r.esp + 4, eflags := FlagsOf(r.esp + 4));
      // popfl; popl %esp; ret.
      x := PopWord();
      r := r.(eflags := x);
      r := r.(esp := Read(mem, r.esp));
      r := r.(eip := Read(mem, r.esp), esp := (r.esp + 4) % 0x1_0000_0000);
    }
  }
}
