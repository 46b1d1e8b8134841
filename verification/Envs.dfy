/** Environments (kern/env.c, inc/env.h): their ids, the list of free slots, and the address space
    each of them owns. */
module Envs {
  import opened Mmu
  import opened Pmap
  import opened EnvVm

  const NENV := 1024
  const ENVGENSHIFT := 12

  // Error codes of inc/error.h, as system calls return them.
  const E_BAD_ENV := -2
  const E_INVAL := -3
  const E_NO_MEM := -4
  const E_NO_FREE_ENV := -5
  const E_IPC_NOT_RECV := -8

  datatype Status = Free | Dying | Runnable | Running | NotRunnable

  /** Saved registers: eax, which carries system call results, and all the others. */
  datatype Tf = Tf(eax: int, others: int)

  datatype Env = Env(id: int, parent: int, status: Status, pgdir: Option<Frame>, tf: Tf, upcall: Addr,
                     recving: bool, dstva: Addr, value: int, from: int, perm: Flags)

  /** Physical memory, `envs[]`, and env_free_list from its head. */
  datatype Kern = Kern(vm: State, envs: seq<Env>, free: seq<nat>)

  datatype Result = Done(n: int) | Error(code: int)

  // ------------------------------------------------------------------
  // Environment ids.
  // ------------------------------------------------------------------

  /** The value of x in a 32-bit two's complement word. */
  function Wrap32(x: int): int {
    (x + 0x8000_0000) % 0x1_0000_0000 - 0x8000_0000
  }

  /** The id env_alloc gives slot `slot` when its last id was `id`. */
  function NextId(id: int, slot: nat): int {
    var sum := Wrap32(id + 0x1000);
    var generation := sum - sum % NENV;
    (if generation <= 0 then 0x1000 else generation) + slot
  }

  /** ENVX. */
  function EnvX(id: int): (i: nat)
    ensures i < NENV
  {
    id % NENV
  }

  /** The id of slot `slot` after n allocations of it. */
  function IdAfter(n: nat, slot: nat): int {
    if n == 0 then 0 else NextId(IdAfter(n - 1, slot), slot)
  }

  const GENERATIONS := 0x7FFFF

  lemma {:induction false} IdClosedForm(n: nat, slot: nat)
    requires n > 0 && slot < NENV
    ensures IdAfter(n, slot) == ((n - 1) % GENERATIONS + 1) * 0x1000 + slot
  {
    if n > 1 {
      IdClosedForm(n - 1, slot);
      var g := (n - 2) % GENERATIONS + 1;
      assert (n - 1) % GENERATIONS == if g == GENERATIONS then 0 else g by {
        var q := (n - 2) / GENERATIONS;
        assert n - 2 == q * GENERATIONS + (g - 1);
        assert g == GENERATIONS ==> n - 1 == (q + 1) * GENERATIONS;
        ModStep(n - 2);
      }
      NextIdForm(g, slot);
    }
  }

  lemma ModStep(x: nat)
    ensures (x + 1) % GENERATIONS == if x % GENERATIONS == GENERATIONS - 1 then 0 else x % GENERATIONS + 1
  {
  }

  /** A multiple of NENV plus a slot. */
  lemma SlotPart(q: int, slot: nat)
    requires slot < NENV
    ensures (q * NENV + slot) % NENV == slot
  {
  }

  /** Wrap32 takes one wrap off a sum that is one too large. */
  lemma WrapOnce(x: int)
    requires 0 <= x < 0x1_8000_0000
    ensures Wrap32(x) == if x < 0x8000_0000 then x else x - 0x1_0000_0000
  {
  }

  lemma NextIdForm(g: nat, slot: nat)
    requires 0 < g <= GENERATIONS && slot < NENV
    ensures NextId(g * 0x1000 + slot, slot) == (if g == GENERATIONS then 1 else g + 1) * 0x1000 + slot
  {
    var id := g * 0x1000 + slot;
    WrapOnce(id + 0x1000);
    var sum := Wrap32(id + 0x1000);
    hide Wrap32;
    if g == GENERATIONS {
      SlotPart(-0x20_0000, slot);
      assert sum == -0x20_0000 * NENV + slot;
    } else {
      SlotPart((g + 1) * 4, slot);
      assert sum == (g + 1) * 4 * NENV + slot;
    }
  }

  /** An id is positive and names its slot; no slot repeats an id within 2^19 - 1 allocations, and
      after exactly so many it does. */
  lemma IdsFresh(m: nat, n: nat, slot: nat)
    requires 0 < m < n && slot < NENV
    ensures 0 < IdAfter(m, slot) < 0x8000_0000 && EnvX(IdAfter(m, slot)) == slot
    ensures n - m < GENERATIONS ==> IdAfter(m, slot) != IdAfter(n, slot)
    ensures n - m == GENERATIONS ==> IdAfter(m, slot) == IdAfter(n, slot)
  {
    hide IdAfter, EnvX;
    IdClosedForm(m, slot);
    IdClosedForm(n, slot);
    SameRemainder(m - 1, n - 1);
    IdShape((m - 1) % GENERATIONS + 1, slot);
  }

  /** Two allocations of a slot give the same id exactly when a multiple of 2^19 - 1 apart. */
  lemma SameIdIff(m: nat, n: nat, slot: nat)
    requires 0 < m <= n && slot < NENV
    ensures IdAfter(m, slot) == IdAfter(n, slot) <==> (n - m) % GENERATIONS == 0
  {
    hide IdAfter;
    IdClosedForm(m, slot);
    IdClosedForm(n, slot);
    var a, b := (m - 1) % GENERATIONS, (n - 1) % GENERATIONS;
    var q := (n - 1) / GENERATIONS - (m - 1) / GENERATIONS;
    assert n - m == q * GENERATIONS + (b - a);
    Multiple(n - m, q, b - a);
  }

  lemma Multiple(x: nat, q: int, y: int)
    requires x == q * GENERATIONS + y && -GENERATIONS < y < GENERATIONS
    ensures x % GENERATIONS == 0 <==> y == 0
  {
    if x % GENERATIONS == 0 {
      var p := x / GENERATIONS - q;
      assert y == p * GENERATIONS;
      assert p == 0;
    }
  }

  lemma IdShape(g: nat, slot: nat)
    requires 0 < g <= GENERATIONS && slot < NENV
    ensures 0 < g * 0x1000 + slot < 0x8000_0000 && EnvX(g * 0x1000 + slot) == slot
  {
    SlotPart(g * 4, slot);
    assert g * 0x1000 + slot == g * 4 * NENV + slot;
  }

  lemma SameRemainder(x: nat, y: nat)
    requires x < y
    ensures y - x < GENERATIONS ==> x % GENERATIONS != y % GENERATIONS
    ensures y - x == GENERATIONS ==> x % GENERATIONS == y % GENERATIONS
  {
  }

  // ------------------------------------------------------------------
  // The invariant of envs[].
  // ------------------------------------------------------------------

  ghost predicate IdOk(id: int, slot: nat) {
    id == 0 || (0 < id < 0x8000_0000 && EnvX(id) == slot)
  }

  predicate Live(k: Kern, i: nat) {
    i < |k.envs| && !k.envs[i].status.Free?
  }

  /** A slot is on env_free_list, once, exactly if its status is ENV_FREE. */
  ghost predicate FreeSlots(k: Kern) {
    && (forall i: nat :: i in k.free <==> i < |k.envs| && k.envs[i].status.Free?)
    && (forall i: nat, j: nat | i < j < |k.free| :: k.free[i] != k.free[j])
  }

  ghost predicate IdsOk(k: Kern) {
    forall i: nat | i < |k.envs| :: IdOk(k.envs[i].id, i) && (Live(k, i) ==> k.envs[i].id > 0)
  }

  /** The live environments own the page directories in use, one each. */
  ghost predicate PgdirsOk(k: Kern) {
    && (forall i: nat | i < |k.envs| :: Live(k, i) <==> k.envs[i].pgdir.Some?)
    && (forall i: nat | Live(k, i) :: k.envs[i].pgdir.value as nat in k.vm.roots)
    && (forall i: nat, j: nat | Live(k, i) && Live(k, j) && k.envs[i].pgdir == k.envs[j].pgdir :: i == j)
    && (forall r: nat | r in k.vm.roots :: exists i: nat :: Live(k, i) && k.envs[i].pgdir.value == r)
  }

  /** A receiver is blocked. */
  ghost predicate RecvOk(k: Kern) {
    forall i: nat | i < |k.envs| && k.envs[i].recving :: k.envs[i].status.NotRunnable? || k.envs[i].status.Free?
  }

  ghost predicate KValid(k: Kern) {
    && Valid(k.vm) && |k.envs| == NENV
    && FreeSlots(k) && IdsOk(k) && PgdirsOk(k) && RecvOk(k)
  }

  // ------------------------------------------------------------------
  // envid2env, env_alloc, env_free.
  // ------------------------------------------------------------------

  /** envid2env for a caller running as environment `cur`: the slot, or None for -E_BAD_ENV. */
  function Lookup(k: Kern, cur: nat, envid: int, checkperm: bool): Option<nat>
    requires |k.envs| == NENV && cur < NENV
  {
    if envid == 0 then Some(cur)
    else
      var i := EnvX(envid);
      if k.envs[i].status.Free? || k.envs[i].id != envid then None
      else if checkperm && i != cur && k.envs[i].parent != k.envs[cur].id then None
      else Some(i)
  }

  /** envid2env finds the caller for the id 0, and otherwise the one live environment that has the id
      now, and, with checkperm, only the caller itself and its children. */
  lemma LookupExact(k: Kern, cur: nat, envid: int, checkperm: bool, i: nat)
    requires KValid(k) && Live(k, cur)
    ensures Lookup(k, cur, envid, checkperm) == Some(i) <==>
            if envid == 0 then i == cur else
            && Live(k, i) && k.envs[i].id == envid
            && (checkperm ==> i == cur || k.envs[i].parent == k.envs[cur].id)
  {
  }

  /** The id that slot `slot` had after m allocations finds that slot after n, if it is live, exactly
      when n - m is a multiple of 2^19 - 1, and never another slot. */
  lemma OldIdFinds(k: Kern, cur: nat, slot: nat, m: nat, n: nat, checkperm: bool)
    requires |k.envs| == NENV && Live(k, cur) && slot < NENV
    requires 0 < m <= n && k.envs[slot].id == IdAfter(n, slot)
    ensures Lookup(k, cur, IdAfter(m, slot), checkperm) ==
            if && Live(k, slot) && (n - m) % GENERATIONS == 0
               && (checkperm ==> slot == cur || k.envs[slot].parent == k.envs[cur].id)
            then Some(slot) else None
  {
    SameIdIff(m, n, slot);
    IdsFresh(m, m + 1, slot);
    FindsSlot(k, cur, IdAfter(m, slot), slot, checkperm);
    hide *;
  }

  lemma FindsSlot(k: Kern, cur: nat, id: int, slot: nat, checkperm: bool)
    requires |k.envs| == NENV && Live(k, cur) && id > 0 && EnvX(id) == slot
    ensures Lookup(k, cur, id, checkperm) ==
            if && Live(k, slot) && k.envs[slot].id == id
               && (checkperm ==> slot == cur || k.envs[slot].parent == k.envs[cur].id)
            then Some(slot) else None
  {
  }

  const INITIAL_TF := Tf(0, 0)

  /** The slot env_alloc fills in. */
  function FreshEnv(e: Env, slot: nat, parent: int, pgdir: Frame): Env {
    e.(id := NextId(e.id, slot), parent := parent, status := Runnable, pgdir := Some(pgdir),
       tf := INITIAL_TF, upcall := 0, recving := false)
  }

  /** env_alloc: on success, the number of the new environment's slot. */
  function EnvAlloc(k: Kern, parent: int): (Kern, Result)
    requires Valid(k.vm) && |k.envs| == NENV && (k.free != [] ==> k.free[0] < NENV)
  {
    if k.free == [] then (k, Error(E_NO_FREE_ENV)) else
    var i := k.free[0];
    var (vm, pgdir) := Setup(k.vm);
    match pgdir
    case None => (k.(vm := vm), Error(E_NO_MEM))
    case Some(r) =>
      (Kern(vm, k.envs[i := FreshEnv(k.envs[i], i, parent, r)], k.free[1..]), Done(i))
  }

  /** What env_alloc makes of a slot that held e: a runnable environment with the slot's next id, the
      parent, initial registers, no page fault upcall, and not receiving. */
  ghost predicate Fresh(e: Env, e': Env, slot: nat, parent: int) {
    && e'.id == NextId(e.id, slot) && e'.parent == parent && e'.status == Runnable && e'.pgdir.Some?
    && e'.tf.eax == 0 && e'.tf.others == 0 && e'.upcall == 0 && !e'.recving
    && e'.dstva == e.dstva && e'.value == e.value && e'.from == e.from && e'.perm == e.perm
  }

  lemma EnvAllocValid(k: Kern, parent: int)
    requires KValid(k)
    ensures k.free != [] ==> k.free[0] < NENV
    ensures var (k', r) := EnvAlloc(k, parent);
            && (r.Error? ==> k' == k && (k.free == [] || k.vm.free == []))
            && (r.Done? ==>
                  && KValid(k') && k.free != [] && r.n == k.free[0] && !Live(k, k.free[0])
                  && Fresh(k.envs[r.n], k'.envs[r.n], r.n, parent) && k'.free == k.free[1..]
                  && k'.envs[r.n].pgdir.value as nat !in k.vm.roots
                  && k'.vm.roots == k.vm.roots + {k'.envs[r.n].pgdir.value as nat}
                  && forall j: nat | j < NENV && j != r.n :: k'.envs[j] == k.envs[j])
  {
    hide Setup, Valid, NextId;
    assert k.free != [] ==> k.free[0] in k.free;
    SetupCorrect(k.vm);
    var (k', r) := EnvAlloc(k, parent);
    if r.Done? {
      var i := k.free[0];
      FreshId(k.envs[i].id, i);
      hide FreeSlots, PgdirsOk, IdOk;
      OneMoreOwner(k, k', i);
      OneLessFree(k, k', i);
    }
  }

  /** Slot i comes to life, with a page directory of its own. */
  lemma OneMoreOwner(k: Kern, k': Kern, i: nat)
    requires PgdirsOk(k) && |k'.envs| == |k.envs| && i < |k.envs| && !Live(k, i) && Live(k', i)
    requires forall j: nat | j < |k.envs| && j != i :: k'.envs[j] == k.envs[j]
    requires k'.envs[i].pgdir.Some? && k'.envs[i].pgdir.value as nat !in k.vm.roots
    requires k'.vm.roots == k.vm.roots + {k'.envs[i].pgdir.value as nat}
    ensures PgdirsOk(k')
  {
    forall r: nat | r in k'.vm.roots ensures exists j: nat :: Live(k', j) && k'.envs[j].pgdir.value == r {
      if r in k.vm.roots {
        var j: nat :| Live(k, j) && k.envs[j].pgdir.value == r;
        assert Live(k', j) && k'.envs[j].pgdir.value == r;
      } else {
        assert Live(k', i) && k'.envs[i].pgdir.value == r;
      }
    }
  }

  lemma OneLessFree(k: Kern, k': Kern, i: nat)
    requires FreeSlots(k) && |k'.envs| == |k.envs| && k.free != [] && i == k.free[0] < |k.envs|
    requires k'.free == k.free[1..] && !k'.envs[i].status.Free?
    requires forall j: nat | j < |k.envs| && j != i :: k'.envs[j] == k.envs[j]
    ensures FreeSlots(k')
  {
    assert k.free == [i] + k'.free;
    assert forall j: nat :: j in k.free <==> j == i || j in k'.free;
  }

  /** Slot i dies, and its page directory is no longer in use. */
  lemma OneLessOwner(k: Kern, k': Kern, i: nat)
    requires PgdirsOk(k) && |k'.envs| == |k.envs| && Live(k, i) && !Live(k', i) && k'.envs[i].pgdir.None?
    requires forall j: nat | j < |k.envs| && j != i :: k'.envs[j] == k.envs[j]
    requires k'.vm.roots == k.vm.roots - {k.envs[i].pgdir.value as nat}
    ensures PgdirsOk(k')
  {
    forall r: nat | r in k'.vm.roots ensures exists j: nat :: Live(k', j) && k'.envs[j].pgdir.value == r {
      var j: nat :| Live(k, j) && k.envs[j].pgdir.value == r;
      assert Live(k', j) && k'.envs[j].pgdir.value == r;
    }
  }

  lemma OneMoreFree(k: Kern, k': Kern, i: nat)
    requires FreeSlots(k) && |k'.envs| == |k.envs| && Live(k, i) && k'.free == [i] + k.free && k'.envs[i].status.Free?
    requires forall j: nat | j < |k.envs| && j != i :: k'.envs[j] == k.envs[j]
    ensures FreeSlots(k')
  {
    assert forall j: nat :: j in k'.free <==> j == i || j in k.free;
  }

  lemma FreshId(id: int, slot: nat)
    requires IdOk(id, slot) && slot < NENV
    ensures IdOk(NextId(id, slot), slot) && NextId(id, slot) > 0
  {
  }

  /** env_free. */
  function EnvFree(k: Kern, i: nat): Kern
    requires Valid(k.vm) && i < |k.envs| && k.envs[i].pgdir.Some? && k.envs[i].pgdir.value < |k.vm.mem|
  {
    Kern(Teardown(k.vm, k.envs[i].pgdir.value), k.envs[i := k.envs[i].(status := Free, pgdir := None)], [i] + k.free)
  }

  lemma EnvFreeValid(k: Kern, i: nat)
    requires KValid(k) && Live(k, i)
    ensures k.envs[i].pgdir.Some? && k.envs[i].pgdir.value < |k.vm.mem|
    ensures KValid(EnvFree(k, i))
  {
    hide Teardown;
    var r := k.envs[i].pgdir.value;
    TeardownCorrect(k.vm, r);
    hide Valid;
    var k' := EnvFree(k, i);
    hide FreeSlots, PgdirsOk, IdOk;
    OneLessOwner(k, k', i);
    OneMoreFree(k, k', i);
  }
}
