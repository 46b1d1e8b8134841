/** The sieve on top of the kernel: what a process has waiting is what its slot of `envs[]` holds, and the
    sieve's sends and receives are sys_ipc_try_send and sys_ipc_recv with no page, as ipc_send and
    ipc_recv make them for a null `pg`. */
module SieveKernel {
  import opened Mmu
  import opened Envs
  import opened Syscalls
  import Sieve

  /** The address that stands for no page. */
  const NO_PAGE: Addr := 0xFFFF_FFFF

  /** Process j runs in slot slots[j], and its env_ipc fields are the process's. */
  ghost predicate Agrees(k: Kern, c: Sieve.Chain, slots: seq<nat>) {
    && KValid(k) && |slots| == |c.procs| == |c.input|
    && (forall j: nat | j < |slots| :: Live(k, slots[j]))
    && (forall i: nat, j: nat | i < j < |slots| :: slots[i] != slots[j])
    && forall j: nat | j < |slots| ::
         && k.envs[slots[j]].recving == c.procs[j].recving
         && (c.input[j] != [] ==> k.envs[slots[j]].value == c.procs[j].value)
  }

  lemma FieldsChange(k: Kern, k': Kern, c: Sieve.Chain, c': Sieve.Chain, slots: seq<nat>, j: nat)
    requires Agrees(k, c, slots) && KValid(k') && j < |slots|
    requires forall e: nat | e < NENV && e != slots[j] :: k'.envs[e] == k.envs[e]
    requires Live(k', slots[j]) && |c'.procs| == |c'.input| == |slots|
    requires forall i: nat | i < |slots| && i != j ::
               && c'.procs[i].recving == c.procs[i].recving && c'.procs[i].value == c.procs[i].value
               && c'.input[i] == c.input[i]
    requires k'.envs[slots[j]].recving == c'.procs[j].recving
    requires c'.input[j] != [] ==> k'.envs[slots[j]].value == c'.procs[j].value
    ensures Agrees(k', c', slots)
  {
    assert |k.envs| == |k'.envs| == NENV;
    hide KValid;
    forall i: nat | i < |slots| && i != j ensures slots[i] != slots[j] {
    }
  }

  /** sys_ipc_try_send delivers exactly when the sieve's receiver is receiving, and otherwise changes
      nothing, so that ipc_send tries again. */
  lemma SendDelivers(k: Kern, c: Sieve.Chain, slots: seq<nat>, cur: nat, envid: int, j: nat, x: int)
    requires Agrees(k, c, slots) && Live(k, cur) && j < |slots| && Lookup(k, cur, envid, false) == Some(slots[j])
    ensures var (k', r) := SysIpcTrySend(k, cur, envid, x, NO_PAGE, 0);
            if c.procs[j].recving then r == 0 && Agrees(k', Sieve.Deliver(c, j, x), slots)
            else r == E_IPC_NOT_RECV && k' == k
  {
    assert |k.envs| == NENV;
    SysIpcTrySendCorrect(k, cur, envid, x, NO_PAGE, 0);
    var (k', r) := SysIpcTrySend(k, cur, envid, x, NO_PAGE, 0);
    if c.procs[j].recving {
      hide KValid, SysIpcTrySend, BadPage, Source, NoTableFor, Lookup, PageSent;
      assert r == 0 && KValid(k');
      FieldsChange(k, k', c, Sieve.Deliver(c, j, x), slots, j);
    }
  }

  /** sys_ipc_recv opens the slot of the process that calls it. */
  lemma RecvOpens(k: Kern, c: Sieve.Chain, slots: seq<nat>, j: nat)
    requires Agrees(k, c, slots) && j < |slots| && Sieve.Enabled(c, Sieve.CallRecv(j))
    ensures var (k', r) := SysIpcRecv(k, slots[j], NO_PAGE);
            r == 0 && Agrees(k', Sieve.Next(c, Sieve.CallRecv(j)), slots)
  {
    assert |k.envs| == NENV;
    SysIpcRecvCorrect(k, slots[j], NO_PAGE);
    var k' := SysIpcRecv(k, slots[j], NO_PAGE).0;
    var c' := Sieve.Next(c, Sieve.CallRecv(j));
    hide KValid, SysIpcRecv;
    FieldsChange(k, k', c, c', slots, j);
  }

  /** A child made by sys_exofork joins the chain as a process that waits for nothing. */
  lemma ForkJoins(k: Kern, c: Sieve.Chain, slots: seq<nat>, j: nat)
    requires Agrees(k, c, slots) && Sieve.Enabled(c, Sieve.Fork(j)) && j < |slots|
    ensures var (k', r) := SysExofork(k, slots[j]);
            r > 0 ==> Agrees(k', Sieve.Next(c, Sieve.Fork(j)), slots + [EnvX(r)])
  {
    assert |k.envs| == NENV;
    SysExoforkCorrect(k, slots[j]);
    var (k', r) := SysExofork(k, slots[j]);
    if r > 0 {
      hide KValid, SysExofork, Mapping, NextId;
      var slots', c' := slots + [EnvX(r)], Sieve.Next(c, Sieve.Fork(j));
      assert !Live(k, EnvX(r));
      assert forall i: nat | i < |slots| :: slots'[i] == slots[i] && slots[i] != EnvX(r);
    }
  }
}
