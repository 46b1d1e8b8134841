/** The round-robin choice of sched_yield (kern/sched.c), and how long a runnable environment waits
    for its turn. */
module Sched {
  import opened Mmu
  import opened Envs

  /** The slot at which the search of sched_yield stops, from its i-th probe on. */
  function Search(envs: seq<Env>, start: nat, i: nat): Option<nat>
    requires |envs| == NENV && i <= NENV
    decreases NENV - i
  {
    if i == NENV then None
    else
      var index := (start + i) % NENV;
      if envs[index].status.Runnable? then Some(index) else Search(envs, start, i + 1)
  }

  /** Where the search starts: just after this CPU's environment, or at slot 0 if it has none. */
  function Start(envs: seq<Env>, cur: Option<nat>): nat
    requires cur.Some? ==> cur.value < |envs|
  {
    match cur
    case None => 0
    case Some(e) => EnvX(envs[e].id) + 1
  }

  function Pick(envs: seq<Env>, cur: Option<nat>): Option<nat>
    requires |envs| == NENV && (cur.Some? ==> cur.value < NENV)
  {
    Search(envs, Start(envs, cur), 0)
  }

  /** How many probes the search makes before it reaches slot `x`. */
  function Distance(start: nat, x: nat): (d: nat)
    ensures d < NENV
  {
    (x - start) % NENV
  }

  lemma ProbeAt(start: nat, x: nat)
    requires x < NENV
    ensures (start + Distance(start, x)) % NENV == x
  {
  }

  lemma DistanceOfProbe(start: nat, i: nat)
    requires i < NENV
    ensures Distance(start, (start + i) % NENV) == i
  {
  }

  lemma {:induction false} SearchFirst(envs: seq<Env>, start: nat, i: nat)
    requires |envs| == NENV && i <= NENV
    ensures var r := Search(envs, start, i);
            && (r.Some? ==>
                  && r.value < NENV && envs[r.value].status.Runnable? && i <= Distance(start, r.value)
                  && forall x: nat | x < NENV && i <= Distance(start, x) < Distance(start, r.value) ::
                       !envs[x].status.Runnable?)
            && (r.None? ==> forall x: nat | x < NENV && i <= Distance(start, x) :: !envs[x].status.Runnable?)
    decreases NENV - i
  {
    if i < NENV {
      var index := (start + i) % NENV;
      DistanceOfProbe(start, i);
      if !envs[index].status.Runnable? {
        SearchFirst(envs, start, i + 1);
        forall x: nat | x < NENV && i <= Distance(start, x) ensures x == index || i + 1 <= Distance(start, x) {
          ProbeAt(start, x);
        }
      }
    }
  }

  /** y is the first RUNNABLE slot in circular order from `start`. */
  ghost predicate IsFirst(envs: seq<Env>, start: nat, y: nat)
    requires |envs| == NENV
  {
    && y < NENV && envs[y].status.Runnable?
    && forall x: nat | x < NENV && envs[x].status.Runnable? :: Distance(start, y) <= Distance(start, x)
  }

  lemma DistanceInjective(start: nat, x: nat, y: nat)
    requires x < NENV && y < NENV && Distance(start, x) == Distance(start, y)
    ensures x == y
  {
    ProbeAt(start, x);
    ProbeAt(start, y);
  }

  /** sched_yield chooses the first RUNNABLE environment in circular order after its own, if any. */
  lemma PickFirst(envs: seq<Env>, cur: Option<nat>)
    requires |envs| == NENV && (cur.Some? ==> cur.value < NENV)
    ensures Pick(envs, cur).None? <==> forall x: nat | x < NENV :: !envs[x].status.Runnable?
    ensures forall y: nat :: Pick(envs, cur) == Some(y) <==> IsFirst(envs, Start(envs, cur), y)
  {
    hide Distance, Search;
    var start := Start(envs, cur);
    SearchFirst(envs, start, 0);
    var p := Pick(envs, cur);
    if p.Some? {
      forall x: nat | x < NENV && envs[x].status.Runnable? ensures Distance(start, p.value) <= Distance(start, x) {
      }
      forall y: nat | IsFirst(envs, start, y) ensures y == p.value {
        DistanceInjective(start, y, p.value);
      }
    }
  }

  /** Whoever is chosen instead of x is nearer to it. */
  lemma NearerNext(cur: nat, x: nat, y: nat)
    requires cur < NENV && x < NENV && y < NENV && x != y
    requires Distance(cur + 1, y) <= Distance(cur + 1, x)
    ensures Distance(y + 1, x) < Distance(cur + 1, x)
  {
    ProbeAt(cur + 1, x);
    ProbeAt(cur + 1, y);
  }

  /** The environments of one CPU over time: at its i-th sched_yield the table is tables[i], it has
      an environment, and the environment it runs next is chosen by sched_yield. */
  ghost predicate Turns(tables: seq<seq<Env>>, chosen: seq<nat>) {
    && |chosen| == |tables| + 1
    && (forall i: nat | i < |chosen| :: chosen[i] < NENV)
    && (forall i: nat | i < |tables| ::
          && |tables[i]| == NENV && EnvX(tables[i][chosen[i]].id) == chosen[i]
          && Pick(tables[i], Some(chosen[i])) == Some(chosen[i + 1]))
  }

  /** An environment that stays RUNNABLE runs after at most NENV calls of sched_yield, made while
      the CPU has an environment. */
  lemma {:induction false} BoundedWaiting(tables: seq<seq<Env>>, chosen: seq<nat>, x: nat)
    requires Turns(tables, chosen) && x < NENV && |tables| > Distance(chosen[0] + 1, x)
    requires forall i: nat | i < |tables| :: tables[i][x].status.Runnable?
    ensures exists i: nat :: 0 < i < |chosen| && i <= Distance(chosen[0] + 1, x) + 1 && chosen[i] == x
    decreases |tables|
  {
    PickFirst(tables[0], Some(chosen[0]));
    if chosen[1] == x {
    } else {
      NearerNext(chosen[0], x, chosen[1]);
      assert Turns(tables[1..], chosen[1..]);
      BoundedWaiting(tables[1..], chosen[1..], x);
      var i: nat :| 0 < i < |chosen[1..]| && i <= Distance(chosen[1] + 1, x) + 1 && chosen[1..][i] == x;
      assert chosen[i + 1] == x;
    }
  }

  /** A CPU without an environment chooses the least RUNNABLE slot. */
  lemma PickLeast(envs: seq<Env>, x: nat)
    requires |envs| == NENV
    ensures Pick(envs, None) == Some(x) <==>
            x < NENV && envs[x].status.Runnable? && forall y: nat | y < x :: !envs[y].status.Runnable?
  {
    PickFirst(envs, None);
    assert forall y: nat | y < NENV :: Distance(0, y) == y;
    hide Pick, Distance;
  }

  /** The choices of a CPU over calls of sched_yield made while it has no environment. */
  ghost predicate IdleTurns(tables: seq<seq<Env>>, chosen: seq<Option<nat>>) {
    && |chosen| == |tables|
    && forall i: nat | i < |tables| :: |tables[i]| == NENV && Pick(tables[i], None) == chosen[i]
  }

  /** Some slot before x is RUNNABLE. */
  predicate Preceded(envs: seq<Env>, x: nat)
    requires x < |envs|
  {
    exists y: nat :: y < x && envs[y].status.Runnable?
  }

  /** Over such calls a runnable environment is never chosen exactly if, at each of them, one in a
      smaller slot is runnable: there is no bound on its wait. */
  lemma NeverChosenIff(tables: seq<seq<Env>>, chosen: seq<Option<nat>>, x: nat)
    requires IdleTurns(tables, chosen) && x < NENV && forall i: nat | i < |tables| :: tables[i][x].status.Runnable?
    ensures Some(x) !in chosen <==>
            forall i: nat | i < |tables| :: Preceded(tables[i], x)
  {
    hide Pick;
    forall i: nat | i < |tables| ensures chosen[i] != Some(x) <==> Preceded(tables[i], x) {
      PickLeast(tables[i], x);
    }
  }

  /** Environment x waits for as many calls as one likes, while slot 0 runs each time, and blocks and
      becomes runnable again in between. */
  lemma Starved(x: nat, n: nat) returns (tables: seq<seq<Env>>, chosen: seq<Option<nat>>)
    requires 0 < x < NENV
    ensures IdleTurns(tables, chosen) && |tables| == n
    ensures forall i: nat | i < n :: tables[i][x].status.Runnable? && chosen[i] == Some(0)
  {
    var blocked := Env(0, 0, NotRunnable, None, INITIAL_TF, 0, false, 0, 0, 0, 0);
    var envs := seq(NENV, i requires 0 <= i => if i == 0 || i == x then blocked.(status := Runnable) else blocked);
    PickLeast(envs, 0);
    tables := seq(n, _ => envs);
    chosen := seq(n, _ => Some(0));
  }
}
