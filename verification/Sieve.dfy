/** The concurrent prime sieve (user/primes.c) over IPC (lib/ipc.c): a chain of processes, each of
    which takes its first value for a prime and passes on the values that the prime does not divide.
    A step is one system call, or the code of one process up to its next system call; the endless
    loops of the program counters make no method. */
module Sieve {
  /** Where primeproc is: before its first ipc_recv, blocked in it, with its prime in hand and about
      to fork, before the ipc_recv of the loop, blocked in it, with a value received, and in the loop
      of ipc_send. */
  datatype Phase = Top | FirstWait | Forking | Loop | Wait | Got(i: int) | Sending(x: int)

  /** A process: `recving` and `value` are the fields of its Env; `p` is its prime from Forking on. */
  datatype Proc = Proc(phase: Phase, recving: bool, value: int, p: int)

  /** umain is about to send `next`; `input[j]` is what has been delivered to process j. */
  datatype Chain = Chain(next: int, procs: seq<Proc>, input: seq<seq<int>>)

  datatype Step = Feed | CallRecv(j: nat) | Received(j: nat) | Fork(j: nat) | Test(j: nat) | TrySend(j: nat)

  const INT_LIMIT := 0x8000_0000

  ghost predicate Enabled(c: Chain, l: Step) {
    match l
    case Feed => c.next < INT_LIMIT && |c.procs| > 0
    case CallRecv(j) => j < |c.procs| && (c.procs[j].phase.Top? || c.procs[j].phase.Loop?)
    case Received(j) => j < |c.procs| && (c.procs[j].phase.FirstWait? || c.procs[j].phase.Wait?) && !c.procs[j].recving
    case Fork(j) => j < |c.procs| && c.procs[j].phase.Forking?
    case Test(j) => j < |c.procs| && c.procs[j].phase.Got?
    case TrySend(j) => j + 1 < |c.procs| && c.procs[j].phase.Sending?
  }

  predicate Divides(p: int, n: int) {
    p != 0 && n % p == 0
  }

  function SetPhase(c: Chain, j: nat, phase: Phase): Chain
    requires j < |c.procs|
  {
    c.(procs := c.procs[j := c.procs[j].(phase := phase)])
  }

  /** sys_ipc_try_send to a process that is receiving. */
  function Deliver(c: Chain, j: nat, x: int): Chain
    requires j < |c.procs| && |c.input| == |c.procs|
  {
    c.(procs := c.procs[j := c.procs[j].(recving := false, value := x)], input := c.input[j := c.input[j] + [x]])
  }

  const NEW_PROC := Proc(Top, false, 0, 0)

  ghost function Next(c: Chain, l: Step): Chain
    requires Enabled(c, l) && |c.input| == |c.procs|
  {
    match l
    case Feed => if c.procs[0].recving then Deliver(c, 0, c.next).(next := c.next + 1) else c
    case CallRecv(j) =>
      var phase := if c.procs[j].phase.Top? then FirstWait else Wait;
      c.(procs := c.procs[j := c.procs[j].(recving := true, phase := phase)])
    case Received(j) =>
      if c.procs[j].phase.FirstWait?
      then c.(procs := c.procs[j := c.procs[j].(phase := Forking, p := c.procs[j].value)])
      else SetPhase(c, j, Got(c.procs[j].value))
    case Fork(j) => c.(procs := c.procs[j := c.procs[j].(phase := Loop)] + [NEW_PROC], input := c.input + [[]])
    case Test(j) =>
      if Divides(c.procs[j].p, c.procs[j].phase.i) then SetPhase(c, j, Loop)
      else SetPhase(c, j, Sending(c.procs[j].phase.i))
    case TrySend(j) =>
      if c.procs[j + 1].recving then SetPhase(Deliver(c, j + 1, c.procs[j].phase.x), j, Loop) else c
  }

  // ------------------------------------------------------------------
  // Primes.
  // ------------------------------------------------------------------

  ghost predicate IsPrime(n: int) {
    n >= 2 && forall d: int | 2 <= d < n :: n % d != 0
  }

  /** ps lists the first |ps| primes in order. */
  ghost predicate FirstPrimes(ps: seq<int>) {
    && (forall i: nat | i < |ps| :: IsPrime(ps[i]))
    && (forall i: nat, j: nat | i < j < |ps| :: ps[i] < ps[j])
    && (forall q: int, i: nat | i < |ps| && IsPrime(q) && q <= ps[i] :: q in ps)
  }

  /** n is a number that none of ps divides. */
  predicate Survives(ps: seq<int>, n: int) {
    n >= 2 && forall i: nat | i < |ps| :: ps[i] >= 2 && n % ps[i] != 0
  }

  /** The numbers below b that none of ps divides, in order. */
  function Survivors(ps: seq<int>, b: int): seq<int>
    decreases b
  {
    if b <= 2 then [] else Survivors(ps, b - 1) + if Survives(ps, b - 1) then [b - 1] else []
  }

  lemma DivisorOfDivisor(p: int, d: int, n: int)
    requires p > 0 && d > 0 && d % p == 0 && n % d == 0
    ensures n % p == 0
  {
    var a, b := d / p, n / d;
    assert d == p * a && n == d * b;
    assert n == p * (a * b) by {
      assert (p * a) * b == p * (a * b);
    }
    MultipleMod(p, a * b);
  }

  lemma MultipleMod(p: int, k: int)
    requires p > 0
    ensures (p * k) % p == 0
  {
    var n := p * k;
    var q := n / p;
    var t := k - q;
    assert p * t == n - p * q by { assert p * (k - q) == p * k - p * q; }
    assert n == p * q + n % p;
    AtLeastOnce(p, t);
  }

  lemma AtLeastOnce(p: int, t: int)
    requires p > 0
    ensures t > 0 ==> p * t >= p
    ensures t < 0 ==> p * t <= -p
    ensures t == 0 ==> p * t == 0
  {
  }

  /** A prime that some number of ps divides is that number. */
  lemma PrimeDivisor(q: int, p: int)
    requires IsPrime(q) && p >= 2 && q % p == 0
    ensures q == p
  {
  }

  lemma LeastIsPrime(ps: seq<int>, n: int)
    requires FirstPrimes(ps) && Survives(ps, n)
    requires forall d: int | 2 <= d < n :: !Survives(ps, d)
    ensures IsPrime(n)
  {
    forall d: int | 2 <= d < n ensures n % d != 0 {
      assert !Survives(ps, d);
      var i: nat :| i < |ps| && !(ps[i] >= 2 && d % ps[i] != 0);
      assert IsPrime(ps[i]);
      hide FirstPrimes, IsPrime;
      if n % d == 0 {
        DivisorOfDivisor(ps[i], d, n);
      }
    }
  }

  lemma SmallerPrimesListed(ps: seq<int>, n: int, q: int)
    requires FirstPrimes(ps) && forall d: int | 2 <= d < n :: !Survives(ps, d)
    requires IsPrime(q) && q < n
    ensures q in ps
  {
    assert !Survives(ps, q);
    var i: nat :| i < |ps| && !(ps[i] >= 2 && q % ps[i] != 0);
    assert IsPrime(ps[i]);
    PrimeDivisor(q, ps[i]);
  }

  lemma PrimeNotListed(ps: seq<int>, n: int)
    requires Survives(ps, n)
    ensures n !in ps
  {
  }

  /** The least number that the first primes do not divide is the next prime. */
  lemma NextPrime(ps: seq<int>, n: int)
    requires FirstPrimes(ps) && Survives(ps, n)
    requires forall d: int | 2 <= d < n :: !Survives(ps, d)
    ensures FirstPrimes(ps + [n])
  {
    LeastIsPrime(ps, n);
    PrimeNotListed(ps, n);
    hide IsPrime, Survives;
    assert forall i: nat | i < |ps| :: ps[i] < n;
    var qs := ps + [n];
    forall q: int, i: nat | i < |qs| && IsPrime(q) && q <= qs[i] ensures q in qs {
      if q < n { SmallerPrimesListed(ps, n, q); }
    }
  }

  // ------------------------------------------------------------------
  // Sequences of survivors.
  // ------------------------------------------------------------------

  function WithoutMultiples(s: seq<int>, p: int): seq<int> {
    if s == [] then [] else WithoutMultiples(s[..|s| - 1], p) + if !Divides(p, s[|s| - 1]) then [s[|s| - 1]] else []
  }

  lemma {:induction false} SieveOnce(ps: seq<int>, p: int, b: int)
    requires p >= 2
    ensures WithoutMultiples(Survivors(ps, b), p) == Survivors(ps + [p], b)
    decreases b
  {
    if b > 2 {
      SieveOnce(ps, p, b - 1);
      SurvivesMore(ps, p, b - 1);
      hide Survives;
      var s := Survivors(ps, b - 1);
      if Survives(ps, b - 1) {
        WithoutLast(s, b - 1, p);
        assert Survivors(ps, b) == s + [b - 1];
      } else {
        assert Survivors(ps, b) == s;
        assert Survivors(ps + [p], b) == Survivors(ps + [p], b - 1);
      }
    }
  }

  lemma WithoutLast(s: seq<int>, x: int, p: int)
    ensures WithoutMultiples(s + [x], p) == WithoutMultiples(s, p) + if !Divides(p, x) then [x] else []
  {
    assert (s + [x])[..|s|] == s;
  }

  lemma SurvivesMore(ps: seq<int>, p: int, n: int)
    requires p >= 2
    ensures Survives(ps + [p], n) <==> Survives(ps, n) && n % p != 0
  {
    var qs := ps + [p];
    assert forall i: nat | i < |ps| :: qs[i] == ps[i];
    assert qs[|ps|] == p;
  }

  /** A part of the survivors from the beginning is the survivors up to a smaller bound. */
  lemma {:induction false} PrefixSurvivors(ps: seq<int>, b: int, m: nat) returns (b': int)
    requires m <= |Survivors(ps, b)|
    ensures Survivors(ps, b') == Survivors(ps, b)[..m]
    decreases b
  {
    if m == |Survivors(ps, b)| {
      b' := b;
    } else {
      assert b > 2;
      b' := PrefixSurvivors(ps, b - 1, m);
    }
  }

  /** The first survivor is the least. */
  lemma {:induction false} FirstSurvivor(ps: seq<int>, b: int)
    requires Survivors(ps, b) != []
    ensures var n := Survivors(ps, b)[0]; Survives(ps, n) && n < b && forall d: int | 2 <= d < n :: !Survives(ps, d)
    decreases b
  {
    if Survivors(ps, b - 1) != [] {
      FirstSurvivor(ps, b - 1);
    } else {
      NoSurvivor(ps, b - 1);
    }
  }

  lemma {:induction false} NoSurvivor(ps: seq<int>, b: int)
    requires Survivors(ps, b) == []
    ensures forall d: int | 2 <= d < b :: !Survives(ps, d)
    decreases b
  {
    if b > 2 {
      NoSurvivor(ps, b - 1);
    }
  }

  // ------------------------------------------------------------------
  // The invariant.
  // ------------------------------------------------------------------

  /** Whether process j has a prime, and so, unless it is about to fork, a right neighbour. */
  predicate HasPrime(p: Proc) {
    !p.phase.Top? && !p.phase.FirstWait?
  }

  /** How many of the values delivered to a process it has passed on or dropped. */
  function Handled(p: Proc, delivered: nat): int {
    match p.phase
    case Got(_) => delivered - 1
    case Sending(_) => delivered - 1
    case Wait => if p.recving then delivered else delivered - 1
    case _ => delivered
  }

  /** What the phase of process j says about its input. */
  ghost predicate ProcOk(c: Chain, j: nat)
    requires j < |c.procs| == |c.input|
  {
    var p, s := c.procs[j], c.input[j];
    && (forall i: nat | i < |s| :: s[i] >= 2)
    && (HasPrime(p) ==> s != [] && p.p == s[0])
    && match p.phase
       case Top => s == [] && !p.recving
       case FirstWait => if p.recving then s == [] else s == [p.value]
       case Forking => |s| == 1 && !p.recving
       case Loop => !p.recving
       case Wait => p.recving || (|s| > 1 && p.value == s[|s| - 1])
       case Got(i) => |s| > 1 && i == s[|s| - 1] && !p.recving
       case Sending(x) => |s| > 1 && x == s[|s| - 1] && !Divides(p.p, x) && !p.recving
  }

  /** The first process has all integers from 2 on, and each other one what its neighbour let through. */
  ghost predicate Linked(c: Chain, j: nat)
    requires j < |c.procs| == |c.input|
  {
    if j == 0 then c.input[0] == Survivors([], c.next)
    else
      var l := c.procs[j - 1];
      && HasPrime(l) && !l.phase.Forking?
      && 0 <= Handled(l, |c.input[j - 1]|) <= |c.input[j - 1]|
      && c.input[j] == WithoutMultiples(c.input[j - 1][..Handled(l, |c.input[j - 1]|)], l.p)
  }

  ghost predicate Inv(c: Chain) {
    && |c.procs| == |c.input| && c.next >= 2
    && (forall j: nat | j < |c.procs| :: ProcOk(c, j) && Linked(c, j))
  }

  /** A delivery suits the receiver, and its right neighbour does not notice. */
  lemma DeliverKeeps(c: Chain, j: nat, x: int)
    requires |c.procs| == |c.input| && j < |c.procs| && ProcOk(c, j) && c.procs[j].recving && x >= 2
    ensures var c' := Deliver(c, j, x);
            && ProcOk(c', j) && HasPrime(c'.procs[j]) == HasPrime(c.procs[j]) && c'.procs[j].phase == c.procs[j].phase
            && (j + 1 < |c.procs| && Linked(c, j + 1) ==> Linked(c', j + 1))
  {
    hide Survivors, WithoutMultiples;
    var c' := Deliver(c, j, x);
    if j + 1 < |c.procs| && Linked(c, j + 1) {
      assert Handled(c'.procs[j], |c'.input[j]|) == |c.input[j]| == Handled(c.procs[j], |c.input[j]|);
      assert c'.input[j][..|c.input[j]|] == c.input[j][..|c.input[j]|];
    }
  }

  lemma SameProc(c: Chain, c': Chain, i: nat)
    requires i < |c.procs| == |c.input| && i < |c'.procs| == |c'.input| && ProcOk(c, i)
    requires c'.procs[i] == c.procs[i] && c'.input[i] == c.input[i]
    ensures ProcOk(c', i)
  {
  }

  lemma LinkedPrime(c: Chain, i: nat)
    requires 0 < i < |c.procs| == |c.input| && Linked(c, i)
    ensures HasPrime(c.procs[i - 1]) && !c.procs[i - 1].phase.Forking?
  {
  }

  lemma SameLink(c: Chain, c': Chain, i: nat)
    requires i < |c.procs| == |c.input| && i < |c'.procs| == |c'.input| && Linked(c, i)
    requires c'.input[i] == c.input[i] && (i == 0 ==> c'.next == c.next)
    requires i > 0 ==> c'.input[i - 1] == c.input[i - 1] && HasPrime(c'.procs[i - 1]) && !c'.procs[i - 1].phase.Forking?
    requires i > 0 ==> c'.procs[i - 1].p == c.procs[i - 1].p
    requires i > 0 ==> Handled(c'.procs[i - 1], |c.input[i - 1]|) == Handled(c.procs[i - 1], |c.input[i - 1]|)
    ensures Linked(c', i)
  {
  }

  lemma FeedKeeps(c: Chain)
    requires Inv(c) && Enabled(c, Feed)
    ensures Inv(Next(c, Feed))
  {
    if c.procs[0].recving {
      assert ProcOk(c, 0) && Linked(c, 0) && (|c.procs| > 1 ==> Linked(c, 1));
      var c' := Next(c, Feed);
      hide ProcOk, Linked, Survivors, WithoutMultiples;
      FedFirst(c);
      forall j: nat | 0 < j < |c.procs| ensures ProcOk(c', j) && Linked(c', j) {
        SameProc(c, c', j);
        if j > 1 { LinkedPrime(c, j); SameLink(c, c', j); }
      }
    }
  }

  lemma FedFirst(c: Chain)
    requires |c.procs| == |c.input| && 0 < |c.procs| && c.next >= 2 && c.procs[0].recving
    requires ProcOk(c, 0) && Linked(c, 0) && (|c.procs| > 1 ==> Linked(c, 1))
    ensures var c' := Deliver(c, 0, c.next).(next := c.next + 1);
            ProcOk(c', 0) && Linked(c', 0) && (|c.procs| > 1 ==> Linked(c', 1))
  {
    DeliverKeeps(c, 0, c.next);
    var c1 := Deliver(c, 0, c.next);
    var c' := c1.(next := c.next + 1);
    SameProc(c1, c', 0);
    NextSurvives(c.next);
    assert Linked(c', 0) by { hide ProcOk, Survivors; }
    if |c.procs| > 1 {
      LinkedPrime(c1, 1);
      hide ProcOk, Linked, Survivors;
      SameLink(c1, c', 1);
    }
    hide ProcOk, Linked;
  }

  lemma NextSurvives(b: int)
    requires b >= 2
    ensures Survivors([], b + 1) == Survivors([], b) + [b]
  {
  }

  /** Only process j changes, and what it has let through is the same. */
  lemma LocalKeeps(c: Chain, c': Chain, j: nat)
    requires Inv(c) && j < |c.procs| && c' == c.(procs := c'.procs) && |c'.procs| == |c.procs|
    requires forall i: nat | i < |c.procs| && i != j :: c'.procs[i] == c.procs[i]
    requires ProcOk(c', j)
    requires HasPrime(c.procs[j]) && !c.procs[j].phase.Forking? ==>
               && HasPrime(c'.procs[j]) && !c'.procs[j].phase.Forking?
               && 0 <= Handled(c'.procs[j], |c.input[j]|) <= |c.input[j]|
               && 0 <= Handled(c.procs[j], |c.input[j]|) <= |c.input[j]|
               && WithoutMultiples(c.input[j][..Handled(c'.procs[j], |c.input[j]|)], c'.procs[j].p) ==
                  WithoutMultiples(c.input[j][..Handled(c.procs[j], |c.input[j]|)], c.procs[j].p)
    ensures Inv(c')
  {
    hide Survivors, WithoutMultiples;
    forall i: nat | i < |c.procs| ensures ProcOk(c', i) && Linked(c', i) {
      assert ProcOk(c, i) && Linked(c, i);
    }
  }

  lemma CallRecvKeeps(c: Chain, j: nat)
    requires Inv(c) && Enabled(c, CallRecv(j))
    ensures Inv(Next(c, CallRecv(j)))
  {
    assert ProcOk(c, j);
    LocalKeeps(c, Next(c, CallRecv(j)), j);
  }

  lemma ReceivedKeeps(c: Chain, j: nat)
    requires Inv(c) && Enabled(c, Received(j))
    ensures Inv(Next(c, Received(j)))
  {
    assert ProcOk(c, j);
    LocalKeeps(c, Next(c, Received(j)), j);
  }

  lemma TestKeeps(c: Chain, j: nat)
    requires Inv(c) && Enabled(c, Test(j))
    ensures Inv(Next(c, Test(j)))
  {
    assert ProcOk(c, j);
    var s, p := c.input[j], c.procs[j].p;
    assert s == s[..|s| - 1] + [s[|s| - 1]] && s[..|s|] == s;
    WithoutLast(s[..|s| - 1], s[|s| - 1], p);
    LocalKeeps(c, Next(c, Test(j)), j);
  }

  lemma ForkKeeps(c: Chain, j: nat)
    requires Inv(c) && Enabled(c, Fork(j))
    ensures Inv(Next(c, Fork(j)))
  {
    var c' := Next(c, Fork(j));
    assert j + 1 < |c.procs| ==> Linked(c, j + 1);
    assert j + 1 == |c.procs|;
    forall i: nat | i < |c'.procs| ensures ProcOk(c', i) && Linked(c', i) {
      if i <= j {
        assert ProcOk(c, i) && Linked(c, i);
      } else {
        assert ProcOk(c, j);
        assert c.input[j][..1] == [c.procs[j].p];
        WithoutLast([], c.procs[j].p, c.procs[j].p);
        assert [] + [c.procs[j].p] == [c.procs[j].p];
      }
    }
  }

  /** Both ends of a delivery. */
  lemma SentKeeps(c: Chain, j: nat, x: int)
    requires |c.procs| == |c.input| && j + 1 < |c.procs| && c.procs[j].phase == Sending(x) && c.procs[j + 1].recving
    requires ProcOk(c, j) && ProcOk(c, j + 1) && Linked(c, j + 1)
    ensures var c' := SetPhase(Deliver(c, j + 1, x), j, Loop);
            && ProcOk(c', j) && ProcOk(c', j + 1) && Linked(c', j + 1)
            && (j + 2 < |c.procs| && Linked(c, j + 2) ==> Linked(c', j + 2))
  {
    var c1 := Deliver(c, j + 1, x);
    var c' := SetPhase(c1, j, Loop);
    DeliverKeeps(c, j + 1, x);
    var s, p := c.input[j], c.procs[j].p;
    assert s == s[..|s| - 1] + [x] && s[..|s|] == s;
    WithoutLast(s[..|s| - 1], x, p);
    hide Survivors, WithoutMultiples;
    assert ProcOk(c', j) && Linked(c', j + 1);
    SameProc(c1, c', j + 1);
    if j + 2 < |c.procs| && Linked(c, j + 2) {
      LinkedPrime(c1, j + 2);
      hide ProcOk, Linked;
      SameLink(c1, c', j + 2);
    }
  }

  lemma OthersKept(c: Chain, c': Chain, j: nat)
    requires Inv(c) && j + 1 < |c.procs| == |c'.procs| == |c'.input| && c'.next == c.next
    requires forall i: nat | i < |c.procs| && i != j && i != j + 1 :: c'.procs[i] == c.procs[i]
    requires forall i: nat | i < |c.procs| && i != j + 1 :: c'.input[i] == c.input[i]
    requires ProcOk(c', j) && ProcOk(c', j + 1) && Linked(c', j + 1) && (j + 2 < |c.procs| ==> Linked(c', j + 2))
    ensures Inv(c')
  {
    hide ProcOk, Linked, Handled;
    forall i: nat | i < |c.procs| ensures ProcOk(c', i) && Linked(c', i) {
      if i != j && i != j + 1 { SameProc(c, c', i); }
      if i != j + 1 && i != j + 2 {
        if i > 0 { LinkedPrime(c, i); }
        SameLink(c, c', i);
      }
    }
  }

  lemma TrySendKeeps(c: Chain, j: nat)
    requires Inv(c) && Enabled(c, TrySend(j))
    ensures Inv(Next(c, TrySend(j)))
  {
    if c.procs[j + 1].recving {
      var x := c.procs[j].phase.x;
      assert ProcOk(c, j) && ProcOk(c, j + 1) && Linked(c, j + 1) && (j + 2 < |c.procs| ==> Linked(c, j + 2));
      SentKeeps(c, j, x);
      var c' := SetPhase(Deliver(c, j + 1, x), j, Loop);
      assert Next(c, TrySend(j)) == c';
      hide Inv, ProcOk, Linked;
      OthersKept(c, c', j);
    }
  }

  lemma StepKeepsInv(c: Chain, l: Step)
    requires Inv(c) && Enabled(c, l)
    ensures Inv(Next(c, l))
  {
    hide Inv, Next;
    match l {
      case Feed => FeedKeeps(c);
      case CallRecv(j) => CallRecvKeeps(c, j);
      case Received(j) => ReceivedKeeps(c, j);
      case Fork(j) => ForkKeeps(c, j);
      case Test(j) => TestKeeps(c, j);
      case TrySend(j) => TrySendKeeps(c, j);
    }
  }

  // ------------------------------------------------------------------
  // The theorem.
  // ------------------------------------------------------------------

  /** umain has forked the first process. */
  predicate Init(c: Chain) {
    c == Chain(2, [NEW_PROC], [[]])
  }

  ghost predicate IsRun(cs: seq<Chain>, ls: seq<Step>) {
    && |cs| == |ls| + 1
    && forall i: nat | i < |ls| ::
         |cs[i].input| == |cs[i].procs| && Enabled(cs[i], ls[i]) && cs[i + 1] == Next(cs[i], ls[i])
  }

  lemma {:induction false} RunKeepsInv(cs: seq<Chain>, ls: seq<Step>, n: nat)
    requires IsRun(cs, ls) && Init(cs[0]) && n <= |ls|
    ensures Inv(cs[n])
  {
    hide Next, Enabled;
    if n > 0 {
      RunKeepsInv(cs, ls, n - 1);
      StepKeepsInv(cs[n - 1], ls[n - 1]);
    }
  }

  /** A process has a right neighbour exactly from its fork on: the chain grows by one at each fork. */
  ghost predicate Chained(c: Chain) {
    forall j: nat | j < |c.procs| :: HasPrime(c.procs[j]) && !c.procs[j].phase.Forking? <==> j + 1 < |c.procs|
  }

  lemma StepChained(c: Chain, l: Step)
    requires Inv(c) && Enabled(c, l) && Chained(c)
    ensures Chained(Next(c, l))
  {
    hide Linked, Survivors;
    assert forall j: nat | j < |c.procs| :: ProcOk(c, j);
  }

  lemma {:induction false} RunChained(cs: seq<Chain>, ls: seq<Step>, n: nat)
    requires IsRun(cs, ls) && Init(cs[0]) && n <= |ls|
    ensures Chained(cs[n])
  {
    hide Next, Enabled, Chained;
    if n > 0 {
      RunChained(cs, ls, n - 1);
      RunKeepsInv(cs, ls, n - 1);
      StepChained(cs[n - 1], ls[n - 1]);
    } else {
      assert Chained(cs[0]) by { InitChained(cs[0]); }
    }
  }

  lemma InitChained(c: Chain)
    requires Init(c)
    ensures Chained(c)
  {
  }

  /** What the first k processes have printed. */
  function Printed(c: Chain, k: nat): seq<int>
    requires k <= |c.procs|
  {
    if k == 0 then [] else Printed(c, k - 1) + [c.procs[k - 1].p]
  }

  /** The input of process j is the beginning of the increasing sequence of integers from 2 on that
      the primes of the processes before it do not divide, and those are the first j primes. */
  lemma {:induction false} InputSieved(c: Chain, j: nat) returns (b: int)
    requires Inv(c) && j < |c.procs|
    ensures FirstPrimes(Printed(c, j)) && c.input[j] == Survivors(Printed(c, j), b)
  {
    if j == 0 {
      assert Linked(c, 0);
      b := c.next;
    } else {
      var b0 := InputSieved(c, j - 1);
      assert ProcOk(c, j - 1) && Linked(c, j);
      var ps, p, s := Printed(c, j - 1), c.procs[j - 1].p, c.input[j - 1];
      hide ProcOk, Survivors, WithoutMultiples, FirstPrimes, Survives;
      FirstSurvivor(ps, b0);
      NextPrime(ps, p);
      b := PrefixSurvivors(ps, b0, Handled(c.procs[j - 1], |s|));
      SieveOnce(ps, p, b);
    }
  }

  /** In every interleaving, the k-th process of the chain prints the k-th prime. */
  lemma PrintsPrimes(cs: seq<Chain>, ls: seq<Step>, n: nat, k: nat)
    requires IsRun(cs, ls) && Init(cs[0]) && n <= |ls| && k < |cs[n].procs| && HasPrime(cs[n].procs[k])
    ensures FirstPrimes(Printed(cs[n], k + 1))
    ensures |cs[n].input| == |cs[n].procs|
    ensures exists b: int :: cs[n].input[k] == Survivors(Printed(cs[n], k), b)
  {
    RunKeepsInv(cs, ls, n);
    hide IsRun;
    var c := cs[n];
    var b := InputSieved(c, k);
    assert ProcOk(c, k);
    hide Survivors, FirstPrimes, Survives;
    FirstSurvivor(Printed(c, k), b);
    NextPrime(Printed(c, k), c.procs[k].p);
  }

  /** There is only one list of the first primes of each length. */
  lemma {:induction false} FirstPrimesUnique(ps: seq<int>, qs: seq<int>)
    requires FirstPrimes(ps) && FirstPrimes(qs) && |ps| == |qs|
    ensures ps == qs
    decreases |ps|
  {
    if ps != [] {
      var n := |ps| - 1;
      assert FirstPrimes(ps[..n]) by { ShorterFirstPrimes(ps, n); }
      assert FirstPrimes(qs[..n]) by { ShorterFirstPrimes(qs, n); }
      FirstPrimesUnique(ps[..n], qs[..n]);
      LastPrime(ps, qs, n);
      LastPrime(qs, ps, n);
      assert ps == ps[..n] + [ps[n]] && qs == qs[..n] + [qs[n]];
    }
  }

  lemma ShorterFirstPrimes(ps: seq<int>, n: nat)
    requires FirstPrimes(ps) && n + 1 == |ps|
    ensures FirstPrimes(ps[..n])
  {
    hide IsPrime;
    forall q: int, i: nat | i < n && IsPrime(q) && q <= ps[i] ensures q in ps[..n] {
      assert q in ps;
      var k: nat :| k < |ps| && ps[k] == q;
      assert k <= i;
      assert ps[..n][k] == q;
    }
  }

  lemma LastPrime(ps: seq<int>, qs: seq<int>, n: nat)
    requires FirstPrimes(ps) && FirstPrimes(qs) && |ps| == |qs| == n + 1 && ps[..n] == qs[..n]
    ensures ps[n] >= qs[n]
  {
    hide IsPrime;
    assert forall k: nat | k < n :: ps[k] == ps[..n][k] == qs[..n][k] == qs[k];
  }
}
