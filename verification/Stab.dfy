/** stab_binsearch (kern/kdebug.c): the search for the debugging entry of one type that covers an
    address, among entries of all types. */
module Stab {

  datatype Stab = Stab(kind: int, value: nat)

  /** Entry i is of the wanted type. */
  predicate Wanted(stabs: seq<Stab>, kind: int, i: int) {
    0 <= i < |stabs| && stabs[i].kind == kind
  }

  /** The entries of the type have increasing values, below the largest address. */
  ghost predicate Increasing(stabs: seq<Stab>, kind: int, left: int, right: int)
    requires 0 <= left && right < |stabs|
  {
    && (forall i: int, j: int | left <= i < j <= right && Wanted(stabs, kind, i) && Wanted(stabs, kind, j) ::
          stabs[i].value < stabs[j].value)
    && (forall i: int | left <= i <= right && Wanted(stabs, kind, i) :: stabs[i].value < 0xFFFF_FFFF)
  }

  /** Some entry of the type has value a. */
  ghost predicate HasValue(stabs: seq<Stab>, kind: int, left: int, right: int, a: nat) {
    exists i: int :: left <= i <= right && Wanted(stabs, kind, i) && stabs[i].value == a
  }

  /** Entry m is the last of the type at or below a, and `end` is just before the next of the type. */
  ghost predicate Covers(stabs: seq<Stab>, kind: int, left: int, right: int, a: nat, m: int, end: int) {
    && left <= m <= end <= right && Wanted(stabs, kind, m) && stabs[m].value <= a
    && (forall i: int | m < i <= end :: !Wanted(stabs, kind, i))
    && (end < right ==> Wanted(stabs, kind, end + 1) && stabs[end + 1].value > a)
  }

  /** All entries of the type are above a; the first of them is just after `end`, and m is what the
      search then gives for the left end. */
  ghost predicate AllAbove(stabs: seq<Stab>, kind: int, left: int, right: int, a: nat, m: int, end: int) {
    && left - 1 <= end < right && Wanted(stabs, kind, end + 1) && stabs[end + 1].value > a
    && (forall i: int | left <= i <= end :: !Wanted(stabs, kind, i))
    && m == if end < left then end else left
  }

  ghost predicate NoneWanted(stabs: seq<Stab>, kind: int, left: int, right: int) {
    forall i: int | left <= i <= right :: !Wanted(stabs, kind, i)
  }

  ghost predicate AnswersFor(stabs: seq<Stab>, kind: int, left: int, right: int, a: nat, m: int, end: int) {
    Covers(stabs, kind, left, right, a, m, end) || AllAbove(stabs, kind, left, right, a, m, end)
  }

  /** Address a is addr, or follows it through values of the type only. */
  ghost predicate Drifts(stabs: seq<Stab>, kind: int, left: int, right: int, addr: nat, a: nat) {
    addr <= a && (addr < a ==> forall x: nat | addr <= x <= a :: HasValue(stabs, kind, left, right, x))
  }

  // ------------------------------------------------------------------
  // The search as a function.
  // ------------------------------------------------------------------

  /** The last entry of the type in [l, m], or l - 1. */
  function Back(stabs: seq<Stab>, kind: int, l: int, m: int): int
    decreases m - l
  {
    if m < l || Wanted(stabs, kind, m) then m else Back(stabs, kind, l, m - 1)
  }

  lemma {:induction false} BackLast(stabs: seq<Stab>, kind: int, l: int, m: int)
    requires l <= m + 1
    ensures var b := Back(stabs, kind, l, m);
            && l - 1 <= b <= m && (b >= l ==> Wanted(stabs, kind, b))
            && forall i: int | b < i <= m :: !Wanted(stabs, kind, i)
    decreases m - l
  {
    if !(m < l || Wanted(stabs, kind, m)) {
      BackLast(stabs, kind, l, m - 1);
    }
  }

  /** The variables of the main loop. */
  datatype Vars = Vars(l: int, r: int, a: nat, regionLeft: int, anyMatches: bool)

  /** The body of the main loop, with trueM the middle and m the entry it falls back to. */
  function Probe(stabs: seq<Stab>, v: Vars, trueM: int, m: int): Vars {
    if m < v.l || m < 0 || m >= |stabs| then v.(l := trueM + 1)
    else if stabs[m].value < v.a then v.(l := trueM + 1, regionLeft := m, anyMatches := true)
    else if stabs[m].value > v.a then v.(r := m - 1, anyMatches := true)
    else v.(l := m, a := v.a + 1, regionLeft := m, anyMatches := true)
  }

  function LoopBody(stabs: seq<Stab>, kind: int, v: Vars): Vars {
    Probe(stabs, v, (v.l + v.r) / 2, Back(stabs, kind, v.l, (v.l + v.r) / 2))
  }

  /** The state after n iterations. */
  function After(stabs: seq<Stab>, kind: int, v: Vars, n: nat): Vars {
    if n == 0 then v else LoopBody(stabs, kind, After(stabs, kind, v, n - 1))
  }

  function Finish(stabs: seq<Stab>, kind: int, v: Vars): (int, int) {
    if !v.anyMatches then (v.regionLeft, v.regionLeft - 1)
    else (if v.r <= v.regionLeft then v.r else Back(stabs, kind, v.regionLeft + 1, v.r), v.r)
  }

  function Start(left: int, right: int, addr: nat): Vars {
    Vars(left, right, addr, left, false)
  }

  /** The search stops after n iterations. */
  predicate Stops(stabs: seq<Stab>, kind: int, left: int, right: int, addr: nat, n: nat) {
    After(stabs, kind, Start(left, right, addr), n).l > After(stabs, kind, Start(left, right, addr), n).r
  }

  /** What the main loop knows: entries before l and after r are on their sides of `target`, the
      address it answers for. */
  ghost predicate Narrowed(stabs: seq<Stab>, kind: int, left: int, right: int, addr: nat, v: Vars, target: nat)
    requires 0 <= left && right < |stabs|
  {
    && left <= v.l <= v.r + 1 && left - 1 <= v.r <= right
    && addr <= v.a <= 0xFFFF_FFFF && target == (if v.a == addr then addr else v.a - 1)
    && Drifts(stabs, kind, left, right, addr, target)
    && (v.a > addr ==> HasValue(stabs, kind, left, right, target))
    && (forall i: int | left <= i < v.l && Wanted(stabs, kind, i) :: stabs[i].value < v.a && stabs[i].value <= target)
    && (forall i: int | v.r < i <= right && Wanted(stabs, kind, i) :: stabs[i].value > target)
    && (v.r < right ==> Wanted(stabs, kind, v.r + 1))
    && (|| v.regionLeft == left
        || (left <= v.regionLeft <= v.r && Wanted(stabs, kind, v.regionLeft) && stabs[v.regionLeft].value <= target))
    && (!v.anyMatches ==>
          (forall i: int | left <= i < v.l :: !Wanted(stabs, kind, i)) && v.r == right && v.regionLeft == left)
    && (v.anyMatches ==> !NoneWanted(stabs, kind, left, right))
  }

  /** The measure of the main loop: an exact match need not shorten the range. */
  function Pending(stabs: seq<Stab>, kind: int, v: Vars): nat {
    if v.l <= v.r && Wanted(stabs, kind, v.l) && stabs[v.l].value >= v.a then 1 else 0
  }

  // One iteration, by its four cases.

  ghost predicate Probing(stabs: seq<Stab>, kind: int, left: int, right: int, addr: nat, v: Vars, target: nat,
                          trueM: int, m: int) {
    && 0 <= left && right < |stabs| && Increasing(stabs, kind, left, right)
    && Narrowed(stabs, kind, left, right, addr, v, target)
    && v.l <= trueM <= v.r && v.l - 1 <= m <= trueM && (m >= v.l ==> Wanted(stabs, kind, m))
    && forall i: int | m < i <= trueM :: !Wanted(stabs, kind, i)
  }

  lemma ProbeNone(stabs: seq<Stab>, kind: int, left: int, right: int, addr: nat, v: Vars, target: nat, trueM: int,
                  m: int)
    requires Probing(stabs, kind, left, right, addr, v, target, trueM, m) && m < v.l
    ensures Narrowed(stabs, kind, left, right, addr, v.(l := trueM + 1), target)
  {
    hide Drifts, HasValue;
  }

  lemma ProbeBelow(stabs: seq<Stab>, kind: int, left: int, right: int, addr: nat, v: Vars, target: nat, trueM: int,
                   m: int)
    requires Probing(stabs, kind, left, right, addr, v, target, trueM, m) && m >= v.l && stabs[m].value < v.a
    ensures Narrowed(stabs, kind, left, right, addr, v.(l := trueM + 1, regionLeft := m, anyMatches := true), target)
  {
    hide Drifts, HasValue;
  }

  lemma ProbeAbove(stabs: seq<Stab>, kind: int, left: int, right: int, addr: nat, v: Vars, target: nat, trueM: int,
                   m: int)
    requires Probing(stabs, kind, left, right, addr, v, target, trueM, m) && m >= v.l && stabs[m].value > v.a
    ensures Narrowed(stabs, kind, left, right, addr, v.(r := m - 1, anyMatches := true), target)
  {
    hide Drifts, HasValue;
  }

  lemma ProbeExact(stabs: seq<Stab>, kind: int, left: int, right: int, addr: nat, v: Vars, target: nat, trueM: int,
                   m: int)
    requires Probing(stabs, kind, left, right, addr, v, target, trueM, m) && m >= v.l && stabs[m].value == v.a
    ensures Narrowed(stabs, kind, left, right, addr, v.(l := m, a := v.a + 1, regionLeft := m, anyMatches := true), v.a)
    ensures m == v.l ==>
              Pending(stabs, kind, v.(l := m, a := v.a + 1, regionLeft := m, anyMatches := true))
                < Pending(stabs, kind, v)
  {
    assert stabs[m].value < 0xFFFF_FFFF;
    Matched(stabs, kind, left, right, addr, target, m);
    assert HasValue(stabs, kind, left, right, v.a);
    hide Drifts, HasValue;
  }

  /** One iteration. */
  lemma ProbeNarrows(stabs: seq<Stab>, kind: int, left: int, right: int, addr: nat, v: Vars, target: nat, trueM: int,
                     m: int)
    returns (target': nat)
    requires Probing(stabs, kind, left, right, addr, v, target, trueM, m)
    ensures var v' := Probe(stabs, v, trueM, m);
            && Narrowed(stabs, kind, left, right, addr, v', target')
            && v'.r - v'.l <= v.r - v.l
            && (v'.r - v'.l == v.r - v.l ==> Pending(stabs, kind, v') < Pending(stabs, kind, v))
  {
    assert v.l >= 0 && (m >= v.l ==> m < |stabs|);
    hide Narrowed, Drifts, HasValue, Increasing, Pending;
    target' := target;
    if m < v.l {
      ProbeNone(stabs, kind, left, right, addr, v, target, trueM, m);
    } else if stabs[m].value < v.a {
      ProbeBelow(stabs, kind, left, right, addr, v, target, trueM, m);
    } else if stabs[m].value > v.a {
      ProbeAbove(stabs, kind, left, right, addr, v, target, trueM, m);
    } else {
      ProbeExact(stabs, kind, left, right, addr, v, target, trueM, m);
      target' := v.a;
    }
  }

  lemma Matched(stabs: seq<Stab>, kind: int, left: int, right: int, addr: nat, target: nat, m: int)
    requires left <= m <= right && Wanted(stabs, kind, m) && Drifts(stabs, kind, left, right, addr, target)
    requires stabs[m].value == target + 1 || (stabs[m].value == target == addr)
    requires stabs[m].value == target + 1 ==> HasValue(stabs, kind, left, right, target)
    ensures Drifts(stabs, kind, left, right, addr, stabs[m].value)
  {
    assert HasValue(stabs, kind, left, right, stabs[m].value);
    hide HasValue;
  }

  /** The body of the main loop. */
  method Iterate(stabs: seq<Stab>, left: int, right: int, kind: int, addr: nat, v0: Vars, ghost target0: nat)
    returns (v: Vars, ghost target: nat)
    requires 0 <= left && right < |stabs| && Increasing(stabs, kind, left, right)
    requires Narrowed(stabs, kind, left, right, addr, v0, target0) && v0.l <= v0.r
    ensures v == LoopBody(stabs, kind, v0) && Narrowed(stabs, kind, left, right, addr, v, target)
    ensures v.r - v.l <= v0.r - v0.l
    ensures (v.r - v.l == v0.r - v0.l ==> Pending(stabs, kind, v) < Pending(stabs, kind, v0))
  {
    hide Drifts, Wanted, HasValue, Increasing, Pending;
    var trueM := (v0.l + v0.r) / 2;
    var m := FindBack(stabs, kind, v0.l, trueM);
    BackLast(stabs, kind, v0.l, trueM);
    target := ProbeNarrows(stabs, kind, left, right, addr, v0, target0, trueM, m);
    v := v0;
    if m < v.l {
      v := v.(l := trueM + 1);
    } else {
      v := v.(anyMatches := true);
      if stabs[m].value < v.a {
        v := v.(regionLeft := m);
        v := v.(l := trueM + 1);
      } else if stabs[m].value > v.a {
        v := v.(r := m - 1);
      } else {
        v := v.(regionLeft := m);
        v := v.(l := m);
        v := v.(a := v.a + 1);
      }
    }
  }

  /** The main loop. */
  method Narrow(stabs: seq<Stab>, left: int, right: int, kind: int, addr: nat)
    returns (v: Vars, iterations: nat, ghost target: nat)
    requires 0 <= left && right < |stabs| && left <= right + 1 && addr <= 0xFFFF_FFFF
    requires Increasing(stabs, kind, left, right)
    ensures Narrowed(stabs, kind, left, right, addr, v, target) && v.l > v.r
    ensures v == After(stabs, kind, Start(left, right, addr), iterations)
  {
    v := Vars(left, right, addr, left, false);
    iterations := 0;
    target := addr;
    assert Narrowed(stabs, kind, left, right, addr, v, target);
    hide Narrowed, Increasing, Pending, LoopBody;
    while v.l <= v.r
      invariant Narrowed(stabs, kind, left, right, addr, v, target)
      invariant v == After(stabs, kind, Start(left, right, addr), iterations)
      decreases v.r - v.l, Pending(stabs, kind, v)
    {
      v, target := Iterate(stabs, left, right, kind, addr, v, target);
      iterations := iterations + 1;
    }
  }

  /** The loop that finds the rightmost entry before the right end. */
  method Rightmost(stabs: seq<Stab>, kind: int, regionLeft: int, regionRight: int) returns (l: int)
    requires 0 <= regionLeft && regionRight < |stabs|
    ensures l == if regionRight <= regionLeft then regionRight else Back(stabs, kind, regionLeft + 1, regionRight)
  {
    l := regionRight;
    while l > regionLeft && stabs[l].kind != kind
      invariant regionLeft <= l <= regionRight || l == regionRight
      invariant regionRight > regionLeft ==>
                  Back(stabs, kind, regionLeft + 1, regionRight) == Back(stabs, kind, regionLeft + 1, l)
    {
      l := l - 1;
    }
  }

  /** What the search makes of the end of its main loop. */
  lemma NarrowedAnswers(stabs: seq<Stab>, kind: int, left: int, right: int, addr: nat, v: Vars, target: nat)
    requires 0 <= left && right < |stabs| && Narrowed(stabs, kind, left, right, addr, v, target) && v.l > v.r
    ensures v.anyMatches <==> !NoneWanted(stabs, kind, left, right)
    ensures !v.anyMatches ==> v.regionLeft == left
    ensures var (m, end) := Finish(stabs, kind, v);
            && (v.anyMatches ==> AnswersFor(stabs, kind, left, right, target, m, end))
            && (m > end <==> !v.anyMatches)
  {
    if v.regionLeft < v.r {
      BackLast(stabs, kind, v.regionLeft + 1, v.r);
    }
  }

  /** Without a value next to addr, the search answers for addr. */
  lemma NoDrift(stabs: seq<Stab>, kind: int, left: int, right: int, addr: nat, a: nat)
    requires Drifts(stabs, kind, left, right, addr, a)
    requires !(HasValue(stabs, kind, left, right, addr) && HasValue(stabs, kind, left, right, addr + 1))
    ensures a == addr
  {
    hide HasValue;
  }

  /** The search, for any address: it answers for that address, or, because an exact match increments
      `addr`, for one that follows it through values of the type only.  It says that there is no such
      entry, by a left end beyond the right end, exactly if the range has none of the type. */
  method StabBinsearch(stabs: seq<Stab>, left: int, right: int, kind: int, addr: nat)
    returns (regionLeft: int, regionRight: int, iterations: nat)
    requires 0 <= left && right < |stabs| && left <= right + 1 && addr <= 0xFFFF_FFFF
    requires Increasing(stabs, kind, left, right)
    ensures NoneWanted(stabs, kind, left, right) ==> regionLeft == left && regionRight == left - 1
    ensures !NoneWanted(stabs, kind, left, right) ==>
              exists a: nat ::
                && Drifts(stabs, kind, left, right, addr, a)
                && AnswersFor(stabs, kind, left, right, a, regionLeft, regionRight)
    ensures regionLeft > regionRight <==> NoneWanted(stabs, kind, left, right)
    ensures && !NoneWanted(stabs, kind, left, right)
            && !(HasValue(stabs, kind, left, right, addr) && HasValue(stabs, kind, left, right, addr + 1)) ==>
              AnswersFor(stabs, kind, left, right, addr, regionLeft, regionRight)
    ensures Stops(stabs, kind, left, right, addr, iterations)
    ensures (regionLeft, regionRight) == Finish(stabs, kind, After(stabs, kind, Start(left, right, addr), iterations))
  {
    var v;
    ghost var target;
    v, iterations, target := Narrow(stabs, left, right, kind, addr);
    NarrowedAnswers(stabs, kind, left, right, addr, v, target);
    if !(HasValue(stabs, kind, left, right, addr) && HasValue(stabs, kind, left, right, addr + 1)) {
      NoDrift(stabs, kind, left, right, addr, target);
    }
    hide AnswersFor, Back, Drifts, HasValue, NoneWanted, After;
    assert Drifts(stabs, kind, left, right, addr, target);
    if !v.anyMatches {
      regionLeft, regionRight := v.regionLeft, v.regionLeft - 1;
    } else {
      regionRight := v.r;
      regionLeft := Rightmost(stabs, kind, v.regionLeft, regionRight);
    }
  }

  /** The inner loop. */
  method FindBack(stabs: seq<Stab>, kind: int, l: int, m0: int) returns (m: int)
    requires 0 <= l <= m0 < |stabs|
    ensures m == Back(stabs, kind, l, m0)
  {
    m := m0;
    while m >= l && stabs[m].kind != kind
      invariant l - 1 <= m <= m0 && Back(stabs, kind, l, m0) == Back(stabs, kind, l, m)
    {
      m := m - 1;
    }
  }

  /** Two functions one byte apart: the search for the address of the first gives the second. */
  lemma NeighboursConfused()
    ensures var stabs := [Stab(36, 10), Stab(36, 11)];
            && Increasing(stabs, 36, 0, 1) && Covers(stabs, 36, 0, 1, 10, 0, 0)
            && Stops(stabs, 36, 0, 1, 10, 4) && Finish(stabs, 36, After(stabs, 36, Start(0, 1, 10), 4)) == (1, 1)
            && !AnswersFor(stabs, 36, 0, 1, 10, 1, 1)
  {
    NeighboursSearch();
    hide After, Back;
  }

  lemma NeighboursSearch()
    ensures After([Stab(36, 10), Stab(36, 11)], 36, Vars(0, 1, 10, 0, false), 4) == Vars(2, 1, 12, 1, true)
  {
    var stabs := [Stab(36, 10), Stab(36, 11)];
    var v0, v1, v2, v3, v4 :=
      Vars(0, 1, 10, 0, false), Vars(0, 1, 11, 0, true), Vars(1, 1, 11, 0, true), Vars(1, 1, 12, 1, true),
      Vars(2, 1, 12, 1, true);
    assert Back(stabs, 36, 0, 0) == 0 && Back(stabs, 36, 1, 1) == 1;
    hide Back;
    FourIterations(stabs, v0, v1, v2, v3, v4);
  }

  lemma FourIterations(stabs: seq<Stab>, v0: Vars, v1: Vars, v2: Vars, v3: Vars, v4: Vars)
    requires LoopBody(stabs, 36, v0) == v1 && LoopBody(stabs, 36, v1) == v2 && LoopBody(stabs, 36, v2) == v3
    requires LoopBody(stabs, 36, v3) == v4
    ensures After(stabs, 36, v0, 4) == v4
  {
    hide LoopBody;
    assert After(stabs, 36, v0, 0) == v0 && After(stabs, 36, v0, 1) == v1 && After(stabs, 36, v0, 2) == v2;
    assert After(stabs, 36, v0, 3) == v3;
  }

  /** An address below every entry of the type: the search does not report that it found none. */
  lemma BelowAllReported()
    ensures var stabs := [Stab(100, 0), Stab(36, 20)];
            && Stops(stabs, 36, 0, 1, 10, 2) && Finish(stabs, 36, After(stabs, 36, Start(0, 1, 10), 2)) == (0, 0)
            && AllAbove(stabs, 36, 0, 1, 10, 0, 0)
  {
    var stabs := [Stab(100, 0), Stab(36, 20)];
    var v0 := Start(0, 1, 10);
    var v1 := Vars(1, 1, 10, 0, false);
    assert Back(stabs, 36, 0, 0) == -1 && LoopBody(stabs, 36, v0) == v1;
    var v2 := Vars(1, 0, 10, 0, true);
    assert Back(stabs, 36, 1, 1) == 1 && LoopBody(stabs, 36, v1) == v2;
    hide LoopBody, Back;
    assert After(stabs, 36, v0, 0) == v0 && After(stabs, 36, v0, 1) == v1;
  }

  /** Neighbouring values need not confuse the search: here the larger ones are ruled out before the
      exact match, so whether they do depends on which entries are probed. */
  lemma NeighboursHarmless()
    ensures var stabs := [Stab(36, 10), Stab(36, 11), Stab(36, 12)];
            && HasValue(stabs, 36, 0, 2, 10) && HasValue(stabs, 36, 0, 2, 11)
            && Stops(stabs, 36, 0, 2, 10, 3)
            && Finish(stabs, 36, After(stabs, 36, Start(0, 2, 10), 3)) == (0, 0)
            && AnswersFor(stabs, 36, 0, 2, 10, 0, 0)
  {
    var stabs := [Stab(36, 10), Stab(36, 11), Stab(36, 12)];
    assert Wanted(stabs, 36, 0) && stabs[0].value == 10 && Wanted(stabs, 36, 1) && stabs[1].value == 11;
    var v0, v1, v2, v3 :=
      Vars(0, 2, 10, 0, false), Vars(0, 0, 10, 0, true), Vars(0, 0, 11, 0, true), Vars(1, 0, 11, 0, true);
    assert Back(stabs, 36, 0, 1) == 1 && Back(stabs, 36, 0, 0) == 0;
    hide Back;
    assert LoopBody(stabs, 36, v0) == v1 && LoopBody(stabs, 36, v1) == v2 && LoopBody(stabs, 36, v2) == v3;
    ThreeIterations(stabs, v0, v1, v2, v3);
    hide After, LoopBody;
  }

  lemma ThreeIterations(stabs: seq<Stab>, v0: Vars, v1: Vars, v2: Vars, v3: Vars)
    requires LoopBody(stabs, 36, v0) == v1 && LoopBody(stabs, 36, v1) == v2 && LoopBody(stabs, 36, v2) == v3
    ensures After(stabs, 36, v0, 3) == v3
  {
    hide LoopBody;
    assert After(stabs, 36, v0, 0) == v0 && After(stabs, 36, v0, 1) == v1 && After(stabs, 36, v0, 2) == v2;
  }
}
