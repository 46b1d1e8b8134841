/** Singly linked free lists threaded through an array: pp_link in pages[] (kern/pmap.c) and
    env_link in envs[] (kern/env.c). */
module FreeList {
  import opened Mmu

  /** Following the links from `head` gives `l`, without repetition, and then NULL. */
  ghost predicate Spells(link: seq<Option<nat>>, head: Option<nat>, l: seq<nat>)
    decreases |l|
  {
    if l == [] then head == None
    else head == Some(l[0]) && l[0] < |link| && l[0] !in l[1..] && Spells(link, link[l[0]], l[1..])
  }

  lemma SpellsElsewhere(link: seq<Option<nat>>, head: Option<nat>, l: seq<nat>, x: nat, y: Option<nat>)
    requires Spells(link, head, l) && x < |link| && x !in l
    ensures Spells(link[x := y], head, l)
    decreases |l|
  {
    if l != [] {
      SpellsElsewhere(link, link[l[0]], l[1..], x, y);
    }
  }

  lemma SpellsDistinct(link: seq<Option<nat>>, head: Option<nat>, l: seq<nat>)
    requires Spells(link, head, l)
    ensures forall i: nat | i < |l| :: l[i] < |link|
    ensures forall i: nat, j: nat | i < j < |l| :: l[i] != l[j]
    decreases |l|
  {
    if l != [] {
      SpellsDistinct(link, link[l[0]], l[1..]);
      assert l == [l[0]] + l[1..];
    }
  }

  /** The free list is `l`, and pp_link is NULL off it. */
  ghost predicate IsList(link: seq<Option<nat>>, head: Option<nat>, l: seq<nat>) {
    Spells(link, head, l) && forall f: nat | f < |link| && f !in l :: link[f] == None
  }

  lemma ListPush(link: seq<Option<nat>>, head: Option<nat>, l: seq<nat>, x: nat)
    requires IsList(link, head, l) && x < |link| && x !in l
    ensures IsList(link[x := head], Some(x), [x] + l)
  {
    SpellsElsewhere(link, head, l, x, head);
    assert ([x] + l)[1..] == l;
    assert forall f: nat :: f in [x] + l <==> f == x || f in l;
  }

  lemma ListPop(link: seq<Option<nat>>, head: Option<nat>, l: seq<nat>)
    requires IsList(link, head, l) && l != []
    ensures l[0] < |link| && IsList(link[l[0] := None], link[l[0]], l[1..])
  {
    SpellsElsewhere(link, link[l[0]], l[1..], l[0], None);
    assert l == [l[0]] + l[1..];
  }
}
