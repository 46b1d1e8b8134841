/** The console input ring of kern/console.c. */
module Console {

  const CONSBUFSIZE := 512

  /** The characters stored since boot, each cut to a byte, and how many have been read. */
  datatype Ring = Ring(stored: seq<int>, read: nat)

  /** How many characters can be read: all those pending, unless 512 or more were. */
  function Available(q: Ring): nat
    requires q.read <= |q.stored|
  {
    (|q.stored| - q.read) % CONSBUFSIZE
  }

  /** What cons_getc will return, call by call: the last characters stored. */
  function Readable(q: Ring): (r: seq<int>)
    requires q.read <= |q.stored|
    ensures |r| == Available(q)
  {
    q.stored[|q.stored| - Available(q)..]
  }

  /** The characters that one interrupt stores: the device's, up to its -1, without the zeros. */
  function Kept(chars: seq<int>): seq<int> {
    if chars == [] || chars[0] == -1 then []
    else (if chars[0] == 0 then [] else [chars[0] % 256]) + Kept(chars[1..])
  }

  /** The place of the first -1, or the end. */
  function Stop(chars: seq<int>): (n: nat)
    ensures n <= |chars| && (n < |chars| ==> chars[n] == -1) && forall i: nat | i < n :: chars[i] != -1
  {
    if chars == [] || chars[0] == -1 then 0 else 1 + Stop(chars[1..])
  }

  /** One interrupt stores the nonzero characters before the first -1, all of them, in order, each cut to a
      byte: place[i] is where the i-th of them comes from. */
  lemma KeptPlaces(chars: seq<int>) returns (place: seq<nat>)
    ensures |place| == |Kept(chars)|
    ensures forall i: nat | i < |place| ::
              place[i] < Stop(chars) && chars[place[i]] != 0 && Kept(chars)[i] == chars[place[i]] % 256
    ensures forall i: nat, j: nat | i < j < |place| :: place[i] < place[j]
    ensures forall n: nat | n < Stop(chars) && chars[n] != 0 :: n in place
  {
    place := KeptFrom(chars, 0, Stop(chars));
    assert chars[0..] == chars;
    hide Kept, Stop;
  }

  lemma {:induction false} KeptFrom(chars: seq<int>, k: nat, end: nat) returns (place: seq<nat>)
    requires k <= end <= |chars| && (end < |chars| ==> chars[end] == -1) && forall i: nat | i < end :: chars[i] != -1
    ensures |place| == |Kept(chars[k..])|
    ensures forall i: nat | i < |place| ::
              k <= place[i] < end && chars[place[i]] != 0 && Kept(chars[k..])[i] == chars[place[i]] % 256
    ensures forall i: nat, j: nat | i < j < |place| :: place[i] < place[j]
    ensures forall n: nat | k <= n < end && chars[n] != 0 :: n in place
    decreases end - k
  {
    if k == end {
      place := [];
    } else {
      assert chars[k..][1..] == chars[k + 1..] && chars[k..][0] == chars[k];
      assert Kept(chars[k..]) == (if chars[k] == 0 then [] else [chars[k] % 256]) + Kept(chars[k + 1..]);
      var rest := KeptFrom(chars, k + 1, end);
      hide Kept;
      if chars[k] == 0 {
        assert Kept(chars[k..]) == Kept(chars[k + 1..]);
        place := rest;
      } else {
        place := [k] + rest;
        assert place[0] == k;
        assert forall n: nat | n in rest :: n in place;
      }
    }
  }

  function Interrupted(q: Ring, chars: seq<int>): Ring {
    q.(stored := q.stored + Kept(chars))
  }

  function Got(q: Ring): Ring
    requires q.read <= |q.stored|
  {
    if Available(q) == 0 then q else q.(read := q.read + 1)
  }

  class Cons {
    const buf: array<int>
    var rpos: nat
    var wpos: nat
    ghost var q: Ring

    /** The last 512 characters are in the buffer, and the positions are the counts modulo its size. */
    ghost predicate Ok()
      reads this, buf
    {
      && buf.Length == CONSBUFSIZE && q.read <= |q.stored|
      && wpos == |q.stored| % CONSBUFSIZE && rpos == q.read % CONSBUFSIZE
      && forall i: nat | i < |q.stored| <= i + CONSBUFSIZE :: buf[i % CONSBUFSIZE] == q.stored[i]
    }

    constructor ()
      ensures Ok() && q == Ring([], 0) && fresh(buf)
    {
      buf := new int[CONSBUFSIZE](_ => 0);
      rpos, wpos := 0, 0;
      q := Ring([], 0);
    }

    /** The store in the loop of cons_intr. */
    method StoreChar(c: int)
      requires Ok() && c != 0
      modifies this`wpos, this`q, buf
      ensures Ok() && q == old(q).(stored := old(q.stored) + [c % 256])
    {
      hide Available;
      ghost var n := |q.stored|;
      forall i: nat | i < n <= i + CONSBUFSIZE && i + CONSBUFSIZE != n ensures i % CONSBUFSIZE != n % CONSBUFSIZE {
        SlotsApart(i, n);
      }
      buf[wpos] := c % 256;
      wpos := wpos + 1;
      if wpos == CONSBUFSIZE {
        wpos := 0;
      }
      q := q.(stored := q.stored + [c % 256]);
      NextSlot(n);
    }

    /** cons_intr, for a device routine that returns the characters one by one and then -1. */
    method ConsIntr(chars: seq<int>)
      requires Ok()
      modifies this`wpos, this`q, buf
      ensures Ok() && q == Interrupted(old(q), chars)
    {
      var k := 0;
      assert chars[0..] == chars;
      while k < |chars| && chars[k] != -1
        invariant 0 <= k <= |chars| && Ok() && q.read == old(q.read)
        invariant q.stored + Kept(chars[k..]) == old(q.stored) + Kept(chars)
      {
        assert chars[k..][1..] == chars[k + 1..];
        if chars[k] != 0 {
          StoreChar(chars[k]);
        }
        k := k + 1;
      }
      assert q.stored + [] == q.stored;
    }

    /** cons_getc, with what its polls of the two devices find. */
    method ConsGetc(serial: seq<int>, kbd: seq<int>) returns (c: int)
      requires Ok()
      modifies this, buf
      ensures Ok()
      ensures var q1 := Interrupted(Interrupted(old(q), serial), kbd);
              && q1.read <= |q1.stored|
              && q == Got(q1) && c == if Readable(q1) == [] then 0 else Readable(q1)[0]
    {
      ConsIntr(serial);
      ConsIntr(kbd);
      PositionsApart(q);
      if rpos != wpos {
        c := buf[rpos];
        NextSlot(q.read);
        rpos := rpos + 1;
        if rpos == CONSBUFSIZE {
          rpos := 0;
        }
        q := q.(read := q.read + 1);
        return;
      }
      c := 0;
    }
  }

  lemma SlotsApart(i: nat, n: nat)
    requires i < n < i + CONSBUFSIZE
    ensures i % CONSBUFSIZE != n % CONSBUFSIZE
  {
  }

  lemma NextSlot(n: nat)
    ensures (n + 1) % CONSBUFSIZE == if n % CONSBUFSIZE + 1 == CONSBUFSIZE then 0 else n % CONSBUFSIZE + 1
  {
  }

  /** The positions meet exactly if nothing is available, and the next character is where rpos is. */
  lemma PositionsApart(q: Ring)
    requires q.read <= |q.stored|
    ensures q.read % CONSBUFSIZE == |q.stored| % CONSBUFSIZE <==> Available(q) == 0
    ensures (|q.stored| - Available(q)) % CONSBUFSIZE == q.read % CONSBUFSIZE
  {
  }

  /** Reading takes the first readable character and leaves the others. */
  lemma GotReadable(q: Ring)
    requires q.read <= |q.stored|
    ensures Got(q).read <= |Got(q).stored|
    ensures Readable(Got(q)) == if Readable(q) == [] then [] else Readable(q)[1..]
  {
  }

  /** An interrupt appends to what is readable while fewer than 512 characters are pending; when more
      are, whole rounds of 512 are lost. */
  lemma InterruptedReadable(q: Ring, chars: seq<int>)
    requires q.read <= |q.stored|
    ensures var q' := Interrupted(q, chars);
            && (|q'.stored| - q.read < CONSBUFSIZE ==> Readable(q') == Readable(q) + Kept(chars))
            && Readable(q') == q'.stored[q.read..][(|q'.stored| - q.read) / CONSBUFSIZE * CONSBUFSIZE..]
  {
  }

  // ------------------------------------------------------------------
  // Runs.
  // ------------------------------------------------------------------

  datatype Event = Interrupt(chars: seq<int>) | Getc

  /** The ring after a run, and the characters read. */
  function After(q: Ring, events: seq<Event>): (Ring, seq<int>)
    requires q.read <= |q.stored|
    decreases |events|
  {
    if events == [] then (q, [])
    else
      match events[0]
      case Interrupt(chars) => After(Interrupted(q, chars), events[1..])
      case Getc =>
        if Available(q) == 0 then After(q, events[1..])
        else
          var (q', out) := After(Got(q), events[1..]);
          (q', [Readable(q)[0]] + out)
  }

  /** Fewer than 512 characters are pending at every point of the run. */
  predicate NeverFull(q: Ring, events: seq<Event>)
    requires q.read <= |q.stored|
    decreases |events|
  {
    |q.stored| - q.read < CONSBUFSIZE &&
    (events == [] ||
     match events[0]
     case Interrupt(chars) => NeverFull(Interrupted(q, chars), events[1..])
     case Getc => NeverFull(Got(q), events[1..]))
  }

  /** First in, first out: in a run that never has 512 characters pending, what is read, followed by
      what is still readable, is what was readable followed by what was stored. */
  lemma {:induction false} Fifo(q: Ring, events: seq<Event>)
    requires q.read <= |q.stored| && NeverFull(q, events)
    ensures var (q', out) := After(q, events);
            && q'.read <= |q'.stored| && q.stored <= q'.stored
            && out + Readable(q') == Readable(q) + q'.stored[|q.stored|..]
    decreases |events|
  {
    hide Kept, Available, Readable;
    if events == [] {
      assert q.stored[|q.stored|..] == [];
      assert Readable(q) + [] == Readable(q) == [] + Readable(q);
    } else {
      match events[0] {
        case Interrupt(chars) =>
          var q1 := Interrupted(q, chars);
          Fifo(q1, events[1..]);
          var (q', out) := After(q1, events[1..]);
          assert |q1.stored| - q1.read < CONSBUFSIZE;
          InterruptedReadable(q, chars);
          Tail(q.stored, Kept(chars), q'.stored);
          assert (Readable(q) + Kept(chars)) + q'.stored[|q1.stored|..] ==
                 Readable(q) + (Kept(chars) + q'.stored[|q1.stored|..]);
        case Getc =>
          GotReadable(q);
          NothingAvailable(q);
          Fifo(Got(q), events[1..]);
          var (q', out) := After(Got(q), events[1..]);
          if Available(q) != 0 {
            assert [Readable(q)[0]] + (Readable(q)[1..] + q'.stored[|q.stored|..]) ==
                   Readable(q) + q'.stored[|q.stored|..];
            assert ([Readable(q)[0]] + out) + Readable(q') == [Readable(q)[0]] + (out + Readable(q'));
          }
      }
    }
  }

  lemma NothingAvailable(q: Ring)
    requires q.read <= |q.stored|
    ensures Available(q) == 0 <==> Readable(q) == []
  {
  }

  lemma Tail(s: seq<int>, k: seq<int>, t: seq<int>)
    requires s + k <= t
    ensures t[|s|..] == k + t[|s + k|..]
  {
  }
}
