/**
 The ring of decisions kept for the game master's dump (src/motion/Arbiter.cpp:985-1042): it holds the last
 32 lines recorded since it was enabled, and lists them oldest first.
 */
module DecisionRing {

  const RING_SIZE := 32

  ghost predicate Holds<T>(ring: seq<T>, next: int, count: int, recorded: seq<T>) {
    && |ring| == RING_SIZE && 0 <= next < RING_SIZE
    && next == |recorded| % RING_SIZE
    && count == (if |recorded| < RING_SIZE then |recorded| else RING_SIZE)
    && forall k {:trigger recorded[k]} :: |recorded| - count <= k < |recorded| ==> ring[k % RING_SIZE] == recorded[k]
  }

  lemma HoldsMore<T>(ring: seq<T>, next: int, count: int, recorded: seq<T>, line: T)
    requires Holds(ring, next, count, recorded)
    ensures Holds(ring[next := line], (next + 1) % RING_SIZE,
      if count < RING_SIZE then count + 1 else count, recorded + [line])
  {
    var more := recorded + [line];
    forall k {:trigger more[k]} | |more| - RING_SIZE <= k < |recorded| && 0 <= k ensures k % RING_SIZE != next {
      ApartInRing(k, |recorded|);
    }
  }

  /** Two numbers less than a ring apart fall on different slots. */
  lemma ApartInRing(a: int, b: int)
    requires 0 <= a < b < a + RING_SIZE
    ensures a % RING_SIZE != b % RING_SIZE
  {
  }

  class Ring<T(0)> {
    const slots: array<T>
    var next: int
    var count: int
    ghost var recorded: seq<T>

    ghost predicate Valid()
      reads this, slots
    {
      Holds(slots[..], next, count, recorded)
    }

    constructor ()
      ensures fresh(slots) && Valid() && recorded == []
    {
      slots := new T[RING_SIZE];
      next, count, recorded := 0, 0, [];
    }

    method Record(line: T)
      requires Valid()
      modifies this, slots
      ensures Valid() && recorded == old(recorded) + [line]
    {
      hide Holds;
      HoldsMore(slots[..], next, count, recorded, line);
      HoldsBounds(slots[..], next, count, recorded);
      ghost var s := slots[..];
      slots[next] := line;
      assert slots[..] == s[next := line];
      next := (next + 1) % RING_SIZE;
      if count < RING_SIZE { count := count + 1; }
      recorded := recorded + [line];
    }

    /** The last lines recorded, at most 32 of them, oldest first. */
    method Decisions() returns (out: seq<T>)
      requires Valid()
      ensures out == if |recorded| <= RING_SIZE then recorded else recorded[|recorded| - RING_SIZE..]
    {
      hide Holds;
      var first := if count < RING_SIZE then 0 else next;
      CountFits(slots[..], next, count, recorded);
      ghost var from := |recorded| - count;
      out := [];
      assert recorded[from..from] == [];
      var i := 0;
      while i < count
        invariant 0 <= i <= count && out == recorded[from..from + i]
      {
        NextListed(slots[..], next, count, recorded, first, i, from);
        var place := (first + i) % RING_SIZE;
        out := out + [slots[place]];
        i := i + 1;
      }
      assert recorded[from..from + count] == recorded[from..];
    }
  }

  lemma CountFits<T>(ring: seq<T>, next: int, count: int, recorded: seq<T>)
    requires Holds(ring, next, count, recorded)
    ensures 0 <= count <= |recorded| && count == (if |recorded| < RING_SIZE then |recorded| else RING_SIZE)
  {
  }

  lemma NextListed<T>(ring: seq<T>, next: int, count: int, recorded: seq<T>, first: int, i: int, from: int)
    requires Holds(ring, next, count, recorded) && first == (if count < RING_SIZE then 0 else next) && 0 <= i < count
    requires from == |recorded| - count
    ensures 0 <= (first + i) % RING_SIZE < |ring| && 0 <= from && from + i < |recorded|
    ensures recorded[from..from + (i + 1)] == recorded[from..from + i] + [ring[(first + i) % RING_SIZE]]
  {
    var k := from + i;
    SamePlace(|recorded|, next, count, first, i);
    assert ring[k % RING_SIZE] == recorded[k];
    hide Holds;
    assert recorded[from..k + 1] == recorded[from..k] + [recorded[k]];
  }

  /** Counting on from the oldest line kept. */
  lemma SamePlace(n: int, next: int, count: int, first: int, i: int)
    requires next == n % RING_SIZE && count == (if n < RING_SIZE then n else RING_SIZE) && 0 <= i < count <= n
    requires first == if count < RING_SIZE then 0 else next
    ensures (n - count + i) % RING_SIZE == (first + i) % RING_SIZE
  {
  }

  lemma HoldsBounds<T>(ring: seq<T>, next: int, count: int, recorded: seq<T>)
    requires Holds(ring, next, count, recorded)
    ensures |ring| == RING_SIZE && 0 <= next < RING_SIZE
  {
  }
}
