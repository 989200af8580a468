/**
 What a block costs in bits with the lengths of a tree: the sum that gen_bitlen adds to opt_len and static_len
 (dep/zlib/trees.c:486-562).
 */
module TreeCost {

  /** Which symbols have extra bits, and the lengths of the static tree, if there is one. */
  datatype Desc = Desc(extra: seq<int>, base: int, stree: seq<int>)

  function XBits(d: Desc, n: int): int {
    if d.base <= n < d.base + |d.extra| && d.base >= 0 then d.extra[n - d.base] else 0
  }

  /** The bits of the symbols below n that are listed before place h: each as often as it occurs. */
  ghost function Cost(freq: seq<int>, lens: seq<int>, d: Desc, pos: seq<int>, S: int, h: int, n: nat): int
    requires n <= |freq| && n <= |lens| && n <= |pos|
  {
    if n == 0 then 0
    else
      Cost(freq, lens, d, pos, S, h, n - 1)
      + if S < pos[n - 1] < h then freq[n - 1] * (lens[n - 1] + XBits(d, n - 1)) else 0
  }

  /** Nothing is listed yet. */
  lemma {:induction false} CostStart(freq: seq<int>, lens: seq<int>, d: Desc, pos: seq<int>, S: int, n: nat)
    requires n <= |freq| && n <= |lens| && n <= |pos|
    ensures Cost(freq, lens, d, pos, S, S + 1, n) == 0
  {
    if n > 0 { CostStart(freq, lens, d, pos, S, n - 1); }
  }

  /** The symbol at place h is listed with its length. */
  lemma {:induction false} CostNext(freq: seq<int>, lens: seq<int>, d: Desc, pos: seq<int>, S: int, h: int, n: nat,
    y: int,
                                    bits: int)
    requires n <= |freq| && n <= |lens| && n <= |pos| && S < h && 0 <= y < |lens|
    requires forall z {:trigger pos[z]} :: 0 <= z < n && pos[z] == h ==> z == y
    requires y < n ==> pos[y] == h
    ensures Cost(freq, lens[y := bits], d, pos, S, h + 1, n) ==
            Cost(freq, lens, d, pos, S, h, n) + if y < n then freq[y] * (bits + XBits(d, y)) else 0
    decreases n
  {
    hide XBits;
    if n > 0 {
      if y == n - 1 {
        CostSame(freq, lens, d, pos, S, h, n - 1, y, bits);
      } else {
        CostNext(freq, lens, d, pos, S, h, n - 1, y, bits);
      }
    }
  }

  /** No symbol below n is at place h or is y. */
  lemma {:induction false} CostSame(freq: seq<int>, lens: seq<int>, d: Desc, pos: seq<int>, S: int, h: int, n: nat,
    y: int,
                                    bits: int)
    requires n <= |freq| && n <= |lens| && n <= |pos| && n <= y < |lens|
    requires forall z {:trigger pos[z]} :: 0 <= z < n ==> pos[z] != h
    ensures Cost(freq, lens[y := bits], d, pos, S, h + 1, n) == Cost(freq, lens, d, pos, S, h, n)
    decreases n
  {
    hide XBits;
    if n > 0 { CostSame(freq, lens, d, pos, S, h, n - 1, y, bits); }
  }

  /** A listed symbol gets another length. */
  lemma {:induction false} CostChanges(freq: seq<int>, lens: seq<int>, d: Desc, pos: seq<int>, S: int, h: int, n: nat,
    y: int,
                                       bits: int)
    requires n <= |freq| && n <= |lens| && n <= |pos| && 0 <= y < |lens| && (y < n ==> S < pos[y] < h)
    ensures Cost(freq, lens[y := bits], d, pos, S, h, n) ==
            Cost(freq, lens, d, pos, S, h, n) + if y < n then (bits - lens[y]) * freq[y] else 0
    decreases n
  {
    hide XBits;
    if n > 0 {
      CostChanges(freq, lens, d, pos, S, h, n - 1, y, bits);
      if y == n - 1 { Spread(freq[y], bits, lens[y], XBits(d, y)); }
    }
  }

  lemma Spread(f: int, b: int, l: int, x: int)
    ensures f * (b + x) == f * (l + x) + (b - l) * f
  {
  }

  /** No symbol below n is at place h. */
  lemma {:induction false} CostSkips(freq: seq<int>, lens: seq<int>, d: Desc, pos: seq<int>, S: int, h: int, n: nat)
    requires n <= |freq| && n <= |lens| && n <= |pos|
    requires forall z {:trigger pos[z]} :: 0 <= z < n ==> pos[z] != h
    ensures Cost(freq, lens, d, pos, S, h + 1, n) == Cost(freq, lens, d, pos, S, h, n)
    decreases n
  {
    hide XBits;
    if n > 0 { CostSkips(freq, lens, d, pos, S, h, n - 1); }
  }

  /** All bits of a block: each symbol's length and extra bits as often as it occurs. */
  ghost function BlockBits(freq: seq<int>, lens: seq<int>, d: Desc, n: nat): int
    requires n <= |freq| && n <= |lens|
  {
    if n == 0 then 0 else BlockBits(freq, lens, d, n - 1) + freq[n - 1] * (lens[n - 1] + XBits(d, n - 1))
  }

  /** When all that occur are listed, that is what was added up. */
  lemma {:induction false} CostIsAll(freq: seq<int>, lens: seq<int>, d: Desc, pos: seq<int>, S: int, h: int, n: nat)
    requires n <= |freq| && n <= |lens| && n <= |pos|
    requires forall y {:trigger pos[y]} :: 0 <= y < n ==> S < pos[y] < h || freq[y] == 0
    ensures Cost(freq, lens, d, pos, S, h, n) == BlockBits(freq, lens, d, n)
    decreases n
  {
    hide XBits;
    if n > 0 {
      CostIsAll(freq, lens, d, pos, S, h, n - 1);
      assert S < pos[n - 1] < h || freq[n - 1] == 0;
    }
  }

  /** A weight for each occurrence. */
  ghost function Weighted(freq: seq<int>, w: seq<int>, n: nat): int
    requires n <= |freq| && n <= |w|
  {
    if n == 0 then 0 else Weighted(freq, w, n - 1) + freq[n - 1] * w[n - 1]
  }

  lemma {:induction false} WeightedMore(freq: seq<int>, w: seq<int>, y: int, n: nat)
    requires n <= |freq| && n <= |w| && 0 <= y < |freq|
    ensures Weighted(freq[y := freq[y] + 1], w, n) == Weighted(freq, w, n) + if y < n then w[y] else 0
    decreases n
  {
    if n > 0 { WeightedMore(freq, w, y, n - 1); }
  }

  /** Occurrences more cost what they weigh, if that is their length and extra bits. */
  lemma {:induction false} CostsAsWeighted(freq: seq<int>, now: seq<int>, lens: seq<int>, d: Desc, w: seq<int>, n: nat)
    requires n <= |freq| && n <= |now| && n <= |lens| && n <= |w|
    requires forall y {:trigger now[y]} :: 0 <= y < n && now[y] != freq[y] ==> w[y] == lens[y] + XBits(d, y)
    ensures BlockBits(now, lens, d, n) - BlockBits(freq, lens, d, n) == Weighted(now, w, n) - Weighted(freq, w, n)
    decreases n
  {
    hide XBits;
    if n > 0 { CostsAsWeighted(freq, now, lens, d, w, n - 1); }
  }

  lemma {:induction false} SameBits(freq: seq<int>, now: seq<int>, lens: seq<int>, d: Desc, n: nat)
    requires n <= |freq| && n <= |now| && n <= |lens|
    requires forall y {:trigger now[y]} :: 0 <= y < n ==> now[y] == freq[y]
    ensures BlockBits(now, lens, d, n) == BlockBits(freq, lens, d, n)
    decreases n
  {
    hide XBits;
    if n > 0 { SameBits(freq, now, lens, d, n - 1); }
  }

  /** One occurrence more of a symbol costs its length and extra bits. */
  lemma {:induction false} OneMore(freq: seq<int>, lens: seq<int>, d: Desc, y: int, n: nat)
    requires n <= |freq| && n <= |lens| && 0 <= y < |freq|
    ensures BlockBits(freq[y := freq[y] + 1], lens, d, n) ==
            BlockBits(freq, lens, d, n) + if y < n then lens[y] + XBits(d, y) else 0
    decreases n
  {
    hide XBits;
    if n > 0 { OneMore(freq, lens, d, y, n - 1); }
  }

  /** The static lengths, where there is a static tree. */
  ghost function StaticCost(freq: seq<int>, d: Desc, pos: seq<int>, S: int, h: int, n: nat): int
    requires n <= |freq| && n <= |pos| && (d.stree != [] ==> n <= |d.stree|)
  {
    if d.stree == [] then 0 else Cost(freq, d.stree, d, pos, S, h, n)
  }
}
