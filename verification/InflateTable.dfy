/**
 inflate_table: from code lengths to decoding tables, or the finding that they are no code (dep/zlib/inftrees.c:32-303).
 */
module InflateTable {
  import opened Counting
  import opened FlateCode
  import opened Powers
  import opened TableBuilding
  import opened TableDecoding
  import opened TableSpace

  const ENOUGH_LENS := 852
  const ENOUGH_DISTS := 592

  /** The lengths of the symbols, as the caller assures them. */
  ghost predicate Legal(lens: seq<int>, t: CodeType) {
    Lengths(lens) && |lens| <= SymbolLimit(t)
  }

  /** How many symbols have each length, those absent among them. */
  method CountLengths(lens: array<int>, codes: int, ghost L: seq<int>) returns (count: array<int>)
    requires 0 <= codes <= lens.Length && L == lens[..codes] && Lengths(L)
    ensures fresh(count) && count.Length == 16 && forall l {:trigger count[l]} :: 0 <= l < 16 ==>
      count[l] == Count(L, l)
  {
    hide Count;
    count := new int[16];
    for l := 0 to 16
      invariant forall k {:trigger count[k]} :: 0 <= k < l ==> count[k] == 0
    {
      count[l] := 0;
    }
    assert L[..0] == [];
    for sym := 0 to codes
      invariant forall l {:trigger count[l]} :: 0 <= l < 16 ==> count[l] == Count(L[..sym], l)
    {
      forall l
        ensures Count(L[..sym + 1], l) == Count(L[..sym], l) + if L[sym] == l then 1 else 0
      {
        CountStep(L, sym, l);
      }
      assert lens[sym] == L[sym];
      count[lens[sym]] := count[lens[sym]] + 1;
    }
    assert L[..codes] == L;
  }

  /** Whether the lengths are over-subscribed, or leave something over where that is not allowed. */
  method CheckLengths(count: array<int>, t: CodeType, max: int, ghost cnt: seq<int>) returns (bad: bool)
    requires count.Length == 16 == |cnt| && forall l {:trigger cnt[l]} :: 1 <= l < 16 ==> cnt[l] == count[l] >= 0
    ensures bad <==> Used(cnt, 15) > Pow2(15) || (Used(cnt, 15) < Pow2(15) && (t.Codes? || max != 1))
  {
    hide Used, Pow2;
    var left, len := 1, 1;
    LeftOver(cnt, 1);
    while len <= 15
      invariant 1 <= len <= 16 && 0 <= left == Pow2(len - 1) - Used(cnt, len - 1)
    {
      left := left * 2;
      left := left - count[len];
      LeftOver(cnt, len);
      if left < 0 { return true; }
      len := len + 1;
    }
    bad := left > 0 && (t.Codes? || max != 1);
  }

  /** What one more length takes, and that lengths in excess stay so. */
  lemma LeftOver(cnt: seq<int>, len: nat)
    requires 1 <= len <= 15 && |cnt| == 16 && forall l {:trigger cnt[l]} :: 1 <= l < 16 ==> cnt[l] >= 0
    ensures Pow2(0) - Used(cnt, 0) == 1
    ensures Pow2(len) - Used(cnt, len) == 2 * (Pow2(len - 1) - Used(cnt, len - 1)) - cnt[len]
    ensures Used(cnt, len) > Pow2(len) ==> Used(cnt, 15) > Pow2(15)
  {
    if Used(cnt, 15) <= Pow2(15) {
      hide Used, Pow2;
      UsedFits(cnt, len, 15);
    }
  }

  /** The symbols with a length, in order of length and then of number. */
  ghost predicate Sorted(work: seq<int>, lens: seq<int>, n: int) {
    forall s {:trigger lens[s]} :: 0 <= s < n && s < |lens| && lens[s] != 0 ==>
      0 <= Rank(lens, s) - Count(lens, 0) < |work| && work[Rank(lens, s) - Count(lens, 0)] == s
  }

  /** Where the next symbol of each length goes. */
  ghost predicate Offsets(offs: seq<int>, lens: seq<int>, n: int) {
    |offs| == 16 && 0 <= n <= |lens| && forall l {:trigger offs[l]} ::
      1 <= l < 16 ==> offs[l] == Below(lens, l) - Count(lens, 0) + Count(lens[..n], l)
  }

  lemma RankPlace(lens: seq<int>, s: int)
    requires Lengths(lens) && 0 <= s < |lens| && lens[s] != 0
    ensures 0 <= Rank(lens, s) - Count(lens, 0) < |lens|
      && Rank(lens, s) == Below(lens, lens[s]) + Count(lens[..s], lens[s])
  {
    hide Count, Below;
    RankRange(lens, s);
    BelowEnds(lens, 0, MAX_BITS + 1);
    BelowNext(lens, 0);
    BelowMonotone(lens, 1, lens[s]);
  }

  lemma SortOne(work: seq<int>, lens: seq<int>, offs: seq<int>, n: int)
    requires Lengths(lens) && |work| >= |lens| && n < |lens| && Sorted(work, lens, n) && Offsets(offs, lens, n)
    ensures lens[n] == 0 ==> Sorted(work, lens, n + 1) && Offsets(offs, lens, n + 1)
    ensures lens[n] != 0 ==>
      1 <= lens[n] < 16 && 0 <= offs[lens[n]] < |work| && Sorted(work[offs[lens[n]] := n], lens, n + 1)
    ensures lens[n] != 0 ==> Offsets(offs[lens[n] := offs[lens[n]] + 1], lens, n + 1)
  {
    hide Count, Below, Rank;
    forall l
      ensures Count(lens[..n + 1], l) == Count(lens[..n], l) + if lens[n] == l then 1 else 0
    {
      CountStep(lens, n, l);
    }
    if lens[n] != 0 {
      RankPlace(lens, n);
      forall s | 0 <= s < n && lens[s] != 0 ensures Rank(lens, s) != Rank(lens, n) {
        if lens[s] <= lens[n] { RankOrder(lens, s, n); } else { RankOrder(lens, n, s); }
      }
    }
  }

  method SortSymbols(lens: array<int>, codes: int, count: array<int>, work: array<int>, ghost L: seq<int>)
    requires work != lens && work != count && 0 <= codes <= lens.Length && codes <= work.Length && L == lens[..codes]
      && Lengths(L)
    requires count.Length == 16 && forall l {:trigger count[l]} :: 1 <= l < 16 ==> count[l] == Count(L, l)
    modifies work
    ensures Sorted(work[..], L, |L|)
  {
    hide Count, Below, Sorted, Offsets;
    var offs := new int[16];
    offs[1] := 0;
    OffsetsStart(L);
    for len := 1 to 15
      invariant offs.Length == 16 && forall l {:trigger offs[l]} :: 1 <= l <= len ==>
        offs[l] == Below(L, l) - Count(L, 0)
    {
      BelowNext(L, len);
      offs[len + 1] := offs[len] + count[len];
    }
    OffsetsReady(offs[..], work[..], L);
    for sym := 0 to codes
      invariant lens[..codes] == L && Sorted(work[..], L, sym) && Offsets(offs[..], L, sym)
    {
      ghost var o, w := offs[..], work[..];
      SortOne(w, L, o, sym);
      OffsetsSize(o, L, sym);
      var l := lens[sym];
      assert l == L[sym];
      if l != 0 {
        work[offs[l]] := sym;
        offs[l] := offs[l] + 1;
        assert work[..] == w[o[l] := sym] && offs[..] == o[l := o[l] + 1];
      }
    }
  }

  lemma OffsetsStart(lens: seq<int>)
    requires Lengths(lens)
    ensures Below(lens, 1) == Count(lens, 0)
  {
    BelowEnds(lens, 0, MAX_BITS + 1);
    BelowNext(lens, 0);
  }

  lemma OffsetsReady(offs: seq<int>, work: seq<int>, lens: seq<int>)
    requires |offs| == 16 && forall l {:trigger offs[l]} :: 1 <= l < 16 ==> offs[l] == Below(lens, l) - Count(lens, 0)
    ensures Offsets(offs, lens, 0) && Sorted(work, lens, 0)
  {
    assert lens[..0] == [];
    forall l ensures Count(lens[..0], l) == 0 { }
  }

  lemma OffsetsSize(offs: seq<int>, lens: seq<int>, n: int)
    requires Offsets(offs, lens, n)
    ensures |offs| == 16
  {
  }

  // ----- entries -----------------------------------------------------------------------------------------------------

  /** The places from fill on are done. */
  ghost predicate Stretches(was: seq<Entry>, now: seq<Entry>, next: int, whole: int, fill: int, incr: int, v: int,
                            here: Entry) {
    && |now| == |was| && incr > 0 && 0 <= next && 0 <= fill
    && forall a {:trigger now[a]} :: 0 <= a < |was| ==>
         now[a] == if next + fill <= a < next + whole && (a - next) % incr == v then here else was[a]
  }

  lemma InStretch(d: int, fill: int, incr: int, q: int)
    requires incr > 0 && fill == q * incr && fill <= d < fill + incr
    ensures d % incr == d - fill
  {
    DivIs(d, incr, q, d - fill);
  }

  lemma OneStretch(was: seq<Entry>, now: seq<Entry>, next: int, whole: int, fill: int, incr: int, v: int, here: Entry,
                   q: int)
    requires Stretches(was, now, next, whole, fill + incr, incr, v, here) && fill == q * incr && 0 <= fill
      && fill + incr <= whole
    requires 0 <= v < incr && 0 <= next + v + fill < |now|
    ensures Stretches(was, now[next + v + fill := here], next, whole, fill, incr, v, here)
  {
    var after := now[next + v + fill := here];
    forall a {:trigger after[a]} | 0 <= a < |was|
      ensures after[a] == if next + fill <= a < next + whole && (a - next) % incr == v then here else was[a]
    {
      if next + fill <= a < next + fill + incr {
        InStretch(a - next, fill, incr, q);
      }
      if a != next + v + fill { assert after[a] == now[a]; }
    }
  }

  lemma StretchesFilled(was: seq<Entry>, now: seq<Entry>, next: int, curr: nat, l: nat, v: int, here: Entry)
    requires Stretches(was, now, next, Pow2(curr), 0, Pow2(l), v, here) && next + Pow2(curr) <= |was|
    ensures Filled(was, now, next, curr, v, l, here)
  {
    hide Pow2;
  }

  lemma StretchesStart(was: seq<Entry>, next: int, whole: int, incr: int, v: int, here: Entry)
    requires incr > 0 && 0 <= next && 0 <= whole
    ensures Stretches(was, was, next, whole, whole, incr, v, here)
  {
  }

  lemma OneLess(q: int, incr: int)
    requires incr > 0 && q * incr > 0
    ensures q >= 1 && (q - 1) * incr == q * incr - incr >= 0
  {
    if q >= 1 { assert (q - 1) * incr >= 0; }
  }

  /** Replicates an entry over all places that end in the l bits of v. */
  method Replicate(table: array<Entry>, next: int, curr: nat, v: int, l: nat, here: Entry)
    requires 0 <= next && next + Pow2(curr) <= table.Length && l <= curr && 0 <= v < Pow2(l)
    modifies table
    ensures Filled(old(table[..]), table[..], next, curr, v, l, here)
  {
    hide *;
    var incr := PowerOf(l);
    var fill := PowerOf(curr);
    Pow2Sum(l, curr - l);
    ghost var was, q, whole := table[..], Pow2(curr - l), fill;
    Commutes(incr, q);
    StretchesStart(was, next, whole, incr, v, here);
    while fill != 0
      invariant fill == q * incr && 0 <= fill <= whole && Stretches(was, table[..], next, whole, fill, incr, v, here)
      decreases fill
    {
      OneLess(q, incr);
      ghost var now := table[..];
      fill := fill - incr;
      OneStretch(was, now, next, whole, fill, incr, v, here, q - 1);
      table[next + v + fill] := here;
      assert table[..] == now[next + v + fill := here];
      q := q - 1;
    }
    StretchesFilled(was, table[..], next, curr, l, v, here);
  }

  lemma Commutes(a: int, b: int)
    ensures a * b == b * a
  {
  }

  // ----- the size of a second table ----------------------------------------------------------------------------------

  /** What count holds when r codes of length len and all shorter ones are used up. */
  ghost predicate Remaining(count: seq<int>, lens: seq<int>, len: int, r: int) {
    && |count| == 16 && 1 <= len < 16 && 0 <= r && count[len] == Count(lens, len) - r
    && forall l {:trigger count[l]} :: len < l < 16 ==> count[l] == Count(lens, l)
  }

  /** The strings of L bits, L at least len, taken before the codes of length L that remain. */
  ghost function Taken(cnt: seq<int>, len: int, r: int, L: nat): int
    requires 1 <= len <= L < |cnt|
  {
    if L == len then FirstCode(cnt, L) + r else FirstCode(cnt, L)
  }

  lemma TakenNext(count: seq<int>, lens: seq<int>, len: int, r: int, L: nat)
    requires Remaining(count, lens, len, r) && len <= L < 15
    ensures Taken(CountsOf(lens), len, r, L) + count[L] == Used(CountsOf(lens), L)
    ensures Taken(CountsOf(lens), len, r, L + 1) == 2 * Used(CountsOf(lens), L)
  {
    hide Count;
    var cnt := CountsOf(lens);
    assert cnt[L] == Count(lens, L);
  }

  /** Looks ahead how long the codes with prefix P get: until the codes counted use up all that begins with it. */
  method TableSize(count: array<int>, root: int, len: int, max: int, ghost lens: seq<int>, ghost r: int, ghost P: nat)
    returns (curr: int)
    requires Remaining(count[..], lens, len, r) && 1 <= root < len <= max <= 15
    requires FirstCode(CountsOf(lens), len) + r == P * Pow2(len - root)
    ensures len - root <= curr <= max - root
      && (curr + root == max || (P + 1) * Pow2(curr) <= Used(CountsOf(lens), curr + root))
    ensures curr == len - root || (P + 1) * Pow2(curr - 1) > Used(CountsOf(lens), root + curr - 1)
  {
    hide Count, CountsOf, Used, FirstCode, Pow2;
    ghost var cnt := CountsOf(lens);
    CountsLength(lens);
    curr := len - root;
    var left := PowerOf(curr);
    assert left == (P + 1) * Pow2(curr) - Taken(cnt, len, r, curr + root) by { Distribute(P, 1, Pow2(curr)); }
    while curr + root < max
      invariant len - root <= curr <= max - root && left == (P + 1) * Pow2(curr) - Taken(cnt, len, r, curr + root)
      invariant curr == len - root || (P + 1) * Pow2(curr - 1) > Used(cnt, root + curr - 1)
      decreases max - root - curr
    {
      TakenNext(count[..], lens, len, r, curr + root);
      left := left - count[curr + root];
      if left <= 0 { break; }
      NextPower(P + 1, curr);
      curr := curr + 1;
      left := left * 2;
    }
  }

  lemma CountsLength(lens: seq<int>)
    ensures |CountsOf(lens)| == 16
  {
  }

  lemma NextPower(a: int, n: nat)
    ensures a * Pow2(n + 1) == 2 * (a * Pow2(n))
  {
  }

  // ----- the symbols in order ----------------------------------------------------------------------------------------

  /** sym is the place of the next symbol. */
  ghost predicate InPlace(work: seq<int>, lens: seq<int>, sym: int, len: int, r: int) {
    Sorted(work, lens, |lens|) && sym == Below(lens, len) - Count(lens, 0) + r
  }

  lemma AtPlace(work: seq<int>, lens: seq<int>, sym: int, len: int, r: int, s: int)
    requires InPlace(work, lens, sym, len, r) && NextSymbol(lens, len, r, s)
    ensures 0 <= sym < |work| && work[sym] == s
  {
    assert Rank(lens, s) == Below(lens, len) + r;
  }

  /** The symbol after the last of length len. */
  lemma NextLonger(work: seq<int>, lens: seq<int>, sym: int, len: int, max: int) returns (s: int)
    requires Lengths(lens) && InPlace(work, lens, sym, len, Count(lens, len)) && 1 <= len < max <= MAX_BITS
      && Count(lens, max) > 0
    ensures 0 <= s < |lens| && len < lens[s] <= MAX_BITS && NextSymbol(lens, lens[s], 0, s)
      && InPlace(work, lens, sym, lens[s], 0)
    ensures forall l {:trigger Count(lens, l)} :: len < l < lens[s] ==> Count(lens, l) == 0
  {
    hide Count, Below, Sorted;
    BelowNext(lens, len);
    BelowMonotone(lens, len + 1, max);
    BelowNext(lens, max);
    var p := Below(lens, len + 1);
    s := AtRank(lens, p);
    if lens[s] <= len { BelowMonotone(lens, lens[s] + 1, len + 1); }
    BelowMonotone(lens, len + 1, lens[s]);
    forall l {:trigger Count(lens, l)} | len < l < lens[s] ensures Count(lens, l) == 0 {
      BelowNext(lens, l);
      BelowMonotone(lens, len + 1, l);
      BelowMonotone(lens, l + 1, lens[s]);
    }
  }

  // ----- one symbol --------------------------------------------------------------------------------------------------

  /** All codes that begin with P fit a table of curr bits. */
  ghost predicate Room(lens: seq<int>, root: nat, P: nat, curr: nat) {
    forall u {:trigger lens[u]} ::
      0 <= u < |lens| && Present(lens, u) && root < lens[u] && Prefix(lens, root, u) == P ==> lens[u] <= root + curr
  }

  /** The symbol to enter next goes into the table being filled, as do all others of its prefix. */
  ghost predicate Placed(lens: seq<int>, t: CodeType, root: nat, s: int, curr: nat, sub: bool, P: nat) {
    0 <= s < |lens| && if sub then Belongs(lens, t, root, s, curr, P) && Room(lens, root, P, curr) else lens[s] <= root
  }

  method MakeEntry(t: CodeType, sym: int, bits: int) returns (here: Entry)
    requires 0 <= sym < SymbolLimit(t)
    ensures here == Leaf(t, sym, bits)
  {
    if sym + 1 < MatchFrom(t) {
      here := Entry(0, bits, sym);
    } else if sym >= MatchFrom(t) {
      here := if t.Dists? then Entry(DEXT[sym], bits, DBASE[sym]) else Entry(LEXT[sym - 257], bits, LBASE[sym - 257]);
    } else {
      here := Entry(96, bits, 0);
    }
  }

  lemma ValueFits(lens: seq<int>, s: int, root: nat)
    requires Present(lens, s)
    ensures Value(lens, s) < Pow2(lens[s])
    ensures root < lens[s] ==> Value(lens, s) / Pow2(root) < Pow2(lens[s] - root)
  {
    if root < lens[s] {
      SmallMod(Value(lens, s), Pow2(lens[s]));
      DropRoot(Value(lens, s), root, lens[s] - root);
    }
  }

  /** Enters symbol s in all places of the table being filled that end in its code. */
  method EnterSymbol(table: array<Entry>, t: CodeType, s: int, huff: nat, len: int, root: nat, drop: nat, next: int,
                     curr: nat,
                     ghost lens: seq<int>, ghost r: int, ghost sub: bool, ghost P: nat)
    requires Built(table[..], root, lens, t, len, r, next, curr, sub, P) && NextSymbol(lens, len, r, s)
      && Placed(lens, t, root, s, curr, sub, P)
    requires Present(lens, s) && s < SymbolLimit(t) && huff == Value(lens, s) && drop == (if sub then root else 0)
    modifies table
    ensures Built(table[..], root, lens, t, len, r + 1, next, curr, sub, P)
  {
    hide Leaf, Value, Pow2, Found, Before, Code, Block, Filled, Rev, Count, Earlier, Fits;
    ValueFits(lens, s, root);
    var here := MakeEntry(t, s, len - drop);
    var unit := PowerOf(drop);
    ghost var was := table[..];
    BuiltSpace(was, root, lens, t, len, r, next, curr, sub, P);
    Undivided(huff);
    Replicate(table, next, curr, huff / unit, len - drop, here);
    if sub {
      InSubParts(was, root, lens, t, len, r, next, curr, P);
      SubStep(was, table[..], root, lens, t, len, r, next, curr, P, s);
    } else {
      RootStep(was, table[..], root, lens, t, len, r, next, curr, P, s);
    }
  }

  lemma BuiltSpace(table: seq<Entry>, root: nat, lens: seq<int>, t: CodeType, len: int, r: int, next: int, curr: nat,
                   sub: bool, P: nat)
    requires Built(table, root, lens, t, len, r, next, curr, sub, P)
    ensures Fits(lens, t) && Pow2(root) <= |table| && 0 <= next && next + Pow2(curr) <= |table| && 1 <= root <= MAX_BITS
    ensures !sub ==> next == 0 && curr == root
  {
    hide Found, Before, Pow2, Fits;
  }

  lemma Undivided(h: nat)
    ensures Pow2(0) == 1 && h / 1 == h
  {
  }

  /** The next symbol, its code, and what is left of each length; or the end. */
  method Advance(work: array<int>, lens: array<int>, count: array<int>, huff0: nat, sym0: int, len0: int, max: int,
                 ghost L: seq<int>, ghost t: CodeType, ghost r0: int, ghost s0: int)
      returns (huff: nat, sym: int, len: int, last: bool, ghost r: int, ghost s: int)
    requires work != count && lens != count && |L| <= lens.Length && L == lens[..|L|] && Fits(L, t) && max <= MAX_BITS
      && Count(L, max) > 0 && len0 <= max
    requires NextSymbol(L, len0, r0, s0) && Present(L, s0) && InPlace(work[..], L, sym0, len0, r0)
      && huff0 == Value(L, s0) && Remaining(count[..], L, len0, r0)
    requires r0 < Count(L, len0)
    modifies count
    ensures last ==> len == len0 == max && r == r0 + 1 == Count(L, max) && huff == Rev(Code(L, s0) + 1, len0)
    ensures !last ==>
      NextSymbol(L, len, r, s) && Present(L, s) && InPlace(work[..], L, sym, len, r) && huff == Value(L, s)
      && Remaining(count[..], L, len, r)
    ensures !last ==>
      len0 <= len <= max && r < Count(L, len) && (len == len0 ==> r == r0 + 1)
      && NextCode(Code(L, s0), len0, Code(L, s), len)
    ensures !last ==> forall u {:trigger Before(L, len, r, u)} :: Before(L, len, r, u) ==> Before(L, len0, r0 + 1, u)
  {
    hide Count, Below, Rank, Code, Used, Pow2, Rev, Sorted;
    huff := IncrementReversed(huff0, len0, Code(L, s0));
    sym, len, last, r, s := sym0 + 1, len0, false, r0 + 1, s0;
    ghost var was := count[..];
    count[len] := count[len] - 1;
    assert count[..] == was[len := was[len] - 1];
    RemainingStep(was, L, len, r0, count[..]);
    if count[len] == 0 {
      if len == max {
        last := true;
      } else {
        s := NextLonger(work[..], L, sym, len, max);
        AtPlace(work[..], L, sym, L[s], 0, s);
        len := lens[work[sym]];
        assert len == L[s];
        ToLonger(L, t, len0, s0, s, r0 + 1);
        r := 0;
      }
    } else {
      s := NthOfLength(L, len, r);
      ToSame(L, t, len, s0, s, r);
    }
    if !last { NextReversed(Code(L, s0), len0, Code(L, s), len); }
  }

  lemma RemainingStep(count: seq<int>, lens: seq<int>, len: int, r: int, after: seq<int>)
    requires Remaining(count, lens, len, r) && after == count[len := count[len] - 1]
    ensures Remaining(after, lens, len, r + 1)
    ensures forall l {:trigger Remaining(after, lens, l, 0)} :: len < l < 16 ==> Remaining(after, lens, l, 0)
  {
    hide Count;
    forall l | len < l < 16 ensures Remaining(after, lens, l, 0) {
      assert after[l] == count[l];
      forall k {:trigger after[k]} | l < k < 16 ensures after[k] == Count(lens, k) { assert after[k] == count[k]; }
    }
  }

  lemma CodeIs(lens: seq<int>, t: CodeType, len: int, r: int, s: int)
    requires Fits(lens, t) && NextSymbol(lens, len, r, s)
    ensures Present(lens, s) && Code(lens, s) == FirstCode(CountsOf(lens), len) + r && Count(lens, len) > r
    ensures FirstCode(CountsOf(lens), len) + Count(lens, len) == Used(CountsOf(lens), len)
  {
    hide Count;
    NotBefore(lens, t, len, r, s);
    CountBefore(lens, s);
    assert CountsOf(lens)[len] == Count(lens, len);
  }

  lemma ToLonger(lens: seq<int>, t: CodeType, len: int, s0: int, s: int, r: int)
    requires Fits(lens, t) && NextSymbol(lens, len, r - 1, s0) && r == Count(lens, len) && 0 <= s < |lens|
      && NextSymbol(lens, lens[s], 0, s) && len < lens[s]
    requires forall l {:trigger Count(lens, l)} :: len < l < lens[s] ==> Count(lens, l) == 0
    ensures Present(lens, s0) && Present(lens, s) && NextCode(Code(lens, s0), len, Code(lens, s), lens[s])
      && Count(lens, lens[s]) > 0
    ensures forall u {:trigger Before(lens, lens[s], 0, u)} :: Before(lens, lens[s], 0, u) ==> Before(lens, len, r, u)
  {
    hide Code, Used, FirstCode, Pow2, Count, Fits;
    CodeIs(lens, t, len, r - 1, s0);
    CodeIs(lens, t, lens[s], 0, s);
    FirstAfter(CountsOf(lens), len, lens[s]);
    FitsParts(lens, t);
    forall u {:trigger Before(lens, lens[s], 0, u)} | Before(lens, lens[s], 0, u)
      ensures Before(lens, len, r, u)
    {
      NextLengthIn(lens, len, lens[s], u);
    }
  }

  lemma ToSame(lens: seq<int>, t: CodeType, len: int, s0: int, s: int, r: int)
    requires Fits(lens, t) && NextSymbol(lens, len, r - 1, s0) && NextSymbol(lens, len, r, s)
    ensures Present(lens, s0) && Present(lens, s) && NextCode(Code(lens, s0), len, Code(lens, s), len)
      && Count(lens, len) > r
  {
    CodeIs(lens, t, len, r - 1, s0);
    CodeIs(lens, t, len, r, s);
    assert Pow2(0) == 1;
    hide Code, Used, FirstCode, Pow2, Count;
  }

  // ----- all symbols -------------------------------------------------------------------------------------------------

  /** The table for a new prefix: behind the last one, of the size its codes need, and linked from the root. */
  method OpenTable(table: array<Entry>, count: array<int>, root: nat, len: int, max: int, huff: nat, next0: int,
                   curr0: nat,
                   ghost lens: seq<int>, ghost t: CodeType, ghost r: int, ghost s: int, ghost sub: bool, ghost P: nat,
                     limit: int)
      returns (full: bool, next: int, curr: int)
    requires table.Length >= limit && Built(table[..], root, lens, t, len, r, next0, curr0, sub, P)
      && NextSymbol(lens, len, r, s) && Present(lens, s)
    requires huff == Value(lens, s) && Remaining(count[..], lens, len, r) && 1 <= root < len <= max <= MAX_BITS
      && (forall u {:trigger lens[u]} :: 0 <= u < |lens| ==> lens[u] <= max)
    requires (sub ==> P < Prefix(lens, root, s)) && Code(lens, s) == Prefix(lens, root, s) * Pow2(len - root)
    requires Used(CountsOf(lens), MAX_BITS) == Pow2(MAX_BITS)
    modifies table
    ensures next == next0 + Pow2(curr0) && 0 <= curr && Pow2(curr) == Size(lens, root, Prefix(lens, root, s))
    ensures full <==> next + Pow2(curr) > limit
    ensures !full ==>
      Built(table[..], root, lens, t, len, r, next, curr, true, Prefix(lens, root, s))
      && Placed(lens, t, root, s, curr, true, Prefix(lens, root, s))
  {
    hide Leaf, Value, Pow2, Found, Before, Code, Block, Rev, Count, Earlier, Fits, Prefix, Used, CountsOf, FirstCode;
    ghost var p := Prefix(lens, root, s);
    ghost var was := table[..];
    BuiltSpace(was, root, lens, t, len, r, next0, curr0, sub, P);
    CodeIs(lens, t, len, r, s);
    NotBefore(lens, t, len, r, s);
    var whole := PowerOf(curr0);
    next := next0 + whole;
    curr := TableSize(count, root, len, max, lens, r, p);
    EnoughRoom(lens, t, root, p, curr, max);
    JustRoom(lens, t, root, s, curr);
    var size := PowerOf(curr);
    full := next + size > limit;
    if !full {
      var rootSize := PowerOf(root);
      LinkPlace(lens, root, s);
      var low := huff % rootSize;
      NewTable(was, root, lens, t, len, r, next0, curr0, sub, P, s, next, curr);
      table[low] := Entry(curr, root, next);
      assert table[..] == was[low := Entry(curr, root, next)];
    }
  }

  lemma JustRoom(lens: seq<int>, t: CodeType, root: nat, s: int, curr: nat)
    requires Fits(lens, t) && Used(CountsOf(lens), MAX_BITS) == Pow2(MAX_BITS) && Present(lens, s) && root < lens[s]
    requires lens[s] <= root + curr <= MAX_BITS && Room(lens, root, Prefix(lens, root, s), curr)
    requires curr == lens[s] - root
      || (Prefix(lens, root, s) + 1) * Pow2(curr - 1) > Used(CountsOf(lens), root + curr - 1)
    ensures Pow2(curr) == Size(lens, root, Prefix(lens, root, s))
  {
    hide Code, Used, CountsOf, Pow2, Prefix, Fits, Size;
    SizeIs(lens, t, root, s, curr);
  }

  lemma EnoughRoom(lens: seq<int>, t: CodeType, root: nat, P: nat, curr: nat, max: int)
    requires Fits(lens, t) && 1 <= root && 1 <= curr && curr + root <= max <= 15 && forall u {:trigger lens[u]} ::
      0 <= u < |lens| ==> lens[u] <= max
    requires curr + root == max || (P + 1) * Pow2(curr) <= Used(CountsOf(lens), curr + root)
    ensures Room(lens, root, P, curr)
  {
    hide Code, Used, CountsOf, Pow2, Prefix, Fits;
    forall u {:trigger lens[u]} | 0 <= u < |lens| && Present(lens, u) && root < lens[u] && Prefix(lens, root, u) == P
      ensures lens[u] <= root + curr
    {
      if root + curr < lens[u] { UsedUp(lens, t, root, P, curr + root, u); }
    }
  }

  /**
   The prefix of the next symbol, if it is longer than root bits: that of the table being filled, or a new one past it.
   */
  lemma PrefixGoesOn(lens: seq<int>, t: CodeType, root: nat, s0: int, s: int, curr: nat, sub: bool, P: nat)
    requires Fits(lens, t) && Present(lens, s0) && Present(lens, s)
      && NextCode(Code(lens, s0), lens[s0], Code(lens, s), lens[s]) && root < lens[s]
    requires Placed(lens, t, root, s0, curr, sub, P) && s < SymbolLimit(t) && (sub ==> P < Pow2(root))
    ensures Value(lens, s) % Pow2(root) == Rev(P, root) && sub ==> Placed(lens, t, root, s, curr, sub, P)
    ensures Value(lens, s) % Pow2(root) != Rev(P, root) || !sub ==>
      (sub ==> P < Prefix(lens, root, s)) && Code(lens, s) == Prefix(lens, root, s) * Pow2(lens[s] - root)
  {
    hide Code, Value, Pow2, Rev, Fits, NextCode, Shr;
    NextPrefix(Code(lens, s0), lens[s0], Code(lens, s), lens[s], root);
    LinkPlace(lens, root, s);
    PrefixFits(lens, t, root, s);
    if Value(lens, s) % Pow2(root) == Rev(P, root) && sub { RevInjective(Prefix(lens, root, s), P, root); }
  }

  /** Everything the loop over the symbols keeps. */
  ghost predicate AtSymbol(table: seq<Entry>, work: seq<int>, count: seq<int>, lens: seq<int>, t: CodeType, root: nat,
                           max: int,
                           len: int, r: int, s: int, sym: int, huff: int, next: int, curr: nat, sub: bool, P: nat) {
    && Built(table, root, lens, t, len, r, next, curr, sub, P) && NextSymbol(lens, len, r, s) && Present(lens, s)
         && s < SymbolLimit(t)
    && InPlace(work, lens, sym, len, r) && huff == Value(lens, s) && Remaining(count, lens, len, r)
         && r < Count(lens, len) && len <= max
    && Placed(lens, t, root, s, curr, sub, P)
  }

  /** The longest length in use. */
  ghost predicate Longest(lens: seq<int>, max: int) {
    1 <= max <= MAX_BITS && Count(lens, max) > 0 && forall u {:trigger lens[u]} :: 0 <= u < |lens| ==> lens[u] <= max
  }

  /** The loop that enters all symbols in order, and opens a table for each new prefix of root bits. */
  method FillTables(table: array<Entry>, t: CodeType, work: array<int>, lens: array<int>, count: array<int>, root: nat,
                    min: int, max: int, limit: int,
                    ghost L: seq<int>, ghost s0: int)
      returns (full: bool, huff: nat, next: int, drop: nat, used: int)
    requires work != count && lens != count && |L| <= lens.Length && L == lens[..|L|] && Fits(L, t) && Longest(L, max)
      && limit <= table.Length
    requires 1 <= min <= root <= max && Pow2(root) <= limit && NextSymbol(L, min, 0, s0)
      && InPlace(work[..], L, 0, min, 0) && Remaining(count[..], L, min, 0)
    requires forall u {:trigger L[u]} :: 0 <= u < |L| && L[u] != 0 ==> min <= L[u]
    requires max <= root || Used(CountsOf(L), MAX_BITS) == Pow2(MAX_BITS)
    modifies table, count
    ensures full <==> Needed(L, root, Pow2(root)) > limit
    ensures !full ==> used == Needed(L, root, Pow2(root))
    ensures !full ==> forall s {:trigger L[s]} :: 0 <= s < |L| && L[s] != 0 ==> Found(table[..], root, L, t, s)
    ensures !full ==> 0 <= Used(CountsOf(L), max) && huff == Rev(Used(CountsOf(L), max), max)
    ensures max <= root ==> !full && next == 0 && drop == 0
  {
    hide *;
    LongestParts(L, max);
    full := false;
    huff, next, drop := 0, 0, 0;
    var sym, len := 0, min;
    var curr: nat := root;
    var rootSize := PowerOf(root);
    var low := -1;
    used := rootSize;
    ghost var r, s, sub, P := 0, s0, false, 0;
    LoopStarts(table[..], work[..], count[..], L, t, root, max, min, s0);
    RootNeeded(L, root);
    while true
      invariant L == lens[..|L|]
        && AtSymbol(table[..], work[..], count[..], L, t, root, max, len, r, s, sym, huff, next, curr, sub, P)
      invariant drop == (if sub then root else 0) && low == (if sub then Rev(P, root) else -1)
        && used == next + Pow2(curr) && used == Needed(L, root, if sub then P + 1 else 0) && used <= limit
      decreases max - len, Count(L, len) - r
    {
      AtSymbolParts(table[..], work[..], count[..], L, t, root, max, len, r, s, sym, huff, next, curr, sub, P);
      EnterSymbol(table, t, work[sym], huff, len, root, drop, next, curr, L, r, sub, P);
      var last;
      ghost var len0, r0, s1 := len, r, s;
      huff, sym, len, last, r, s := Advance(work, lens, count, huff, sym, len, max, L, t, r, s);
      if last {
        AllIn(table[..], root, L, t, max, r, next, curr, sub, P);
        LastCode(L, t, max, r0, s1);
        NotInSub(table[..], L, t, root, max, r, s1, next, curr, sub, P);
        AllBefore(L, max, r);
        NoneAfter(table[..], root, L, t, max, r, next, curr, sub, P);
        break;
      }
      BuiltSame(table[..], root, L, t, len0, r0 + 1, next, curr, sub, P, len, r);
      NotBefore(L, t, len, r, s);
      StaysPlaced(table[..], L, t, root, len0, len, r, s1, s, next, curr, sub, P);
      if len > root && huff % rootSize != low {
        LinkPlace(L, root, s);
        low := huff % rootSize;
        drop := root;
        OneBetween(table[..], root, L, t, len, r, next, curr, sub, P, s);
        full, next, curr := OpenTable(table, count, root, len, max, huff, next, curr, L, t, r, s, sub, P, limit);
        var size := PowerOf(curr);
        used := used + size;
        if full { return; }
        sub, P := true, Prefix(L, root, s);
      }
      AtSymbolAgain(table[..], work[..], count[..], L, t, root, max, len, r, s, sym, huff, next, curr, sub, P);
    }
  }

  lemma IsLong(lens: seq<int>, root: nat, s: int)
    requires Present(lens, s) && root < lens[s]
    ensures Long(lens, root, s)
  {
  }

  lemma NeededOne(lens: seq<int>, root: nat, p: nat)
    ensures Needed(lens, root, p + 1) == Needed(lens, root, p) + Size(lens, root, p)
  {
    hide Size, Pow2;
  }

  lemma RootNeeded(lens: seq<int>, root: nat)
    ensures Needed(lens, root, 0) == Pow2(root)
  {
    hide Pow2;
  }

  lemma AllBefore(lens: seq<int>, max: int, r: int)
    requires r == Count(lens, max) && Longest(lens, max)
    ensures forall s {:trigger Before(lens, max, r, s)} :: 0 <= s < |lens| && lens[s] != 0 ==> Before(lens, max, r, s)
  {
    forall s {:trigger Before(lens, max, r, s)} | 0 <= s < |lens| && lens[s] != 0 ensures Before(lens, max, r, s) {
      CountBefore(lens, s);
    }
  }

  /** The table to open comes next in what is needed, and there is more to come. */
  lemma OneBetween(table: seq<Entry>, root: nat, lens: seq<int>, t: CodeType, len: int, r: int, next: int, curr: nat,
                   sub: bool, P: nat, s: int)
    requires Built(table, root, lens, t, len, r, next, curr, sub, P) && NextSymbol(lens, len, r, s)
    requires Present(lens, s) && root < lens[s] && (sub ==> P < Prefix(lens, root, s))
    ensures var p := Prefix(lens, root, s);
      p < Pow2(root) && Needed(lens, root, p + 1) == Needed(lens, root, if sub then P + 1 else 0) + Size(lens, root, p)
      && Needed(lens, root, p + 1) <= Needed(lens, root, Pow2(root))
  {
    hide *;
    BuiltSpace(table, root, lens, t, len, r, next, curr, sub, P);
    IsLong(lens, root, s);
    NeededOne(lens, root, Prefix(lens, root, s));
    NoneBetween(table, root, lens, t, len, r, next, curr, sub, P, s);
    PrefixFits(lens, t, root, s);
    NeededGrows(lens, root, Prefix(lens, root, s) + 1, Pow2(root));
  }

  lemma LongestParts(lens: seq<int>, max: int)
    requires Longest(lens, max)
    ensures 1 <= max <= MAX_BITS && Count(lens, max) > 0 && forall u {:trigger lens[u]} :: 0 <= u < |lens| ==>
      lens[u] <= max
  {
  }

  lemma AtSymbolParts(table: seq<Entry>, work: seq<int>, count: seq<int>, lens: seq<int>, t: CodeType, root: nat,
                      max: int,
                      len: int, r: int, s: int, sym: int, huff: int, next: int, curr: nat, sub: bool, P: nat)
    requires AtSymbol(table, work, count, lens, t, root, max, len, r, s, sym, huff, next, curr, sub, P)
    ensures Built(table, root, lens, t, len, r, next, curr, sub, P) && NextSymbol(lens, len, r, s) && Present(lens, s)
      && s < SymbolLimit(t)
    ensures InPlace(work, lens, sym, len, r) && 0 <= huff && huff == Value(lens, s) && Remaining(count, lens, len, r)
      && 0 <= r < Count(lens, len) && 0 <= len <= max
    ensures Placed(lens, t, root, s, curr, sub, P) && 0 <= sym < |work| && work[sym] == s && Fits(lens, t)
      && 0 <= s < |lens| && lens[s] == len
  {
    hide Built, Value, Count, InPlace, Placed, Fits;
    AtPlace(work, lens, sym, len, r, s);
    BuiltSpace(table, root, lens, t, len, r, next, curr, sub, P);
  }

  lemma AtSymbolAgain(table: seq<Entry>, work: seq<int>, count: seq<int>, lens: seq<int>, t: CodeType, root: nat,
                      max: int,
                      len: int, r: int, s: int, sym: int, huff: int, next: int, curr: nat, sub: bool, P: nat)
    requires Built(table, root, lens, t, len, r, next, curr, sub, P) && NextSymbol(lens, len, r, s) && Present(lens, s)
      && s < SymbolLimit(t)
    requires InPlace(work, lens, sym, len, r) && huff == Value(lens, s) && Remaining(count, lens, len, r)
      && r < Count(lens, len) && len <= max
    requires Placed(lens, t, root, s, curr, sub, P)
    ensures AtSymbol(table, work, count, lens, t, root, max, len, r, s, sym, huff, next, curr, sub, P)
  {
  }

  lemma LoopStarts(table: seq<Entry>, work: seq<int>, count: seq<int>, lens: seq<int>, t: CodeType, root: nat, max: int,
                   min: int, s: int)
    requires Fits(lens, t) && Longest(lens, max) && 1 <= min <= root <= max && Pow2(root) <= |table|
      && NextSymbol(lens, min, 0, s)
    requires InPlace(work, lens, 0, min, 0) && Remaining(count, lens, min, 0) && forall u {:trigger lens[u]} ::
      0 <= u < |lens| && lens[u] != 0 ==> min <= lens[u]
    ensures AtSymbol(table, work, count, lens, t, root, max, min, 0, s, 0, 0, 0, root, false, 0)
  {
    hide Count, Pow2, Found, Used, InPlace, Remaining, FirstCode, Rev;
    CodeIs(lens, t, min, 0, s);
    NotBefore(lens, t, min, 0, s);
    NothingShorter(lens, min);
    RevZero(min);
    forall u {:trigger Before(lens, min, 0, u)} ensures !Before(lens, min, 0, u) { }
  }

  lemma {:induction false} RevZero(n: nat)
    ensures Rev(0, n) == 0
    decreases n
  {
    if n > 0 { RevZero(n - 1); }
  }

  /** The first code of the shortest length is all zeros. */
  lemma NothingShorter(lens: seq<int>, min: int)
    requires Lengths(lens) && 1 <= min <= MAX_BITS && forall u {:trigger lens[u]} :: 0 <= u < |lens| && lens[u] != 0 ==>
      min <= lens[u]
    ensures FirstCode(CountsOf(lens), min) == 0
  {
    var cnt := CountsOf(lens);
    forall l {:trigger cnt[l]} | 0 < l <= min - 1 ensures cnt[l] == 0 { NoneOfLength(lens, l); }
    UsedToTop(cnt, 0, min - 1);
  }

  lemma {:induction false} NoneOfLength(lens: seq<int>, l: int)
    requires forall u {:trigger lens[u]} :: 0 <= u < |lens| ==> lens[u] != l
    ensures Count(lens, l) == 0
    decreases |lens|
  {
    if lens != [] { NoneOfLength(lens[..|lens| - 1], l); }
  }

  /** In the end every symbol with a length is in. */
  lemma AllIn(table: seq<Entry>, root: nat, lens: seq<int>, t: CodeType, max: int, r: int, next: int, curr: nat,
              sub: bool, P: nat)
    requires Built(table, root, lens, t, max, r, next, curr, sub, P) && r == Count(lens, max) && Longest(lens, max)
    ensures forall s {:trigger lens[s]} :: 0 <= s < |lens| && lens[s] != 0 ==> Found(table, root, lens, t, s)
  {
    hide Found, InSub, Fits, Pow2;
    forall s {:trigger lens[s]} | 0 <= s < |lens| && lens[s] != 0 ensures Found(table, root, lens, t, s) {
      CountBefore(lens, s);
      assert Before(lens, max, r, s);
    }
  }

  lemma NotInSub(table: seq<Entry>, lens: seq<int>, t: CodeType, root: nat, max: int, r: int, s: int, next: int,
                 curr: nat, sub: bool, P: nat)
    requires Built(table, root, lens, t, max, r, next, curr, sub, P) && Placed(lens, t, root, s, curr, sub, P)
      && 0 <= s < |lens| && lens[s] == max
    ensures max <= root ==> !sub && next == 0
  {
    hide Found, InSub, Fits, Pow2, Room;
  }

  lemma LastCode(lens: seq<int>, t: CodeType, max: int, r: int, s: int)
    requires Fits(lens, t) && NextSymbol(lens, max, r, s) && r + 1 == Count(lens, max)
    ensures Present(lens, s) && Code(lens, s) + 1 == Used(CountsOf(lens), max)
  {
    CodeIs(lens, t, max, r, s);
  }

  /** Before a table is opened: what the next symbol asks for. */
  lemma StaysPlaced(table: seq<Entry>, lens: seq<int>, t: CodeType, root: nat, len0: int, len: int, r: int, s0: int,
                    s: int, next: int, curr: nat, sub: bool, P: nat)
    requires Built(table, root, lens, t, len, r, next, curr, sub, P) && Present(lens, s0) && Present(lens, s)
      && lens[s0] == len0 && lens[s] == len && len0 <= len
    requires NextCode(Code(lens, s0), len0, Code(lens, s), len) && Placed(lens, t, root, s0, curr, sub, P)
      && s < SymbolLimit(t)
    ensures Pow2(root) > 0
      && (len <= root || (sub && Value(lens, s) % Pow2(root) == Rev(P, root)) ==>
      Placed(lens, t, root, s, curr, sub, P))
    ensures len > root && (!sub || Value(lens, s) % Pow2(root) != Rev(P, root)) ==>
      (sub ==> P < Prefix(lens, root, s)) && Code(lens, s) == Prefix(lens, root, s) * Pow2(len - root)
  {
    hide Code, Value, Pow2, Rev, Fits, NextCode, Built, Prefix;
    BuiltSpace(table, root, lens, t, len, r, next, curr, sub, P);
    if sub { InSubParts(table, root, lens, t, len, r, next, curr, P); }
    if len > root { PrefixGoesOn(lens, t, root, s0, s, curr, sub, P); }
  }

  // ----- the whole ---------------------------------------------------------------------------------------------------

  /** The entries there are for a table; ENOUGH is not checked for the code length code, whose root table takes all. */
  function Limit(t: CodeType, bits: nat): int {
    match t
    case Codes => Pow2(bits)
    case Lens => ENOUGH_LENS
    case Dists => ENOUGH_DISTS
  }

  ghost predicate NoneUsed(lens: seq<int>) {
    forall s {:trigger lens[s]} :: 0 <= s < |lens| ==> lens[s] == 0
  }

  /** Lengths that are no code: over-subscribed, or incomplete other than a lone code of one bit where that may be. */
  ghost predicate NoCode(lens: seq<int>, t: CodeType) {
    var cnt := CountsOf(lens);
    Used(cnt, MAX_BITS) > Pow2(MAX_BITS)
      || (Used(cnt, MAX_BITS) < Pow2(MAX_BITS) && (t.Codes? || exists s :: 0 <= s < |lens| && lens[s] > 1))
  }

  /** The longest length in use, 0 if none is. */
  method LongestUsed(count: array<int>, ghost lens: seq<int>) returns (max: int)
    requires count.Length == 16 && Lengths(lens) && forall l {:trigger count[l]} :: 0 <= l < 16 ==>
      count[l] == Count(lens, l)
    ensures 0 <= max <= MAX_BITS && (max == 0 <==> NoneUsed(lens)) && (max > 0 ==> Longest(lens, max))
  {
    hide Count;
    max := 15;
    while max >= 1
      invariant 0 <= max <= 15 && forall u {:trigger lens[u]} :: 0 <= u < |lens| ==> lens[u] <= max
    {
      if count[max] != 0 { break; }
      forall u {:trigger lens[u]} | 0 <= u < |lens| ensures lens[u] <= max - 1 { CountBefore(lens, u); }
      max := max - 1;
    }
    if max > 0 {
      ghost var s := NthOfLength(lens, max, 0);
    }
  }

  /** The shortest length in use, and the first symbol that has it. */
  method ShortestUsed(count: array<int>, ghost lens: seq<int>, max: int) returns (min: int, ghost first: int)
    requires count.Length == 16 && Lengths(lens) && Longest(lens, max) && forall l {:trigger count[l]} ::
      0 <= l < 16 ==> count[l] == Count(lens, l)
    ensures 1 <= min <= max && NextSymbol(lens, min, 0, first) && forall u {:trigger lens[u]} ::
      0 <= u < |lens| && lens[u] != 0 ==> min <= lens[u]
  {
    hide Count;
    min := 1;
    while min < max
      invariant 1 <= min <= max && forall u {:trigger lens[u]} :: 0 <= u < |lens| && lens[u] != 0 ==> min <= lens[u]
    {
      if count[min] != 0 { break; }
      forall u {:trigger lens[u]} | 0 <= u < |lens| && lens[u] != 0 ensures min + 1 <= lens[u] { CountBefore(lens, u); }
      min := min + 1;
    }
    first := NthOfLength(lens, min, 0);
  }

  lemma LegalLengths(lens: seq<int>, t: CodeType)
    requires Legal(lens, t)
    ensures Lengths(lens) && |lens| <= SymbolLimit(t)
  {
  }

  lemma CountsAre(count: seq<int>, lens: seq<int>)
    requires |count| == 16 && forall l {:trigger count[l]} :: 0 <= l < 16 ==> count[l] == Count(lens, l)
    ensures |CountsOf(lens)| == 16 && forall l {:trigger CountsOf(lens)[l]} :: 1 <= l < 16 ==>
      CountsOf(lens)[l] == count[l] >= 0
  {
    hide Count;
  }

  lemma NoCodeIs(lens: seq<int>, t: CodeType, max: int)
    requires Lengths(lens) && |lens| <= SymbolLimit(t) && Longest(lens, max)
    ensures MAX_BITS == 15 && !NoneUsed(lens)
    ensures NoCode(lens, t) <==>
      Used(CountsOf(lens), 15) > Pow2(15) || (Used(CountsOf(lens), 15) < Pow2(15) && (t.Codes? || max != 1))
    ensures !NoCode(lens, t) ==> Fits(lens, t)
  {
    hide Count, CountsOf, Used, Pow2;
    var s := NthOfLength(lens, max, 0);
    assert lens[s] == max;
    if max > 1 { assert lens[s] > 1; }
  }

  lemma SpaceForTwo(t: CodeType, bits: nat)
    requires 1 <= bits
    ensures 2 <= Limit(t, bits)
  {
    PowGrows(1, bits);
    assert Pow2(1) == 2;
  }

  /** The root table of the code length code fits what was asked for. */
  lemma CodesSpace(lens: seq<int>, max: int, bits: nat, bits0: nat)
    requires Longest(lens, max) && bits <= max && forall s {:trigger lens[s]} :: 0 <= s < |lens| ==> lens[s] <= bits0
    ensures max <= bits0 && Pow2(bits) <= Limit(Codes, bits0)
  {
    var s := NthOfLength(lens, max, 0);
    PowGrows(bits, bits0);
  }

  method SpaceOf(t: CodeType, bits: nat) returns (limit: int)
    ensures limit == Limit(t, bits)
  {
    match t {
      case Codes => limit := PowerOf(bits);
      case Lens => limit := ENOUGH_LENS;
      case Dists => limit := ENOUGH_DISTS;
    }
  }

  lemma StartOfLoop(work: seq<int>, count: seq<int>, lens: seq<int>, t: CodeType, min: int, max: int, first: int)
    requires Lengths(lens) && Sorted(work, lens, |lens|) && 1 <= min <= max && Longest(lens, max) && |count| == 16
    requires forall l {:trigger count[l]} :: 0 <= l < 16 ==> count[l] == Count(lens, l)
    requires forall u {:trigger lens[u]} :: 0 <= u < |lens| && lens[u] != 0 ==> min <= lens[u]
    ensures InPlace(work, lens, 0, min, 0) && Remaining(count, lens, min, 0)
  {
    hide Count, Below, Sorted;
    BelowEnds(lens, 0, MAX_BITS + 1);
    BelowNext(lens, 0);
    NoneBelow(lens, min, 1);
  }

  lemma {:induction false} NoneBelow(lens: seq<int>, min: int, l: int)
    requires 1 <= l <= min && forall u {:trigger lens[u]} :: 0 <= u < |lens| && lens[u] != 0 ==> min <= lens[u]
    ensures Below(lens, min) == Below(lens, l)
    decreases min - l
  {
    if l < min {
      NoneBelow(lens, min, l + 1);
      BelowNext(lens, l);
      NoneOfLength(lens, l);
    }
  }

  /** The code after the last: none if the code is complete, else that of the one bit not used. */
  lemma HuffAtEnd(lens: seq<int>, t: CodeType, max: int, huff: int)
    requires Fits(lens, t) && !NoCode(lens, t) && Longest(lens, max) && 0 <= Used(CountsOf(lens), max)
      && huff == Rev(Used(CountsOf(lens), max), max)
    ensures huff != 0 <==> Used(CountsOf(lens), MAX_BITS) < Pow2(MAX_BITS)
    ensures huff != 0 ==> max == 1 == huff && Count(lens, 1) == 1
  {
    hide Count, NoCode, Used, Pow2, Rev, CountsOf;
    var cnt := CountsOf(lens);
    NoCodeIs(lens, t, max);
    forall l {:trigger cnt[l]} | max < l <= MAX_BITS ensures cnt[l] == 0 { NoneOfLength(lens, l); }
    UsedToTop(cnt, max, MAX_BITS);
    if Used(cnt, MAX_BITS) == Pow2(MAX_BITS) {
      HuffWhole(Used(cnt, max), max);
    } else {
      HuffShort(cnt);
    }
  }

  lemma HuffWhole(used: nat, max: nat)
    requires max <= MAX_BITS && used * Pow2(MAX_BITS - max) == Pow2(MAX_BITS)
    ensures Rev(used, max) == 0
  {
    hide Rev, Pow2;
    WholeFactor(used, max, MAX_BITS - max);
    RevPower(max);
  }

  lemma WholeFactor(a: nat, m: nat, n: nat)
    requires a * Pow2(n) == Pow2(m + n)
    ensures a == Pow2(m)
  {
    hide Pow2;
    Pow2Sum(m, n);
    SameFactor(a, Pow2(m), Pow2(n));
  }

  lemma RevPower(k: nat)
    ensures Rev(Pow2(k), k) == 0
  {
    hide *;
    RevNone(1);
    RevAppended(1, 0, k);
    assert 1 * Pow2(k) == Pow2(k) && 0 + k == k;
  }

  lemma RevNone(c: nat)
    ensures Rev(c, 0) == 0
  {
  }

  lemma HuffShort(cnt: seq<int>)
    requires |cnt| == MAX_BITS + 1 && 0 < cnt[1] && Used(cnt, 1) * Pow2(MAX_BITS - 1) < Pow2(MAX_BITS)
    ensures Used(cnt, 1) == cnt[1] == 1 && Rev(Used(cnt, 1), 1) == 1
  {
    assert Used(cnt, 0) == 0 && Used(cnt, 1) == cnt[1];
    assert Pow2(15) == 2 * Pow2(14);
    assert Rev(1, 1) == 1 by { assert Rev(0, 0) == 0 && Pow2(0) == 1; }
    hide Used, Rev, Pow2;
    SmallFactor(cnt[1], Pow2(14));
  }

  lemma SameFactor(a: nat, b: nat, p: nat)
    requires p > 0 && a * p == b * p
    ensures a == b
  {
    if a > b { Larger(a, b, p); }
    if b > a { Larger(b, a, p); }
  }

  lemma SmallFactor(a: nat, p: nat)
    requires p > 0 && a * p < 2 * p && a > 0
    ensures a == 1
  {
    if a >= 2 { Grows(2, a, p); }
  }

  /** Marking the bit not used leaves the lone code where it is. */
  lemma LoneCode(table: seq<Entry>, lens: seq<int>, t: CodeType, bits: nat, max: int, huff: int)
    requires Fits(lens, t) && Longest(lens, max) && max == huff == bits == 1 && Count(lens, 1) == 1 && 2 <= |table|
    requires forall s {:trigger lens[s]} :: 0 <= s < |lens| && lens[s] != 0 ==> Found(table, bits, lens, t, s)
    ensures forall s {:trigger lens[s]} :: 0 <= s < |lens| && lens[s] != 0 ==>
      Found(table[1 := Entry(64, 1, 0)], bits, lens, t, s)
  {
    hide Found, Fits, Count;
    forall s {:trigger lens[s]} | 0 <= s < |lens| && lens[s] != 0
      ensures Found(table[1 := Entry(64, 1, 0)], bits, lens, t, s)
    {
      assert Found(table, 1, lens, t, s);
      LoneFound(table, lens, t, s);
    }
  }

  lemma LoneFound(table: seq<Entry>, lens: seq<int>, t: CodeType, s: int)
    requires Fits(lens, t) && Count(lens, 1) == 1 && 2 <= |table| && Found(table, 1, lens, t, s) && lens[s] <= 1
    ensures Found(table[1 := Entry(64, 1, 0)], 1, lens, t, s)
  {
    hide Value, Leaf, Block, Code, Fits, Count, Pow2;
    LoneValue(lens, t, s);
    TwoToOne();
    BlockWrite(table, 1, Entry(64, 1, 0), 0, 1, Value(lens, s), 1, Leaf(t, s, 1));
  }

  lemma TwoToOne()
    ensures Pow2(1) == 2
  {
  }

  lemma LoneValue(lens: seq<int>, t: CodeType, s: int)
    requires Fits(lens, t) && Count(lens, 1) == 1 && 0 <= s < |lens| && lens[s] == 1
    ensures Present(lens, s) && Value(lens, s) == 0
  {
    hide Count;
    IsPresent(lens, s);
    CountBefore(lens, s);
    assert Used(CountsOf(lens), 0) == 0;
    assert Code(lens, s) == 0;
    RevZero(1);
  }

  /** The bits asked for, but no more than the longest code has and no fewer than the shortest. */
  ghost predicate RootBits(lens: seq<int>, asked: int, bits: int) {
    && (exists u {:trigger lens[u]} :: 0 <= u < |lens| && 0 < lens[u] <= bits)
    && (exists v {:trigger lens[v]} :: 0 <= v < |lens| && bits <= lens[v])
    && (bits > asked ==> forall u {:trigger lens[u]} :: 0 <= u < |lens| && lens[u] != 0 ==> bits <= lens[u])
    && (bits < asked ==> forall u {:trigger lens[u]} :: 0 <= u < |lens| ==> lens[u] <= bits)
  }

  lemma RootIs(lens: seq<int>, min: int, max: int, asked: int, bits: int, first: int)
    requires Longest(lens, max) && NextSymbol(lens, min, 0, first) && min <= max
    requires forall u {:trigger lens[u]} :: 0 <= u < |lens| && lens[u] != 0 ==> min <= lens[u]
    requires bits == if asked > max then max else if asked < min then min else asked
    ensures RootBits(lens, asked, bits)
  {
    var v := NthOfLength(lens, max, 0);
    assert 0 < lens[first] <= bits && bits <= lens[v];
  }

  /** Lengths that are a code but not complete are all of one bit. */
  lemma MaxRoot(lens: seq<int>, t: CodeType, max: int, bits: nat)
    requires Lengths(lens) && |lens| <= SymbolLimit(t) && Longest(lens, max) && !NoCode(lens, t) && 1 <= bits
    ensures max <= bits || Used(CountsOf(lens), MAX_BITS) == Pow2(MAX_BITS)
  {
    hide NoCode, Used, Pow2, CountsOf, Count;
    NoCodeIs(lens, t, max);
  }

  /**
   inflate_table. It refuses just the lengths that are no code. Unless the space given would not do, it leaves tables
   that find every symbol with a length; a lone one-bit code leaves the other bit marked as invalid.
   */
  method InflateTable(t: CodeType, lens: array<int>, codes: int, table: array<Entry>, bits0: int, work: array<int>)
    returns (ret: int, bits: nat, used: int)
    requires lens != work && 0 <= codes <= lens.Length && codes <= work.Length && 1 <= bits0 <= MAX_BITS
    requires Legal(lens[..codes], t) && Limit(t, bits0) <= table.Length
      && (t.Codes? ==> forall s {:trigger lens[s]} :: 0 <= s < codes ==> lens[s] <= bits0)
    modifies table, work
    ensures -1 <= ret <= 1 && (t.Codes? ==> ret != 1)
    ensures !NoneUsed(lens[..codes]) && ret != -1 ==>
      RootBits(lens[..codes], bits0, bits)
      && (ret == 1 <==> Needed(lens[..codes], bits, Pow2(bits)) > Limit(t, bits0))
    ensures !NoneUsed(lens[..codes]) && ret == 0 ==> used == Needed(lens[..codes], bits, Pow2(bits))
    ensures NoneUsed(lens[..codes]) ==>
      ret == 0 && bits == 1 && used == 2 && 2 <= table.Length && table[0] == table[1] == Entry(64, 1, 0)
    ensures !NoneUsed(lens[..codes]) ==> (ret == -1 <==> NoCode(lens[..codes], t))
    ensures !NoneUsed(lens[..codes]) && ret == 0 ==>
      1 <= bits <= MAX_BITS && forall s {:trigger lens[s]} :: 0 <= s < codes && lens[s] != 0 ==>
      Found(table[..], bits, lens[..codes], t, s)
    ensures !NoneUsed(lens[..codes]) && ret == 0 && Used(CountsOf(lens[..codes]), MAX_BITS) < Pow2(MAX_BITS) ==>
      bits == 1 && 2 <= table.Length && table[1] == Entry(64, 1, 0)
  {
    hide *;
    ghost var L := lens[..codes];
    LegalLengths(L, t);
    var count := CountLengths(lens, codes, L);
    bits := bits0;
    var max := LongestUsed(count, L);
    if bits > max { bits := max; }
    if max == 0 {
      SpaceForTwo(t, bits0);
      table[0] := Entry(64, 1, 0);
      table[1] := Entry(64, 1, 0);
      return 0, 1, 2;
    }
    var min;
    ghost var first;
    min, first := ShortestUsed(count, L, max);
    if bits < min { bits := min; }
    ghost var cnt := CountsOf(L);
    CountsAre(count[..], L);
    var bad := CheckLengths(count, t, max, cnt);
    NoCodeIs(L, t, max);
    if bad { return -1, bits, 0; }
    MaxRoot(L, t, max, bits);
    RootIs(L, min, max, bits0, bits, first);
    SortSymbols(lens, codes, count, work, L);
    var rootSize := PowerOf(bits);
    var limit := SpaceOf(t, bits0);
    if t.Codes? { CodesSpace(L, max, bits, bits0); }
    NeededGrows(L, bits, 0, rootSize);
    if rootSize > limit { return 1, bits, 0; }
    StartOfLoop(work[..], count[..], L, t, min, max, first);
    var full, huff, next, drop;
    full, huff, next, drop, used := FillTables(table, t, work, lens, count, bits, min, max, limit, L, first);
    if full { return 1, bits, 0; }
    HuffAtEnd(L, t, max, huff);
    if huff != 0 {
      ghost var was := table[..];
      LoneCode(was, L, t, bits, max, huff);
      table[next + huff] := Entry(64, max - drop, 0);
    }
    ret := 0;
  }

  /**
   With a complete code every stream leads to the one symbol whose code it starts with, and takes just the bits of that
   code.
   */
  lemma EveryStreamFound(table: seq<Entry>, bits: nat, lens: seq<int>, t: CodeType, h: nat) returns (s: nat)
    requires Fits(lens, t) && Used(CountsOf(lens), MAX_BITS) == Pow2(MAX_BITS)
    requires forall u {:trigger lens[u]} :: 0 <= u < |lens| && lens[u] != 0 ==> Found(table, bits, lens, t, u)
    ensures s < |lens| && Starts(h, lens, s) && forall u :: Starts(h, lens, u) ==> u == s
    ensures s < SymbolLimit(t) && Pow2(bits) <= |table|
    ensures var here := table[h % Pow2(bits)]; IsLink(here) ==>
      here.bits == bits && 0 <= here.val && here.val + Pow2(here.op) <= |table|
    ensures Lookup(table, bits, h) == (Leaf(t, s, if lens[s] <= bits then lens[s] else lens[s] - bits), lens[s])
  {
    hide Found, Leaf, Code, Used, Lookup, Pow2;
    s := EveryStream(lens, h);
    LooksUp(table, bits, lens, t, s, h);
    forall u | Starts(h, lens, u) ensures u == s { PrefixFree(lens, s, u, h); }
  }

  /** An entry that takes no more bits than there are is right whatever bits come after. */
  lemma DecidesEarly(table: seq<Entry>, bits: nat, lens: seq<int>, t: CodeType, h: nat, n: nat, h': nat)
    requires Fits(lens, t) && Used(CountsOf(lens), MAX_BITS) == Pow2(MAX_BITS)
    requires forall u {:trigger lens[u]} :: 0 <= u < |lens| && lens[u] != 0 ==> Found(table, bits, lens, t, u)
    requires Pow2(bits) <= |table| && h % Pow2(n) == h' % Pow2(n)
    requires var here := table[h % Pow2(bits)]; IsLink(here) ==>
      here.bits == bits && 0 <= here.val && here.val + Pow2(here.op) <= |table|
    requires Lookup(table, bits, h).1 <= n
    ensures var here := table[h' % Pow2(bits)]; IsLink(here) ==>
      here.bits == bits && 0 <= here.val && here.val + Pow2(here.op) <= |table|
    ensures Lookup(table, bits, h') == Lookup(table, bits, h)
  {
    hide Found, Leaf, Code, Used, Lookup, Pow2;
    var s := EveryStreamFound(table, bits, lens, t, h);
    ModMod(h, lens[s], n);
    ModMod(h', lens[s], n);
    assert Starts(h', lens, s);
    LooksUp(table, bits, lens, t, s, h');
  }
}
