/**
 The two decoders for the Burrows-Wheeler transform of dep/bzip2/decompress.c: the fast one, which
 packs the successor vector above the bytes in one word array, and the small one, which keeps a
 20-bit vector in two arrays and reverses the one cycle it needs in place.
 Both are proved against the same walk over the last column.
 */
module InverseTransform {
  import opened Permutations
  import opened Rotations
  import opened Counting
  import opened BurrowsWheeler
  import opened Powers

  /** Byte c with number i above it. */
  function Word(c: int, i: int): int {
    c + 256 * i
  }

  lemma WordParts(c: int, i: int)
    requires 0 <= c < 256
    ensures Word(c, i) % 256 == c && Word(c, i) / 256 == i
    ensures 0 <= i < 0x100_0000 ==> 0 <= Word(c, i) < 0x1_0000_0000
  {
  }

  lemma WordByOr(c: nat, i: nat)
    requires c < 256
    ensures BitOr(c, 256 * i) == Word(c, i)
  {
    assert Pow2(4) == 16;
    assert Pow2(8) == 256;
    BitOrShifted(c, i, 8);
  }

  /** cftab holds, for each byte, the number of smaller bytes in l. */
  ghost predicate Cumulative(cftab: seq<int>, l: seq<int>) {
    |cftab| == 257 && forall c :: 0 <= c <= 256 ==> cftab[c] == Below(l, c)
  }

  /**
   The running counts. The checks that each count and each sum lies in the block and that the sums ascend cannot fail.
   */
  method BuildCftab(unzftab: array<int>, cftab: array<int>, nblock: int, ghost l: seq<int>) returns (corrupt: bool)
    requires unzftab.Length == 256 && cftab.Length == 257 && unzftab != cftab && nblock == |l|
    requires Bytes(l) && forall c :: 0 <= c < 256 ==> unzftab[c] == Count(l, c)
    modifies cftab
    ensures !corrupt && Cumulative(cftab[..], l)
  {
    hide Below, Count;
    corrupt := false;
    for i := 0 to 256
      invariant !corrupt
    {
      if unzftab[i] < 0 || unzftab[i] > nblock { corrupt := true; }
    }
    SumCounts(unzftab, cftab, l);
    for i := 0 to 257
      invariant !corrupt && Cumulative(cftab[..], l)
    {
      assert cftab[..][i] == Below(l, i);
      if cftab[i] < 0 || cftab[i] > nblock { corrupt := true; }
    }
    for i := 1 to 257
      invariant !corrupt && Cumulative(cftab[..], l)
    {
      BelowMonotone(l, i - 1, i);
      assert cftab[..][i - 1] == Below(l, i - 1) && cftab[..][i] == Below(l, i);
      if cftab[i - 1] > cftab[i] { corrupt := true; }
    }
  }

  method SumCounts(unzftab: array<int>, cftab: array<int>, ghost l: seq<int>)
    requires unzftab.Length == 256 && cftab.Length == 257 && unzftab != cftab
    requires Bytes(l) && forall c :: 0 <= c < 256 ==> unzftab[c] == Count(l, c)
    modifies cftab
    ensures Cumulative(cftab[..], l)
  {
    hide Below, Count;
    BelowEnds(l, 0, 256);
    cftab[0] := 0;
    var i := 1;
    while i <= 256
      invariant 1 <= i <= 257 && cftab[0] == 0
      invariant forall c :: 1 <= c < i ==> cftab[c] == Count(l, c - 1)
      invariant forall c :: 0 <= c < 256 ==> unzftab[c] == Count(l, c)
    {
      cftab[i] := unzftab[i - 1];
      i := i + 1;
    }
    i := 1;
    while i <= 256
      invariant 1 <= i <= 257
      invariant forall c :: 0 <= c < i ==> cftab[c] == Below(l, c)
      invariant forall c :: i <= c <= 256 ==> cftab[c] == Count(l, c - 1)
    {
      BelowNext(l, i - 1);
      cftab[i] := cftab[i] + cftab[i - 1];
      i := i + 1;
    }
  }

  // ----- the fast form --------------------------------------------------------------------------------

  /** The word array after i entries have been threaded: byte j in the low bits, its successor above. */
  ghost predicate Packed(tt: seq<int>, l: seq<int>, i: int) {
    && |l| <= |tt|
    && forall j :: 0 <= j < |l| ==> tt[j] == if Thread(l, j) < i then Word(l[j], Thread(l, j)) else l[j]
  }

  /** Running positions: where the next entry with byte c goes. */
  ghost predicate Placing(cftab: seq<int>, l: seq<int>, i: int) {
    && 0 <= i <= |l| && |cftab| == 257
    && forall c :: 0 <= c < 256 ==> cftab[c] == Below(l, c) + Count(l[..i], c)
  }

  lemma PlacingStarts(cftab: seq<int>, l: seq<int>)
    requires Cumulative(cftab, l)
    ensures Placing(cftab, l, 0)
  {
    assert l[..0] == [];
  }

  lemma PlacingStep(cftab: seq<int>, l: seq<int>, i: int)
    requires Placing(cftab, l, i) && i < |l| && 0 <= l[i] < 256
    ensures cftab[l[i]] == Rank(l, i) && 0 <= Rank(l, i) < |l|
    ensures Placing(cftab[l[i] := cftab[l[i]] + 1], l, i + 1)
  {
    hide Below, Count;
    RankRange(l, i);
    forall c | 0 <= c < 256 ensures Count(l[..i + 1], c) == Count(l[..i], c) + if l[i] == c then 1 else 0 {
      CountStep(l, i, c);
    }
  }

  lemma PackedByte(tt: seq<int>, l: seq<int>, i: int, j: int)
    requires Packed(tt, l, i) && 0 <= j < |l| <= |tt| && Bytes(l)
    ensures tt[j] % 256 == l[j]
  {
    hide Word, Thread, Rank;
    WordParts(l[j], Thread(l, j));
    SmallMod(l[j]);
  }

  lemma SmallMod(c: int)
    requires 0 <= c < 256
    ensures c % 256 == c
  {
  }

  lemma PackedStep(tt: seq<int>, l: seq<int>, i: int)
    requires Packed(tt, l, i) && 0 <= i < |l| <= |tt|
    ensures 0 <= Rank(l, i) < |l| && tt[Rank(l, i)] == l[Rank(l, i)]
    ensures Packed(tt[Rank(l, i) := Word(l[Rank(l, i)], i)], l, i + 1)
  {
    hide Rank, Below, Count, Word;
    ThreadOfRank(l, i);
    forall j | 0 <= j < |l| && j != Rank(l, i) ensures Thread(l, j) != i { assert Rank(l, Thread(l, j)) == j; }
  }

  lemma PackedStarts(tt: seq<int>, l: seq<int>)
    requires |l| <= |tt| && forall j :: 0 <= j < |l| ==> tt[j] == l[j]
    ensures Packed(tt, l, 0)
  {
  }

  /** Threads the column held in the low bytes of tt. */
  method ThreadFast(tt: array<int>, cftab: array<int>, nblock: int, ghost l: seq<int>)
    requires tt != cftab && nblock == |l| <= tt.Length && Bytes(l)
    requires cftab.Length == 257 && Cumulative(cftab[..], l)
    requires forall j :: 0 <= j < nblock ==> tt[j] == l[j]
    modifies tt, cftab
    ensures Packed(tt[..], l, |l|)
  {
    hide Cumulative, Placing, Packed, Word, Rank, BitOr;
    PlacingStarts(cftab[..], l);
    PackedStarts(tt[..], l);
    var i := 0;
    while i < nblock
      invariant 0 <= i <= nblock
      invariant Packed(tt[..], l, i) && Placing(cftab[..], l, i)
    {
      ghost var words, places := tt[..], cftab[..];
      PackedByte(words, l, i, i);
      PackedStep(words, l, i);
      PlacingStep(places, l, i);
      var uc := tt[i] % 256;
      WordByOr(tt[cftab[uc]], i);
      tt[cftab[uc]] := BitOr(tt[cftab[uc]], 256 * i);
      assert tt[..] == words[Rank(l, i) := Word(l[Rank(l, i)], i)];
      cftab[uc] := cftab[uc] + 1;
      assert cftab[..] == places[uc := places[uc] + 1];
      i := i + 1;
    }
  }

  /** What the threaded words say at a place: its own byte, and the place to go to. */
  lemma PackedWord(tt: seq<int>, l: seq<int>, j: int)
    requires Packed(tt, l, |l|) && 0 <= j < |l| && Bytes(l)
    ensures |l| <= |tt| && tt[j] % 256 == l[j] && tt[j] / 256 == Thread(l, j)
    ensures |l| <= 900000 ==> 0 <= tt[j] < 0x1_0000_0000
  {
    hide Word;
    WordParts(l[j], Thread(l, j));
  }

  /** The fast read: every step checks its place, takes a byte and moves to the successor, for any number of bytes. */
  method ReadFast(tt: array<int>, origPtr: int, count: nat, limit: int, ghost l: seq<int>)
    returns (corrupt: bool, out: seq<int>)
    requires 0 <= origPtr < |l| <= limit && Packed(tt[..], l, |l|) && Bytes(l)
    ensures !corrupt && out == Walk(l, origPtr, count)
  {
    hide Packed;
    ghost var words := tt[..];
    PackedWord(words, l, origPtr);
    var tPos := tt[origPtr] / 256;
    out := [];
    var used := 0;
    ghost var p := origPtr;
    while used < count
      invariant 0 <= used <= count && 0 <= p < |l| && tPos == Thread(l, p)
      invariant out + Walk(l, p, count - used) == Walk(l, origPtr, count)
    {
      if tPos >= limit { return true, out; }
      p := Thread(l, p);
      PackedWord(words, l, p);
      var w := tt[tPos];
      out := out + [w % 256];
      tPos := w / 256;
      used := used + 1;
    }
    corrupt := false;
  }

  // ----- the small form -------------------------------------------------------------------------------

  /** The four bits of entry i: low half of a byte for even i, high half for odd i. */
  function Nibble(x: int, i: int): int {
    if i % 2 == 0 then x % 16 else x / 16 % 16
  }

  function WithNibble(x: nat, i: int, n: nat): nat {
    if i % 2 == 0 then BitOr(n, 16 * (x / 16)) else BitOr(x % 16, 16 * n)
  }

  lemma NibbleLow(x: nat, n: nat)
    requires x < 256 && n < 16
    ensures BitOr(n, 16 * (x / 16)) == n + 16 * (x / 16)
  {
    assert Pow2(4) == 16;
    BitOrShifted(n, x / 16, 4);
  }

  lemma NibbleHigh(x: nat, n: nat)
    requires x < 256 && n < 16
    ensures BitOr(x % 16, 16 * n) == x % 16 + 16 * n
  {
    assert Pow2(4) == 16;
    BitOrShifted(x % 16, n, 4);
  }

  lemma NibbleSet(x: nat, i: int, n: nat)
    requires x < 256 && n < 16
    ensures WithNibble(x, i, n) < 256
    ensures Nibble(WithNibble(x, i, n), i) == n
    ensures forall k {:trigger Nibble(x, k)} :: k % 2 != i % 2 ==> Nibble(WithNibble(x, i, n), k) == Nibble(x, k)
  {
    hide BitOr;
    if i % 2 == 0 {
      NibbleLow(x, n);
      Sixteenths(x / 16, n);
    } else {
      NibbleHigh(x, n);
      Sixteenths(n, x % 16);
    }
  }

  lemma Sixteenths(q: nat, e: nat)
    requires q < 16 && e < 16
    ensures (e + 16 * q) / 16 == q && (e + 16 * q) % 16 == e && q % 16 == q && e + 16 * q < 256
  {
  }

  /** A vector of 20-bit numbers, the low 16 bits in one array and the high four packed in another. */
  class NibbleVector {
    const ll16: array<int>
    const ll4: array<int>

    constructor (size: nat)
      ensures fresh(ll16) && fresh(ll4) && Valid() && ll16.Length == size
    {
      ll16 := new int[size](_ => 0);
      ll4 := new int[(size + 1) / 2](_ => 0);
    }

    ghost predicate Valid()
      reads ll16, ll4
    {
      && ll16 != ll4 && ll16.Length <= 2 * ll4.Length
      && (forall i :: 0 <= i < ll16.Length ==> 0 <= ll16[i] < 0x1_0000)
      && (forall i :: 0 <= i < ll4.Length ==> 0 <= ll4[i] < 256)
    }

    ghost function Entry(i: int): (n: int)
      requires Valid() && 0 <= i < ll16.Length
      reads ll16, ll4
    {
      ll16[i] + 0x1_0000 * Nibble(ll4[i / 2], i)
    }

    /** The numbers stored, in order. */
    ghost function Entries(): (s: seq<int>)
      requires Valid()
      reads ll16, ll4
      ensures |s| == ll16.Length && forall i :: 0 <= i < |s| ==> s[i] == Entry(i)
    {
      seq(ll16.Length, i requires 0 <= i < ll16.Length && Valid() reads ll16, ll4 => Entry(i))
    }

    method Set(i: int, n: int)
      requires Valid() && 0 <= i < ll16.Length && 0 <= n < 0x10_0000
      modifies ll16, ll4
      ensures Valid() && Entries() == old(Entries())[i := n]
      ensures forall k :: 0 <= k < ll16.Length && k != i ==> ll16[k] == old(ll16[k])
    {
      hide WithNibble, Nibble;
      ll16[i] := n % 0x1_0000;
      NibbleSet(ll4[i / 2], i, n / 0x1_0000);
      ll4[i / 2] := WithNibble(ll4[i / 2], i, n / 0x1_0000);
    }

    method Get(i: int) returns (n: int)
      requires Valid() && 0 <= i < ll16.Length
      ensures n == Entries()[i]
    {
      assert Pow2(8) == 256;
      assert Pow2(16) == 0x1_0000;
      var nibble := Nibble(ll4[i / 2], i);
      BitOrShifted(ll16[i], nibble, 16);
      n := BitOr(ll16[i], 0x1_0000 * nibble);
    }
  }

  /** Computes T in place of the column: entry i becomes the stable rank of its byte. */
  method RankSmall(ll: NibbleVector, cftabCopy: array<int>, nblock: int, ghost l: seq<int>)
    requires ll.Valid() && nblock == |l| <= ll.ll16.Length && |l| <= 0x10_0000 && Bytes(l)
    requires cftabCopy.Length == 257 && cftabCopy != ll.ll16 && cftabCopy != ll.ll4 && Cumulative(cftabCopy[..], l)
    requires forall i :: 0 <= i < |l| ==> ll.ll16[i] == l[i]
    modifies ll.ll16, ll.ll4, cftabCopy
    ensures ll.Valid() && forall i :: 0 <= i < |l| ==> ll.Entries()[i] == Rank(l, i)
  {
    hide Cumulative, Placing, Rank;
    PlacingStarts(cftabCopy[..], l);
    var i := 0;
    while i < nblock
      invariant 0 <= i <= nblock && ll.Valid()
      invariant Placing(cftabCopy[..], l, i)
      invariant forall k :: 0 <= k < i ==> ll.Entries()[k] == Rank(l, k)
      invariant forall k :: i <= k < |l| ==> ll.ll16[k] == l[k]
    {
      ghost var places := cftabCopy[..];
      PlacingStep(places, l, i);
      var uc := ll.ll16[i] % 256;
      SmallMod(l[i]);
      ll.Set(i, cftabCopy[uc]);
      cftabCopy[uc] := cftabCopy[uc] + 1;
      assert cftabCopy[..] == places[uc := places[uc] + 1];
      i := i + 1;
    }
  }

  /** path starts at origPtr, each place being the rank of the one before, with no place met twice. */
  ghost predicate Trail(l: seq<int>, path: seq<int>, origPtr: int) {
    && path != [] && path[0] == origPtr
    && (forall m :: 0 <= m < |path| ==> 0 <= path[m] < |l|)
    && (forall m :: 0 < m < |path| ==> path[m] == Rank(l, path[m - 1]))
    && (forall m, k :: 0 <= m < k < |path| ==> path[m] != path[k])
  }

  lemma TrailBounded(l: seq<int>, path: seq<int>, origPtr: int)
    requires Trail(l, path, origPtr)
    ensures |path| <= |l|
  {
    DistinctCount(path);
    var all := Upto(|l|);
    assert Elements(path) <= all;
    assert |all - Elements(path)| == |all| - |Elements(path)|;
  }

  /** The next place is either the start or new. */
  lemma TrailNext(l: seq<int>, path: seq<int>, origPtr: int, j: int)
    requires Trail(l, path, origPtr) && j == Rank(l, path[|path| - 1])
    ensures 0 <= j < |l|
    ensures j != origPtr ==> j !in path && Trail(l, path + [j], origPtr)
  {
    hide Rank;
    RankRange(l, path[|path| - 1]);
    if j != origPtr && j in path {
      var m :| 0 <= m < |path| && path[m] == j;
      assert m > 0 && Rank(l, path[m - 1]) == Rank(l, path[|path| - 1]);
      ThreadOfRank(l, path[m - 1]);
      ThreadOfRank(l, path[|path| - 1]);
      assert false;
    }
  }

  /** Half-way through the reversal: entries along the trail point back, all others are still ranks. */
  ghost predicate Chased(t: seq<int>, l: seq<int>, path: seq<int>, origPtr: int) {
    && |l| <= |t| && Trail(l, path, origPtr)
    && (forall m :: 0 < m < |path| ==> t[path[m]] == path[m - 1])
    && (forall x :: 0 <= x < |l| && x !in path[1..] ==> t[x] == Rank(l, x))
  }

  lemma ChasedStarts(t: seq<int>, l: seq<int>, origPtr: int)
    requires |l| <= |t| && 0 <= origPtr < |l| && forall x :: 0 <= x < |l| ==> t[x] == Rank(l, x)
    ensures Chased(t, l, [origPtr], origPtr)
  {
  }

  lemma ChasedNext(t: seq<int>, l: seq<int>, path: seq<int>, origPtr: int, j: int)
    requires Chased(t, l, path, origPtr) && j == Rank(l, path[|path| - 1])
    ensures 0 <= j < |l| && t[j] == Rank(l, j)
    ensures j != origPtr ==> Chased(t[j := path[|path| - 1]], l, path + [j], origPtr) && |path| < |l|
    ensures j == origPtr ==> Reversed(t[j := path[|path| - 1]], l, path)
  {
    hide Rank;
    TrailNext(l, path, origPtr, j);
    if j != origPtr {
      TrailBounded(l, path + [j], origPtr);
      ChasedGrows(t, l, path, origPtr, j);
    } else {
      CycleClosed(t[j := path[|path| - 1]], l, path, origPtr);
    }
  }

  lemma ChasedGrows(t: seq<int>, l: seq<int>, path: seq<int>, origPtr: int, j: int)
    requires Chased(t, l, path, origPtr) && 0 <= j < |l| && j !in path && Trail(l, path + [j], origPtr)
    ensures Chased(t[j := path[|path| - 1]], l, path + [j], origPtr)
  {
    hide Rank;
    var t', path' := t[j := path[|path| - 1]], path + [j];
    assert path'[1..] == path[1..] + [j];
    forall m | 0 < m < |path'| ensures t'[path'[m]] == path'[m - 1] {
      if m < |path| { assert path[m] in path; }
    }
  }

  /** The cycle through the start has been reversed: on it, entries lead to the threaded place. */
  ghost predicate Reversed(t: seq<int>, l: seq<int>, path: seq<int>) {
    |l| <= |t| && forall x :: x in path ==> 0 <= x < |l| && Thread(l, x) in path && t[x] == Thread(l, x)
  }

  lemma CycleClosed(t: seq<int>, l: seq<int>, path: seq<int>, origPtr: int)
    requires |l| <= |t| && Trail(l, path, origPtr)
    requires origPtr == Rank(l, path[|path| - 1]) && t[origPtr] == path[|path| - 1]
    requires forall m :: 0 < m < |path| ==> t[path[m]] == path[m - 1]
    ensures Reversed(t, l, path)
  {
    hide Rank, Thread;
    forall x | x in path ensures 0 <= x < |l| && Thread(l, x) in path && t[x] == Thread(l, x) {
      var m :| 0 <= m < |path| && path[m] == x;
      if m == 0 {
        ThreadOfRank(l, path[|path| - 1]);
      } else {
        ThreadOfRank(l, path[m - 1]);
      }
    }
  }

  /** Pointer reversal on the cycle of origPtr only. */
  method ReverseCycle(ll: NibbleVector, origPtr: int, ghost l: seq<int>) returns (ghost path: seq<int>)
    requires ll.Valid() && |l| <= ll.ll16.Length && |l| <= 0x10_0000 && 0 <= origPtr < |l|
    requires forall i :: 0 <= i < |l| ==> ll.Entries()[i] == Rank(l, i)
    modifies ll.ll16, ll.ll4
    ensures ll.Valid() && origPtr in path && Reversed(ll.Entries(), l, path)
  {
    hide Rank, Chased, Reversed;
    var i := origPtr;
    var j := ll.Get(i);
    path := [origPtr];
    ChasedStarts(ll.Entries(), l, origPtr);
    while true
      invariant ll.Valid() && Chased(ll.Entries(), l, path, origPtr) && origPtr in path
      invariant path != [] && i == path[|path| - 1] && 0 <= i < |l| && j == Rank(l, i)
      decreases |l| - |path|
    {
      ChasedNext(ll.Entries(), l, path, origPtr, j);
      var tmp := ll.Get(j);
      ll.Set(j, i);
      if j != origPtr { path := path + [j]; }
      i := j;
      j := tmp;
      if i == origPtr { break; }
    }
  }

  /** Binary search for the byte whose run in sorted order contains indx. */
  method IndexIntoF(indx: int, cftab: array<int>, ghost l: seq<int>) returns (nb: int)
    requires cftab.Length == 257 && Cumulative(cftab[..], l) && Bytes(l) && 0 <= indx < |l|
    ensures nb == l[Thread(l, indx)]
  {
    hide Below;
    BelowEnds(l, 0, 256);
    nb := 0;
    var na := 256;
    while true
      invariant 0 <= nb < na - 1 && na <= 256
      invariant Below(l, nb) <= indx < Below(l, na)
      decreases na - nb
    {
      var mid := (nb + na) / 2;
      if indx >= cftab[mid] { nb := mid; } else { na := mid; }
      if na - nb == 1 { break; }
    }
    var c := l[Thread(l, indx)];
    if c < nb { BelowMonotone(l, c + 1, nb); }
    if nb < c { BelowMonotone(l, nb + 1, c); }
  }

  /** The small read gives the same bytes as the fast one, for any column and any start. */
  method ReadSmall(ll: NibbleVector, cftab: array<int>, origPtr: int, count: nat, limit: int, ghost l: seq<int>,
                   ghost path: seq<int>)
    returns (corrupt: bool, out: seq<int>)
    requires ll.Valid() && 0 < |l| <= ll.ll16.Length && |l| <= limit && Bytes(l)
    requires cftab.Length == 257 && Cumulative(cftab[..], l)
    requires origPtr in path && Reversed(ll.Entries(), l, path)
    ensures !corrupt && out == Walk(l, origPtr, count)
  {
    hide *;
    OnCycle(ll.Entries(), l, path, origPtr);
    var tPos := origPtr;
    out := [];
    var used := 0;
    while used < count
      invariant 0 <= used <= count && tPos in path && 0 <= tPos < |l|
      invariant out + Walk(l, tPos, count - used) == Walk(l, origPtr, count)
    {
      if tPos >= limit { return true, out; }
      StepSmall(ll.Entries(), l, path, tPos, count - used, out);
      var ch := IndexIntoF(tPos, cftab, l);
      out := out + [ch];
      tPos := ll.Get(tPos);
      used := used + 1;
    }
    corrupt := false;
  }

  lemma OnCycle(t: seq<int>, l: seq<int>, path: seq<int>, p: int)
    requires Reversed(t, l, path) && p in path
    ensures |l| <= |t| && 0 <= p < |l| && Thread(l, p) in path && t[p] == Thread(l, p)
  {
  }

  /** One step along the cycle takes the byte that the walk takes. */
  lemma StepSmall(t: seq<int>, l: seq<int>, path: seq<int>, p: int, k: nat, out: seq<int>)
    requires Reversed(t, l, path) && p in path && 0 <= p < |l| && 0 < k
    ensures 0 <= Thread(l, p) < |l| && Thread(l, p) in path && |l| <= |t| && t[p] == Thread(l, p)
    ensures out + Walk(l, p, k) == out + [l[Thread(l, p)]] + Walk(l, Thread(l, p), k - 1)
  {
    hide *;
    OnCycle(t, l, path, p);
    OnCycle(t, l, path, Thread(l, p));
    WalkStep(l, p, k);
    assert out + ([l[Thread(l, p)]] + Walk(l, Thread(l, p), k - 1))
      == out + [l[Thread(l, p)]] + Walk(l, Thread(l, p), k - 1);
  }

  lemma WalkStep(l: seq<int>, p: int, k: nat)
    requires 0 <= p < |l| && 0 < k
    ensures Walk(l, p, k) == [l[Thread(l, p)]] + Walk(l, Thread(l, p), k - 1)
  {
  }
}
