/**
 The fallback block sort of dep/bzip2/blocksort.c: a radix sort on the first byte, then passes that
 double the number of bytes the order looks at, with bucket starts marked in a bit table.
 */
module FallbackSort {
  import opened Permutations
  import opened Rotations
  import opened Counting
  import Q = FallbackQuicksort

  // ----- radix sort on the first byte -----------------------------------------------------------

  /** Where the radix sort puts position k: buckets fill from the top. */
  ghost function Slot(b: seq<int>, k: int): int
    requires 0 <= k < |b|
  {
    Below(b, b[k] + 1) - 1 - Count(b[..k], b[k])
  }

  lemma SlotRange(b: seq<int>, k: int)
    requires 0 <= k < |b|
    ensures 0 <= Below(b, b[k]) <= Slot(b, k) < Below(b, b[k] + 1) <= |b|
  {
    hide Count, Below;
    CountBefore(b, k);
    BelowNext(b, b[k]);
  }

  lemma SlotsDiffer(b: seq<int>, i: int, j: int)
    requires 0 <= i < j < |b|
    ensures Slot(b, i) != Slot(b, j)
  {
    SlotRange(b, i);
    SlotRange(b, j);
    if b[i] < b[j] {
      BelowMonotone(b, b[i] + 1, b[j]);
    } else if b[j] < b[i] {
      BelowMonotone(b, b[j] + 1, b[i]);
    } else {
      CountGrows(b, i, j, b[i]);
    }
  }

  lemma AtSlot(b: seq<int>, p: int) returns (k: int)
    requires 0 <= p < |b|
    ensures 0 <= k < |b| && Slot(b, k) == p
  {
    var s := seq(|b|, i requires 0 <= i < |b| => Slot(b, i));
    forall i | 0 <= i < |s| ensures 0 <= s[i] < |s| { SlotRange(b, i); }
    forall i, j | 0 <= i < j < |s| ensures s[i] != s[j] { SlotsDiffer(b, i, j); }
    Onto(s, p);
    k :| 0 <= k < |s| && s[k] == p;
  }

  /** f is what the radix sort leaves. */
  ghost predicate Placed(b: seq<int>, f: seq<int>, upto: int) {
    |f| == |b| && forall k :: 0 <= k < upto <= |b| ==> 0 <= Slot(b, k) < |f| && f[Slot(b, k)] == k
  }

  /** Position p of the sorted order belongs to the bucket of its first byte. */
  ghost predicate InBuckets(b: seq<int>, f: seq<int>) {
    && IsPermutation(f) && |f| == |b|
    && forall p :: 0 <= p < |f| ==> Below(b, b[f[p]]) <= p < Below(b, b[f[p]] + 1)
  }

  lemma RadixSorts(b: seq<int>, f: seq<int>)
    requires Placed(b, f, |b|)
    ensures InBuckets(b, f)
  {
    forall p | 0 <= p < |f|
      ensures 0 <= f[p] < |b| && Slot(b, f[p]) == p && Below(b, b[f[p]]) <= p < Below(b, b[f[p]] + 1)
    {
      var k := AtSlot(b, p);
      SlotRange(b, k);
    }
    forall p, q | 0 <= p < q < |f| ensures f[p] != f[q] {
      assert Slot(b, f[p]) == p && Slot(b, f[q]) == q;
    }
  }

  /** Bucket starts are exactly the places where the first byte changes. */
  lemma BucketStart(b: seq<int>, f: seq<int>, p: int)
    requires InBuckets(b, f) && 0 <= p < |f|
    ensures p == Below(b, b[f[p]]) <==> p == 0 || b[f[p - 1]] != b[f[p]]
    ensures p > 0 ==> b[f[p - 1]] <= b[f[p]]
  {
    if p > 0 {
      var c, d := b[f[p - 1]], b[f[p]];
      assert Below(b, c) <= p - 1 < Below(b, c + 1);
      if d < c { BelowMonotone(b, d + 1, c); }
      if c < d { BelowMonotone(b, c + 1, d); }
    }
  }

  method CountBytes(block: array<int>, ftab: array<int>, n: int)
    requires 0 <= n <= block.Length && ftab.Length == 257 && ftab != block && Bytes(block[..])
    modifies ftab
    ensures forall c :: 0 <= c < 256 ==> ftab[c] == Count(block[..n], c)
    ensures ftab[256] == 0
  {
    var i := 0;
    while i < 257
      invariant 0 <= i <= 257
      invariant forall c :: 0 <= c < i ==> ftab[c] == 0
    {
      ftab[i] := 0;
      i := i + 1;
    }
    i := 0;
    while i < n
      invariant 0 <= i <= n
      invariant forall c :: 0 <= c < 256 ==> ftab[c] == Count(block[..i], c)
      invariant ftab[256] == 0
    {
      forall c | 0 <= c < 256
        ensures Count(block[..i + 1], c) == Count(block[..i], c) + if block[i] == c then 1 else 0
      {
        assert block[..i + 1][..i] == block[..i];
      }
      ftab[block[i]] := ftab[block[i]] + 1;
      i := i + 1;
    }
  }

  method SumCounts(ftab: array<int>, ghost b: seq<int>)
    requires ftab.Length == 257 && Bytes(b)
    requires forall c :: 0 <= c < 256 ==> ftab[c] == Count(b, c)
    requires ftab[256] == 0
    modifies ftab
    ensures forall c :: 0 <= c < 256 ==> ftab[c] == Below(b, c + 1)
    ensures ftab[256] == |b|
  {
    hide Below, Count;
    BelowEnds(b, 0, 256);
    BelowNext(b, 0);
    var i := 1;
    while i < 257
      invariant 1 <= i <= 257
      invariant forall c :: 0 <= c < i && c < 256 ==> ftab[c] == Below(b, c + 1)
      invariant i == 257 ==> ftab[256] == |b|
      invariant forall c :: i <= c < 256 ==> ftab[c] == Count(b, c)
      invariant i <= 256 ==> ftab[256] == 0
    {
      BelowNext(b, i);
      ftab[i] := ftab[i] + ftab[i - 1];
      i := i + 1;
    }
  }

  method PlaceAll(block: array<int>, ftab: array<int>, fmap: array<int>, ghost b: seq<int>)
    requires ftab.Length == 257 && ftab != fmap && block != ftab && block != fmap && fmap.Length == block.Length
    requires block[..] == b && Bytes(b)
    requires forall c :: 0 <= c < 256 ==> ftab[c] == Below(b, c + 1)
    modifies ftab, fmap
    ensures Placed(b, fmap[..], |b|)
    ensures forall c :: 0 <= c < 256 ==> ftab[c] == Below(b, c)
  {
    var i := 0;
    while i < block.Length
      invariant 0 <= i <= block.Length
      invariant forall c :: 0 <= c < 256 ==> ftab[c] == Below(b, c + 1) - Count(b[..i], c)
      invariant Placed(b, fmap[..], i)
    {
      var j := block[i];
      var k := ftab[j] - 1;
      SlotRange(b, i);
      PlaceOne(b, fmap[..], i);
      forall c | 0 <= c < 256 ensures Count(b[..i + 1], c) == Count(b[..i], c) + if b[i] == c then 1 else 0 {
        CountStep(b, i, c);
      }
      ftab[j] := k;
      fmap[k] := i;
      i := i + 1;
    }
    forall c | 0 <= c < 256 ensures ftab[c] == Below(b, c) {
      BelowNext(b, c);
      assert b[..|b|] == b;
    }
  }

  lemma PlaceOne(b: seq<int>, f: seq<int>, i: int)
    requires 0 <= i < |b| && Placed(b, f, i)
    ensures 0 <= Slot(b, i) < |f| && Placed(b, f[Slot(b, i) := i], i + 1)
  {
    SlotRange(b, i);
    forall k | 0 <= k < i ensures Slot(b, k) != Slot(b, i) { SlotsDiffer(b, k, i); }
  }

  // ----- bucket headers ---------------------------------------------------------------------------

  /** Bits after the block: one set, one clear, so that no scan runs past the end. */
  ghost predicate Sentinels(bh: seq<bool>, n: int) {
    0 <= n && n + 2 <= |bh| && bh[n] && !bh[n + 1]
  }

  /** Bits below n mark exactly the places where the first h bytes of the rotation change. */
  ghost predicate Headed(b: seq<int>, f: seq<int>, bh: seq<bool>, h: nat) {
    && b != [] && |f| == |b| && Sentinels(bh, |b|)
    && IsPermutation(f)
    && OrderedTo(b, f, h)
    && bh[0] && (forall i {:trigger bh[i]} :: 0 < i < |b| ==> (bh[i] <==> Cyclic(b, f[i - 1], h) != Cyclic(b, f[i], h)))
  }

  /** Every bit set below |b| is at the start of a bucket, and every start of a byte below c is set. */
  ghost predicate Marked(b: seq<int>, f: seq<int>, bh: seq<bool>, c: int) {
    && |f| == |b| <= |bh|
    && (forall p {:trigger f[p]} :: 0 <= p < |f| ==> 0 <= f[p] < |b|)
    && (forall p {:trigger bh[p]} :: 0 <= p < |b| && bh[p] ==> p == Below(b, b[f[p]]))
    && (forall p {:trigger bh[p]} :: 0 <= p < |b| && p == Below(b, b[f[p]]) && b[f[p]] < c ==> bh[p])
  }

  lemma MarkAt(b: seq<int>, f: seq<int>, bh: seq<bool>, c: int, k: int)
    requires Marked(b, f, bh, c) && 0 <= k < |bh| && k == Below(b, c)
    requires k < |b| ==> k == Below(b, b[f[k]])
    ensures Marked(b, f, bh[k := true], c + 1)
  {
    hide Below;
    var bh' := bh[k := true];
    forall p {:trigger bh'[p]} | 0 <= p < |b| ensures bh'[p] == (p == k || bh[p]) {}
    forall p {:trigger bh'[p]} | 0 <= p < |b| && p == Below(b, b[f[p]]) && b[f[p]] < c + 1 ensures bh'[p] {
      if b[f[p]] < c { assert bh[p]; } else { assert p == k; }
    }
  }

  lemma MarkOne(b: seq<int>, f: seq<int>, bh: seq<bool>, c: int)
    requires InBuckets(b, f) && Marked(b, f, bh, c) && 0 <= Below(b, c) < |bh|
    ensures Marked(b, f, bh[Below(b, c) := true], c + 1)
  {
    var k := Below(b, c);
    if k < |b| { OnlyAtStart(b, f, c); }
    MarkAt(b, f, bh, c, k);
  }

  lemma MarkPast(b: seq<int>, f: seq<int>, bh: seq<bool>, c: int, k: int, v: bool)
    requires Marked(b, f, bh, c) && |b| <= k < |bh|
    ensures Marked(b, f, bh[k := v], c)
  {
    hide Below;
  }

  lemma NoMarks(b: seq<int>, f: seq<int>, bh: seq<bool>)
    requires Bytes(b) && InBuckets(b, f) && |b| <= |bh| && forall p {:trigger bh[p]} :: 0 <= p < |b| ==> !bh[p]
    ensures Marked(b, f, bh, 0)
  {
    hide Below;
  }

  lemma AllMarked(b: seq<int>, f: seq<int>, bh: seq<bool>)
    requires Bytes(b) && b != [] && InBuckets(b, f) && Marked(b, f, bh, 256) && Sentinels(bh, |b|)
    ensures Headed(b, f, bh, 1)
  {
    forall p {:trigger bh[p]} | 0 <= p < |b| ensures bh[p] <==> p == Below(b, b[f[p]]) {
      assert b[f[p]] < 256;
    }
    hide Below, InBuckets, Marked, Sentinels;
    MarksAreHeads(b, f, bh);
  }

  method ClearBits(bhtab: array<bool>, nBhtab: int)
    requires 0 <= 32 * nBhtab <= bhtab.Length
    modifies bhtab
    ensures forall p {:trigger bhtab[p]} :: 0 <= p < 32 * nBhtab ==> !bhtab[p]
  {
    var i := 0;
    while i < 32 * nBhtab
      invariant 0 <= i <= 32 * nBhtab
      invariant forall p {:trigger bhtab[p]} :: 0 <= p < i ==> !bhtab[p]
    {
      bhtab[i] := false;
      i := i + 1;
    }
  }

  /** Header bits at the start of every bucket, and alternating bits past the end of the block. */
  method MarkBuckets(ftab: array<int>, bhtab: array<bool>, n: int, ghost b: seq<int>, ghost f: seq<int>)
    requires ftab.Length == 257 && 0 < n == |b| && bhtab.Length >= 32 * (3 + n / 32)
    requires Bytes(b) && InBuckets(b, f)
    requires forall c {:trigger ftab[c]} :: 0 <= c < 256 ==> ftab[c] == Below(b, c)
    modifies bhtab
    ensures Headed(b, f, bhtab[..], 1)
  {
    hide Below, Marked, InBuckets, Headed;
    ClearBits(bhtab, 2 + n / 32);
    NoMarks(b, f, bhtab[..]);
    assert n + 64 <= bhtab.Length;
    var i := 0;
    while i < 256
      invariant 0 <= i <= 256
      invariant Marked(b, f, bhtab[..], i)
    {
      BelowWithin(b, i);
      MarkOne(b, f, bhtab[..], i);
      bhtab[ftab[i]] := true;
      i := i + 1;
    }
    i := 0;
    while i < 32
      invariant 0 <= i <= 32
      invariant Marked(b, f, bhtab[..], 256)
      invariant i > 0 ==> bhtab[n] && !bhtab[n + 1]
    {
      ghost var bh := bhtab[..];
      MarkPast(b, f, bh, 256, n + 2 * i, true);
      MarkPast(b, f, bh[n + 2 * i := true], 256, n + 2 * i + 1, false);
      bhtab[n + 2 * i] := true;
      bhtab[n + 2 * i + 1] := false;
      assert bhtab[..] == bh[n + 2 * i := true][n + 2 * i + 1 := false];
      i := i + 1;
    }
    AllMarked(b, f, bhtab[..]);
  }

  lemma BelowWithin(b: seq<int>, c: int)
    requires Bytes(b) && 0 <= c < 256
    ensures 0 <= Below(b, c) <= |b|
  {
    BelowEnds(b, 0, 256);
    BelowMonotone(b, 0, c);
    BelowMonotone(b, c, 256);
  }

  /** A count of smaller bytes that falls inside the block is the start of the bucket found there. */
  lemma OnlyAtStart(b: seq<int>, f: seq<int>, c: int)
    requires InBuckets(b, f) && Below(b, c) < |b|
    ensures Below(b, c) == Below(b, b[f[Below(b, c)]])
  {
    var p := Below(b, c);
    var d := b[f[p]];
    assert Below(b, d) <= p < Below(b, d + 1);
    if c <= d { BelowMonotone(b, c, d); } else { BelowMonotone(b, d + 1, c); }
  }

  lemma OneByteOrder(b: seq<int>, x: int, y: int)
    requires 0 <= x < |b| && 0 <= y < |b|
    ensures Cyclic(b, x, 1) == Cyclic(b, y, 1) <==> b[x] == b[y]
    ensures LexLe(Cyclic(b, x, 1), Cyclic(b, y, 1)) <==> b[x] <= b[y]
  {
    assert Cyclic(b, x, 1) == [b[x]] + [] == [b[x]];
    assert Cyclic(b, y, 1) == [b[y]] + [] == [b[y]];
    LexAppend([b[x]], [b[y]], [], []);
    assert [b[x]][1..] == [] && [b[y]][1..] == [];
  }

  lemma RadixOrders(b: seq<int>, f: seq<int>)
    requires InBuckets(b, f)
    ensures OrderedTo(b, f, 1)
  {
    assert |f| == |b| && forall i :: 0 <= i < |f| ==> 0 <= f[i] < |b|;
    hide *;
    forall i, j | 0 <= i <= j < |f| ensures LexLe(Cyclic(b, f[i], 1), Cyclic(b, f[j], 1)) {
      FirstBytesAscend(b, f, i, j);
      OneByteOrder(b, f[i], f[j]);
    }
    OrderedMeans(b, f, 1);
  }

  lemma OrderedMeans(b: seq<int>, f: seq<int>, h: nat)
    requires |f| == |b| && (forall i :: 0 <= i < |f| ==> 0 <= f[i] < |b|)
    requires forall i, j :: 0 <= i <= j < |f| ==> LexLe(Cyclic(b, f[i], h), Cyclic(b, f[j], h))
    ensures OrderedTo(b, f, h)
  {
  }

  lemma MarksAreHeads(b: seq<int>, f: seq<int>, bh: seq<bool>)
    requires b != [] && InBuckets(b, f) && Sentinels(bh, |b|)
    requires forall p {:trigger bh[p]} :: 0 <= p < |b| ==> (bh[p] <==> p == Below(b, b[f[p]]))
    ensures Headed(b, f, bh, 1)
  {
    RadixOrders(b, f);
    assert IsPermutation(f) && |f| == |b|;
    hide Below, Cyclic, LexLe, OrderedTo, InBuckets;
    BucketStart(b, f, 0);
    assert bh[0];
    forall i {:trigger bh[i]} | 0 < i < |b| ensures bh[i] <==> Cyclic(b, f[i - 1], 1) != Cyclic(b, f[i], 1) {
      BucketStart(b, f, i);
      OneByteOrder(b, f[i - 1], f[i]);
    }
    HeadedMeans(b, f, bh, 1);
  }

  lemma HeadedMeans(b: seq<int>, f: seq<int>, bh: seq<bool>, h: nat)
    requires b != [] && |f| == |b| && Sentinels(bh, |b|) && IsPermutation(f) && OrderedTo(b, f, h)
    requires bh[0] && (forall i {:trigger bh[i]} :: 0 < i < |b| ==>
      (bh[i] <==> Cyclic(b, f[i - 1], h) != Cyclic(b, f[i], h)))
    ensures Headed(b, f, bh, h)
  {
  }

  lemma {:induction false} FirstBytesAscend(b: seq<int>, f: seq<int>, i: int, j: int)
    requires InBuckets(b, f) && 0 <= i <= j < |f|
    ensures b[f[i]] <= b[f[j]]
    decreases j - i
  {
    if i < j {
      FirstBytesAscend(b, f, i, j - 1);
      BucketStart(b, f, j);
    }
  }

  predicate WordIs(bhtab: array<bool>, k: int, v: bool)
    requires 0 <= k && k + 32 <= bhtab.Length
    reads bhtab
  {
    forall i :: k <= i < k + 32 ==> bhtab[i] == v
  }

  /** The scan for the next bit equal to v: single bits up to a word edge, whole words, single bits. */
  method NextBit(bhtab: array<bool>, k0: int, v: bool, ghost end: int) returns (k: int)
    requires 0 <= k0 <= end < bhtab.Length - bhtab.Length % 32 && bhtab[end] == v
    ensures k0 <= k <= end && bhtab[k] == v
    ensures forall i :: k0 <= i < k ==> bhtab[i] != v
  {
    k := k0;
    while bhtab[k] != v && k % 32 != 0
      invariant k0 <= k <= end
      invariant forall i :: k0 <= i < k ==> bhtab[i] != v
      decreases end - k
    {
      k := k + 1;
    }
    if bhtab[k] != v {
      while WordIs(bhtab, k, !v)
        invariant k0 <= k <= end && k % 32 == 0
        invariant forall i :: k0 <= i < k ==> bhtab[i] != v
        decreases end - k
      {
        assert !(k <= end < k + 32);
        k := k + 32;
      }
      while bhtab[k] != v
        invariant k0 <= k <= end
        invariant forall i :: k0 <= i < k ==> bhtab[i] != v
        decreases end - k
      {
        k := k + 1;
      }
    }
  }

  // ----- classes at depth h -------------------------------------------------------------------------

  /** The last header at or before i. */
  ghost function Head(bh: seq<bool>, i: int): (r: int)
    requires 0 <= i < |bh|
    ensures 0 <= r <= i && (r == 0 || bh[r]) && forall k :: r < k <= i ==> !bh[k]
    decreases i
  {
    if i == 0 || bh[i] then i else Head(bh, i - 1)
  }

  lemma HeadMonotone(bh: seq<bool>, i: int, j: int)
    requires 0 <= i <= j < |bh|
    ensures Head(bh, i) <= Head(bh, j)
  {
  }

  /** rk orders positions as the first h bytes read from them do. */
  ghost predicate RanksTo(b: seq<int>, rk: seq<int>, h: nat) {
    |rk| == |b| && forall x, y :: 0 <= x < |b| && 0 <= y < |b| ==>
      (rk[x] <= rk[y] <==> LexLe(Cyclic(b, x, h), Cyclic(b, y, h)))
  }

  /** Two entries share a header exactly when their first h bytes agree. */
  lemma {:induction false} SameHead(b: seq<int>, f: seq<int>, bh: seq<bool>, h: nat, j: int, i: int)
    requires Headed(b, f, bh, h) && 0 <= j <= i < |b|
    ensures Head(bh, j) == Head(bh, i) <==> Cyclic(b, f[j], h) == Cyclic(b, f[i], h)
  {
    hide Cyclic, LexLe;
    if Head(bh, j) == Head(bh, i) {
      NoHeadBetween(b, f, bh, h, j, i);
    } else {
      var p := Head(bh, i);
      assert j < p <= i && bh[p];
      if Cyclic(b, f[j], h) == Cyclic(b, f[i], h) {
        assert LexLe(Cyclic(b, f[j], h), Cyclic(b, f[p - 1], h)) && LexLe(Cyclic(b, f[p - 1], h), Cyclic(b, f[p], h));
        assert LexLe(Cyclic(b, f[p], h), Cyclic(b, f[i], h));
        LexTransitive(Cyclic(b, f[p - 1], h), Cyclic(b, f[p], h), Cyclic(b, f[i], h));
        LexAntisymmetric(Cyclic(b, f[p - 1], h), Cyclic(b, f[j], h));
        LexTransitive(Cyclic(b, f[j], h), Cyclic(b, f[p - 1], h), Cyclic(b, f[p], h));
        LexAntisymmetric(Cyclic(b, f[p], h), Cyclic(b, f[i], h));
      }
    }
  }

  lemma {:induction false} NoHeadBetween(b: seq<int>, f: seq<int>, bh: seq<bool>, h: nat, j: int, i: int)
    requires Headed(b, f, bh, h) && 0 <= j <= i < |b| && Head(bh, j) == Head(bh, i)
    ensures Cyclic(b, f[j], h) == Cyclic(b, f[i], h)
    decreases i - j
  {
    hide Cyclic, LexLe;
    if j < i {
      assert !bh[i];
      NoHeadBetween(b, f, bh, h, j, i - 1);
    }
  }

  lemma HeadsRank(b: seq<int>, f: seq<int>, bh: seq<bool>, h: nat, rk: seq<int>)
    requires Headed(b, f, bh, h)
    requires |rk| == |b| && forall i :: 0 <= i < |b| ==> rk[f[i]] == Head(bh, i)
    ensures RanksTo(b, rk, h)
  {
    hide Cyclic, LexLe;
    forall x, y | 0 <= x < |b| && 0 <= y < |b|
      ensures rk[x] <= rk[y] <==> LexLe(Cyclic(b, x, h), Cyclic(b, y, h))
    {
      Onto(f, x);
      Onto(f, y);
      var i :| 0 <= i < |f| && f[i] == x;
      var j :| 0 <= j < |f| && f[j] == y;
      HeadsCompare(b, f, bh, h, i, j);
    }
  }

  lemma HeadsCompare(b: seq<int>, f: seq<int>, bh: seq<bool>, h: nat, i: int, j: int)
    requires Headed(b, f, bh, h) && 0 <= i < |b| && 0 <= j < |b|
    ensures Head(bh, i) <= Head(bh, j) <==> LexLe(Cyclic(b, f[i], h), Cyclic(b, f[j], h))
  {
    hide Cyclic, LexLe, Head;
    if i <= j {
      HeadMonotone(bh, i, j);
      assert LexLe(Cyclic(b, f[i], h), Cyclic(b, f[j], h));
    } else {
      HeadMonotone(bh, j, i);
      SameHead(b, f, bh, h, j, i);
      assert LexLe(Cyclic(b, f[j], h), Cyclic(b, f[i], h));
      if Cyclic(b, f[j], h) == Cyclic(b, f[i], h) {
        LexReflexive(Cyclic(b, f[i], h));
      } else if LexLe(Cyclic(b, f[i], h), Cyclic(b, f[j], h)) {
        LexAntisymmetric(Cyclic(b, f[i], h), Cyclic(b, f[j], h));
      }
    }
  }

  /** Position x moved back by h, cyclically. */
  function Back(x: int, h: int, n: int): int {
    if x - h < 0 then x - h + n else x - h
  }

  /** eclass[x] becomes the class of the bytes that follow the first h bytes from x. */
  method AssignClasses(fmap: array<int>, eclass: array<int>, bhtab: array<bool>, h: int, n: int)
    requires fmap != eclass && fmap.Length == eclass.Length == n && 0 < h <= n <= bhtab.Length
    requires IsPermutation(fmap[..])
    modifies eclass
    ensures forall i :: 0 <= i < n ==> 0 <= Back(fmap[i], h, n) < n && eclass[Back(fmap[i], h, n)] == Head(bhtab[..], i)
  {
    hide Head;
    ghost var bh := bhtab[..];
    var i, j := 0, 0;
    while i < n
      invariant 0 <= i <= n && bhtab[..] == bh
      invariant j == if i > 0 then Head(bh, i - 1) else 0
      invariant forall m :: 0 <= m < i ==> 0 <= Back(fmap[m], h, n) < n && eclass[Back(fmap[m], h, n)] == Head(bh, m)
    {
      HeadStep(bh, i);
      if bhtab[i] { j := i; }
      var k := fmap[i] - h;
      if k < 0 { k := k + n; }
      eclass[k] := j;
      i := i + 1;
    }
  }

  lemma HeadStep(bh: seq<bool>, i: int)
    requires 0 <= i < |bh|
    ensures Head(bh, i) == if bh[i] || i == 0 then i else Head(bh, i - 1)
  {
  }

  /** The class array as a rank: rk ranks by the first h bytes and eclass by the h bytes after them. */
  ghost predicate SecondHalf(rk: seq<int>, ec: seq<int>, h: int) {
    |rk| == |ec| && 0 < h <= |rk| && forall x :: 0 <= x < |ec| ==> ec[x] == rk[Wrap(x + h, |rk|)]
  }

  lemma ClassesRank(b: seq<int>, f: seq<int>, bh: seq<bool>, h: nat, ec: seq<int>) returns (rk: seq<int>)
    requires Headed(b, f, bh, h) && 0 < h <= |b| == |ec|
    requires forall i :: 0 <= i < |b| ==> 0 <= Back(f[i], h, |b|) < |b| && ec[Back(f[i], h, |b|)] == Head(bh, i)
    ensures RanksTo(b, rk, h) && SecondHalf(rk, ec, h)
    ensures forall i :: 0 <= i < |b| ==> rk[f[i]] == Head(bh, i)
  {
    hide Cyclic, LexLe, Head;
    var n := |b|;
    rk := seq(n, x requires 0 <= x < n => ec[Back(x, h, n)]);
    HeadsRank(b, f, bh, h, rk);
  }

  /** Order by rank and then by class is order by twice as many bytes. */
  lemma PairOrder(b: seq<int>, rk: seq<int>, ec: seq<int>, h: nat, x: int, y: int)
    requires RanksTo(b, rk, h) && SecondHalf(rk, ec, h) && 0 <= x < |b| && 0 <= y < |b|
    ensures LexLe(Cyclic(b, x, 2 * h), Cyclic(b, y, 2 * h)) <==> rk[x] < rk[y] || (rk[x] == rk[y] && ec[x] <= ec[y])
    ensures Cyclic(b, x, 2 * h) == Cyclic(b, y, 2 * h) <==> rk[x] == rk[y] && ec[x] == ec[y]
  {
    hide Cyclic, LexLe;
    var n := |b|;
    var x', y' := Wrap(x + h, n), Wrap(y + h, n);
    CyclicSplit(b, x, h, h);
    CyclicSplit(b, y, h, h);
    LexAppend(Cyclic(b, x, h), Cyclic(b, y, h), Cyclic(b, x', h), Cyclic(b, y', h));
    RankEquality(b, rk, h, x, y);
    RankEquality(b, rk, h, x', y');
    if Cyclic(b, x, 2 * h) == Cyclic(b, y, 2 * h) {
      assert Cyclic(b, x, h) == Cyclic(b, x, 2 * h)[..h] && Cyclic(b, y, h) == Cyclic(b, y, 2 * h)[..h];
      assert Cyclic(b, x', h) == Cyclic(b, x, 2 * h)[h..] && Cyclic(b, y', h) == Cyclic(b, y, 2 * h)[h..];
    }
  }

  lemma RankEquality(b: seq<int>, rk: seq<int>, h: nat, x: int, y: int)
    requires RanksTo(b, rk, h) && 0 <= x < |b| && 0 <= y < |b|
    ensures rk[x] == rk[y] <==> Cyclic(b, x, h) == Cyclic(b, y, h)
  {
    hide Cyclic, LexLe;
    LexReflexive(Cyclic(b, x, h));
    if rk[x] == rk[y] { LexAntisymmetric(Cyclic(b, x, h), Cyclic(b, y, h)); }
  }

  // ----- one refinement pass --------------------------------------------------------------------------

  /**
   The pass in progress. cls is the class of each place at depth h, and the entries before place d
   have already been sorted by ec inside their class and re-marked. No entry has left its class.
   */
  ghost predicate Refining(f: seq<int>, bh: seq<bool>, rk: seq<int>, ec: seq<int>, cls: seq<int>, d: int) {
    && 0 < |f| == |rk| == |ec| == |cls| && Sentinels(bh, |f|) && 0 <= d <= |f|
    && (forall i :: 0 <= i < |f| ==> 0 <= f[i] < |rk| && rk[f[i]] == cls[i])
    && (forall i, j :: 0 <= i <= j < |f| ==> cls[i] <= cls[j])
    && (forall i, j :: 0 <= i <= j < d && cls[i] == cls[j] ==> ec[f[i]] <= ec[f[j]])
    && (forall i :: 0 < i < d ==> (bh[i] <==> cls[i - 1] != cls[i] || ec[f[i - 1]] != ec[f[i]]))
    && (forall i {:trigger bh[i]} :: d <= i < |f| && 0 < i ==> (bh[i] <==> cls[i - 1] != cls[i]))
    && bh[0]
    && (0 < d < |f| ==> cls[d - 1] != cls[d])
  }

  lemma RefiningStarts(b: seq<int>, f: seq<int>, bh: seq<bool>, h: nat, rk: seq<int>, ec: seq<int>)
    returns (cls: seq<int>)
    requires Headed(b, f, bh, h) && RanksTo(b, rk, h) && |ec| == |b|
    requires forall i :: 0 <= i < |b| ==> rk[f[i]] == Head(bh, i)
    ensures Refining(f, bh, rk, ec, cls, 0)
  {
    hide Cyclic, LexLe, Head;
    cls := seq(|b|, i requires 0 <= i < |b| => Head(bh, i));
    forall i, j | 0 <= i <= j < |f| ensures cls[i] <= cls[j] { HeadMonotone(bh, i, j); }
    forall i | 0 < i < |f| ensures bh[i] <==> cls[i - 1] != cls[i] {
      HeadStep(bh, i);
    }
  }

  /**
   Single-entry buckets need no work: the scan may skip from d to any place l all of whose predecessors are headers.
   */
  lemma RefiningSkips(f: seq<int>, bh: seq<bool>, rk: seq<int>, ec: seq<int>, cls: seq<int>, d: int, l: int)
    requires Refining(f, bh, rk, ec, cls, d) && d <= l <= |f|
    requires forall i :: d <= i <= l && i < |f| ==> bh[i]
    ensures Refining(f, bh, rk, ec, cls, l)
  {
    if l < |f| { assert bh[l]; }
    forall i, j | 0 <= i < j < l && d <= j ensures cls[i] < cls[j] {
      assert bh[j];
      assert cls[i] <= cls[j - 1];
    }
  }

  /** Sorting one bucket [l, r] by ec and re-marking it moves the boundary past it. */
  lemma RefiningBucket(f: seq<int>, g: seq<int>, bh: seq<bool>, bh': seq<bool>, rk: seq<int>, ec: seq<int>,
                       cls: seq<int>, l: int, r: int)
    requires Refining(f, bh, rk, ec, cls, l) && 0 <= l < r < |f|
    requires bh[l] && (forall i :: l < i <= r ==> !bh[i]) && bh[r + 1]
    requires Shuffled(f, g, l, r + 1) && Q.Indexes(g, ec, l, r + 1) && Q.Sorted(g, ec, l, r + 1)
    requires |bh'| == |bh| && (forall i :: 0 <= i < |bh| && !(l < i <= r) ==> bh'[i] == bh[i])
    requires forall i :: l < i <= r ==> (bh'[i] <==> ec[g[i - 1]] != ec[g[i]])
    ensures Refining(g, bh', rk, ec, cls, r + 1)
  {
    BucketValues(f, g, bh, rk, ec, cls, l, r);
    BucketOrder(f, g, rk, ec, cls, l, r);
    BucketMarks(f, g, bh, bh', rk, ec, cls, l, r);
    assert bh[r + 1] == bh'[r + 1];
  }

  lemma BucketValues(f: seq<int>, g: seq<int>, bh: seq<bool>, rk: seq<int>, ec: seq<int>, cls: seq<int>, l: int, r: int)
    requires Refining(f, bh, rk, ec, cls, l) && 0 <= l < r < |f|
    requires forall i :: l < i <= r ==> !bh[i]
    requires Shuffled(f, g, l, r + 1)
    ensures |g| == |f| && forall i :: 0 <= i < |f| ==> 0 <= g[i] < |rk| && rk[g[i]] == cls[i]
    ensures forall i :: l <= i <= r ==> cls[i] == cls[l]
    ensures forall i :: 0 <= i < l ==> g[i] == f[i]
  {
    SameBucket(f, bh, rk, ec, cls, l, r);
    ShuffledForall(f, g, l, r + 1, v => 0 <= v < |rk| && rk[v] == cls[l]);
    ShuffledOutside(f, g, l, r + 1);
  }

  lemma {:induction false} SameBucket(f: seq<int>, bh: seq<bool>, rk: seq<int>, ec: seq<int>, cls: seq<int>, l: int,
                                      r: int)
    requires Refining(f, bh, rk, ec, cls, l) && 0 <= l <= r < |f|
    requires forall i :: l < i <= r ==> !bh[i]
    ensures forall i :: l <= i <= r ==> cls[i] == cls[l]
    decreases r - l
  {
    if l < r {
      SameBucket(f, bh, rk, ec, cls, l, r - 1);
      assert !bh[r];
    }
  }

  lemma BucketOrder(f: seq<int>, g: seq<int>, rk: seq<int>, ec: seq<int>, cls: seq<int>, l: int, r: int)
    requires |f| == |g| == |cls| && 0 <= l <= r < |f|
    requires forall i :: 0 <= i < |f| ==> 0 <= f[i] < |ec| && 0 <= g[i] < |ec|
    requires forall i, j :: 0 <= i <= j < |f| ==> cls[i] <= cls[j]
    requires l > 0 ==> cls[l - 1] != cls[l]
    requires forall i :: 0 <= i < l ==> f[i] == g[i]
    requires forall i, j :: 0 <= i <= j < l && cls[i] == cls[j] ==> ec[f[i]] <= ec[f[j]]
    requires forall i, j :: l <= i <= j < r + 1 ==> ec[g[i]] <= ec[g[j]]
    ensures forall i, j :: 0 <= i <= j < r + 1 && cls[i] == cls[j] ==> ec[g[i]] <= ec[g[j]]
  {
    forall i, j | 0 <= i < l <= j < |f| ensures cls[i] < cls[j] {
      assert cls[i] <= cls[l - 1] && cls[l] <= cls[j];
    }
  }

  lemma BucketMarks(f: seq<int>, g: seq<int>, bh: seq<bool>, bh': seq<bool>, rk: seq<int>, ec: seq<int>, cls: seq<int>,
                    l: int, r: int)
    requires Refining(f, bh, rk, ec, cls, l) && 0 <= l < r < |f| == |g|
    requires bh[l] && |bh'| == |bh| && (forall i :: 0 <= i < |bh| && !(l < i <= r) ==> bh'[i] == bh[i])
    requires forall i :: 0 <= i < |g| ==> 0 <= g[i] < |ec|
    requires forall i :: 0 <= i < l ==> g[i] == f[i]
    requires forall i :: l <= i <= r ==> cls[i] == cls[l]
    requires forall i :: l < i <= r ==> (bh'[i] <==> ec[g[i - 1]] != ec[g[i]])
    ensures forall i :: 0 < i < r + 1 ==> (bh'[i] <==> cls[i - 1] != cls[i] || ec[g[i - 1]] != ec[g[i]])
  {
    forall i | 0 < i < r + 1 ensures bh'[i] <==> cls[i - 1] != cls[i] || ec[g[i - 1]] != ec[g[i]] {
      if i <= l { assert bh'[i] == bh[i]; } else { assert cls[i - 1] == cls[l] && cls[i] == cls[l]; }
    }
  }

  /** The header scan of one bucket after it has been sorted. */
  method MarkChanges(fmap: array<int>, eclass: array<int>, bhtab: array<bool>, l: int, r: int)
    requires fmap != eclass && 0 <= l <= r < fmap.Length && r < bhtab.Length
    requires Q.Indexes(fmap[..], eclass[..], l, r + 1)
    requires bhtab[l] && forall i :: l < i <= r ==> !bhtab[i]
    modifies bhtab
    ensures forall i :: 0 <= i < bhtab.Length && !(l < i <= r) ==> bhtab[i] == old(bhtab[i])
    ensures forall i :: l < i <= r ==> (bhtab[i] <==> eclass[fmap[i - 1]] != eclass[fmap[i]])
  {
    var cc, i := -1, l;
    while i <= r
      invariant l <= i <= r + 1
      invariant i > l ==> cc == eclass[fmap[i - 1]]
      invariant forall k :: 0 <= k < bhtab.Length && !(l < k <= r) ==> bhtab[k] == old(bhtab[k])
      invariant forall k :: l < k < i ==> (bhtab[k] <==> eclass[fmap[k - 1]] != eclass[fmap[k]])
      invariant forall k :: i <= k <= r && l < k ==> !bhtab[k]
    {
      var cc1 := eclass[fmap[i]];
      if cc != cc1 {
        bhtab[i] := true;
        cc := cc1;
      }
      i := i + 1;
    }
  }

  lemma RefiningIndexes(f: seq<int>, bh: seq<bool>, rk: seq<int>, ec: seq<int>, cls: seq<int>, d: int, l: int, r: int)
    requires Refining(f, bh, rk, ec, cls, d) && 0 <= l <= r + 1 <= |f|
    ensures Q.Indexes(f, ec, l, r + 1)
  {
  }

  lemma RefiningBits(f: seq<int>, bh: seq<bool>, rk: seq<int>, ec: seq<int>, cls: seq<int>, d: int)
    requires Refining(f, bh, rk, ec, cls, d)
    ensures |f| + 2 <= |bh| && bh[|f|] && !bh[|f| + 1] && bh[0] && 0 < |f| == |rk| == |ec| == |cls|
  {
  }

  /** One pass: every bucket with more than one entry is sorted by ec and re-marked. */
  method RefinePass(fmap: array<int>, eclass: array<int>, bhtab: array<bool>, n: int, ghost rk: seq<int>,
                    ghost cls: seq<int>)
    returns (nNotDone: int)
    requires fmap != eclass && fmap.Length == n <= Q.MAX_BLOCK && bhtab.Length >= 32 * (3 + n / 32)
    requires Refining(fmap[..], bhtab[..], rk, eclass[..], cls, 0)
    modifies fmap, bhtab
    ensures multiset(fmap[..]) == multiset(old(fmap[..]))
    ensures Refining(fmap[..], bhtab[..], rk, eclass[..], cls, n)
    ensures nNotDone == 0 ==> forall i :: 0 <= i < n ==> bhtab[i]
  {
    hide Refining, Shuffled;
    nNotDone := 0;
    var r := -1;
    ghost var f0, ec := fmap[..], eclass[..];
    RefiningBits(f0, bhtab[..], rk, ec, cls, 0);
    while true
      invariant -1 <= r < n && eclass[..] == ec && 0 <= nNotDone
      invariant multiset(fmap[..]) == multiset(f0)
      invariant Refining(fmap[..], bhtab[..], rk, ec, cls, r + 1)
      invariant bhtab[r + 1]
      invariant nNotDone == 0 ==> r == -1
      decreases n - r
    {
      ghost var f, bh := fmap[..], bhtab[..];
      RefiningBits(f, bh, rk, ec, cls, r + 1);
      var k := NextBit(bhtab, r + 1, false, n + 1);
      var l := k - 1;
      if l >= n {
        RefiningSkips(f, bh, rk, ec, cls, r + 1, n);
        break;
      }
      RefiningSkips(f, bh, rk, ec, cls, r + 1, l);
      k := NextBit(bhtab, k, true, n);
      r := k - 1;
      if r >= n { break; }
      if r > l {
        nNotDone := nNotDone + (r - l + 1);
        RefineBucket(fmap, eclass, bhtab, l, r, rk, cls);
      }
    }
  }

  /** Sorts the bucket [l, r] by ec and marks the new buckets inside it. */
  method RefineBucket(fmap: array<int>, eclass: array<int>, bhtab: array<bool>, l: int, r: int, ghost rk: seq<int>,
                      ghost cls: seq<int>)
    requires fmap != eclass && fmap.Length <= Q.MAX_BLOCK && 0 <= l < r < fmap.Length
    requires Refining(fmap[..], bhtab[..], rk, eclass[..], cls, l) && fmap.Length + 2 <= bhtab.Length
    requires bhtab[l] && bhtab[r + 1] && forall i {:trigger bhtab[i]} :: l < i <= r ==> !bhtab[i]
    modifies fmap, bhtab
    ensures multiset(fmap[..]) == multiset(old(fmap[..]))
    ensures Refining(fmap[..], bhtab[..], rk, eclass[..], cls, r + 1) && bhtab[r + 1]
  {
    hide Refining, Shuffled;
    ghost var f, bh, ec := fmap[..], bhtab[..], eclass[..];
    RefiningIndexes(f, bh, rk, ec, cls, l, l, r);
    Q.QSort3(fmap, eclass, l, r);
    ShuffledAll(f, fmap[..], l, r + 1);
    MarkChanges(fmap, eclass, bhtab, l, r);
    RefiningBucket(f, fmap[..], bh, bhtab[..], rk, ec, cls, l, r);
  }

  /** After the pass the headers delimit the classes at twice the depth. */
  lemma PassDoubles(b: seq<int>, f0: seq<int>, f: seq<int>, bh: seq<bool>, rk: seq<int>, ec: seq<int>, cls: seq<int>,
                    h: nat)
    requires RanksTo(b, rk, h) && SecondHalf(rk, ec, h) && Refining(f, bh, rk, ec, cls, |f|)
    requires |f| == |b| && IsPermutation(f0) && multiset(f) == multiset(f0)
    ensures Headed(b, f, bh, 2 * h)
  {
    hide Cyclic, LexLe, RanksTo, SecondHalf;
    Rearranged(f0, f);
    forall i, j | 0 <= i <= j < |f| ensures LexLe(Cyclic(b, f[i], 2 * h), Cyclic(b, f[j], 2 * h)) {
      PairOrder(b, rk, ec, h, f[i], f[j]);
      assert cls[i] <= cls[j];
    }
    forall i | 0 < i < |b| ensures bh[i] <==> Cyclic(b, f[i - 1], 2 * h) != Cyclic(b, f[i], 2 * h) {
      PairOrder(b, rk, ec, h, f[i - 1], f[i]);
    }
  }

  /** Entries move only between positions with the same first byte. */
  lemma PassKeepsBuckets(b: seq<int>, f0: seq<int>, bh0: seq<bool>, f: seq<int>, bh: seq<bool>, rk: seq<int>,
                         ec: seq<int>, cls: seq<int>, h: nat)
    requires InBuckets(b, f0) && RanksTo(b, rk, h) && h > 0
    requires Refining(f0, bh0, rk, ec, cls, 0) && Refining(f, bh, rk, ec, cls, |f|)
    requires |f| == |b| && multiset(f) == multiset(f0)
    ensures InBuckets(b, f)
  {
    hide Cyclic, LexLe, RanksTo, Below;
    Rearranged(f0, f);
    forall p | 0 <= p < |f| ensures b[f[p]] == b[f0[p]] {
      assert rk[f[p]] == cls[p] == rk[f0[p]];
      RankEquality(b, rk, h, f[p], f0[p]);
      FirstOfCyclic(b, f[p], h);
      FirstOfCyclic(b, f0[p], h);
    }
  }

  lemma FirstOfCyclic(b: seq<int>, x: int, h: nat)
    requires 0 <= x < |b| && h > 0
    ensures Cyclic(b, x, h)[0] == b[x]
  {
  }

  // ----- reconstruction of the block and the whole sort -----------------------------------------------

  /** What is left of the count of byte c once the first i sorted places have been written back. */
  ghost function Remaining(b: seq<int>, i: int, c: int): int {
    if Below(b, c + 1) <= i then 0 else if i <= Below(b, c) then Below(b, c + 1) - Below(b, c) else Below(b, c + 1) - i
  }

  method Restore(fmap: array<int>, ftabCopy: array<int>, eclass8: array<int>, ghost b: seq<int>)
    requires fmap != ftabCopy && eclass8 != fmap && eclass8 != ftabCopy
    requires eclass8.Length == |b| && Bytes(b) && InBuckets(b, fmap[..]) && ftabCopy.Length == 256
    requires forall c :: 0 <= c < 256 ==> ftabCopy[c] == Count(b, c)
    modifies ftabCopy, eclass8
    ensures eclass8[..] == b
  {
    hide Below, Count;
    ghost var f := fmap[..];
    forall c | 0 <= c < 256 ensures ftabCopy[c] == Remaining(b, 0, c) { BelowNext(b, c); }
    var i, j := 0, 0;
    while i < fmap.Length
      invariant 0 <= i <= |b| && fmap[..] == f
      invariant 0 <= j < 256 && (i < |b| ==> j <= b[f[i]])
      invariant forall c :: 0 <= c < 256 ==> ftabCopy[c] == Remaining(b, i, c)
      invariant forall k :: 0 <= k < i ==> eclass8[f[k]] == b[f[k]]
    {
      ghost var c := b[f[i]];
      while ftabCopy[j] == 0
        invariant 0 <= j <= c
        decreases c - j
      {
        j := j + 1;
      }
      forall d | 0 <= d < 256 ensures Remaining(b, i + 1, d) == Remaining(b, i, d) - (if d == c then 1 else 0)
        && (d < c ==> Remaining(b, i, d) == 0) {
        BelowMonotone(b, d, d + 1);
        if d < c { BelowMonotone(b, d + 1, c); }
        if c < d { BelowMonotone(b, c + 1, d); }
      }
      assert j == c;
      ftabCopy[j] := ftabCopy[j] - 1;
      eclass8[fmap[i]] := j;
      i := i + 1;
      if i < |b| { FirstBytesAscend(b, f, i - 1, i); }
    }
    forall x | 0 <= x < |b| ensures eclass8[x] == b[x] {
      Onto(f, x);
    }
  }

  /**
   The whole sort. The class array is laid over the block in memory, so the block's contents are lost
   once the first pass writes classes; they are rebuilt from the byte counts and the sorted order.
   */
  method Sort(fmap: array<int>, eclass: array<int>, eclass8: array<int>, bhtab: array<bool>, n: int)
    requires fmap != eclass && fmap != eclass8 && eclass != eclass8
    requires fmap.Length == eclass.Length == eclass8.Length == n && 0 < n <= Q.MAX_BLOCK
    requires bhtab.Length >= 32 * (3 + n / 32)
    requires Bytes(eclass8[..])
    modifies fmap, eclass, eclass8, bhtab
    ensures IsPermutation(fmap[..])
    ensures SortsRotations(old(eclass8[..]), fmap[..])
    ensures eclass8[..] == old(eclass8[..])
  {
    hide *;
    ghost var b := eclass8[..];
    var ftab, ftabCopy := new int[257], new int[256];
    CountBytes(eclass8, ftab, n);
    assert eclass8[..n] == b;
    var c := 0;
    while c < 256
      invariant 0 <= c <= 256
      invariant forall d :: 0 <= d < c ==> ftabCopy[d] == ftab[d]
      modifies ftabCopy
    {
      ftabCopy[c] := ftab[c];
      c := c + 1;
    }
    SumCounts(ftab, b);
    PlaceAll(eclass8, ftab, fmap, b);
    RadixSorts(b, fmap[..]);
    MarkBuckets(ftab, bhtab, n, b, fmap[..]);
    ghost var f, bh := fmap[..], bhtab[..];
    modify eclass8;
    assert fmap[..] == f && bhtab[..] == bh;
    DoublingLoop(fmap, eclass, bhtab, n, b);
    Restore(fmap, ftabCopy, eclass8, b);
    InBucketsPermutes(b, fmap[..]);
  }

  lemma InBucketsPermutes(b: seq<int>, f: seq<int>)
    requires InBuckets(b, f)
    ensures IsPermutation(f)
  {
  }

  lemma HeadedFacts(b: seq<int>, f: seq<int>, bh: seq<bool>, h: nat)
    requires Headed(b, f, bh, h)
    ensures |f| == |b| && IsPermutation(f) && OrderedTo(b, f, h)
    ensures |b| + 2 <= |bh|
  {
  }

  lemma AllHeads(b: seq<int>, f: seq<int>, bh: seq<bool>, h: nat)
    requires Headed(b, f, bh, h) && forall i :: 0 <= i < |b| ==> bh[i]
    ensures SortsRotations(b, f)
  {
    hide Cyclic, LexLe, OrderedTo;
    forall i, j | 0 <= i < j < |f| ensures Cyclic(b, f[i], h) != Cyclic(b, f[j], h) {
      SameHead(b, f, bh, h, i, j);
      HeadStep(bh, j);
    }
    OrderedEnough(b, f, h);
  }

  /** The doubling loop: stops when H passes the block length or no bucket had two entries. */
  method DoublingLoop(fmap: array<int>, eclass: array<int>, bhtab: array<bool>, n: int, ghost b: seq<int>)
    requires fmap != eclass
    requires fmap.Length == eclass.Length == n == |b| && 0 < n <= Q.MAX_BLOCK && bhtab.Length >= 32 * (3 + n / 32)
    requires Headed(b, fmap[..], bhtab[..], 1) && InBuckets(b, fmap[..])
    modifies fmap, eclass, bhtab
    ensures SortsRotations(b, fmap[..])
    ensures InBuckets(b, fmap[..])
  {
    hide *;
    var H := 1;
    while true
      invariant 0 < H <= n
      invariant Headed(b, fmap[..], bhtab[..], H) && InBuckets(b, fmap[..])
      decreases n - H
    {
      ghost var f, bh := fmap[..], bhtab[..];
      HeadedFacts(b, f, bh, H);
      AssignClasses(fmap, eclass, bhtab, H, n);
      ghost var rk := ClassesRank(b, f, bh, H, eclass[..]);
      ghost var cls := RefiningStarts(b, f, bh, H, rk, eclass[..]);
      var nNotDone := RefinePass(fmap, eclass, bhtab, n, rk, cls);
      PassDoubles(b, f, fmap[..], bhtab[..], rk, eclass[..], cls, H);
      PassKeepsBuckets(b, f, bh, fmap[..], bhtab[..], rk, eclass[..], cls, H);
      H := H * 2;
      if H > n || nNotDone == 0 {
        if H > n {
          HeadedFacts(b, fmap[..], bhtab[..], H);
          OrderedEnough(b, fmap[..], H);
        } else {
          AllHeads(b, fmap[..], bhtab[..], H);
        }
        break;
      }
    }
  }
}
