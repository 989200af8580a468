/**
 Why gen_bitlen's repair works (dep/zlib/trees.c:486-562): the lengths it first gives a Huffman tree, cut off at
 the longest allowed, exceed a Kraft sum of one by half the number of nodes cut off.
 */
module BitLengths {
  import opened FlateCode
  import opened Counting
  import opened Powers

  const HEAP_SIZE := 573

  function Clamp(c: int, max: int): int {
    if c > max then max else c
  }

  /** The father of the node listed at i: fathers come in decreasing order, two sons each. */
  function DadAt(N: int, S: int, i: int): int {
    N - (i - S - 1) / 2
  }

  /**
   The list that build_tree leaves in the heap: at S the root N, behind it the sons of N, of N - 1, and so on to those
   of elems; nodes below elems are leaves. pos[y] is where y is listed, not past S if it is not.
   */
  ghost predicate Listed(heap: seq<int>, S: int, elems: int, N: int, pos: seq<int>) {
    && 1 <= elems <= N < |pos| && 0 <= S < HEAP_SIZE == |heap| && HEAP_SIZE - S - 1 == 2 * (N - elems + 1)
         && heap[S] == N
    && (forall i {:trigger heap[i]} :: S < i < HEAP_SIZE ==> 0 <= heap[i] < DadAt(N, S, i) && pos[heap[i]] == i)
    && (forall y {:trigger pos[y]} :: 0 <= y < N && pos[y] > S ==> pos[y] < HEAP_SIZE && heap[pos[y]] == y)
    && (forall t {:trigger pos[t]} :: elems <= t < N ==> S < pos[t])
  }

  /** The first lengths, for what is listed below h: the father's plus one, but no more than max. */
  ghost predicate Clamped(L: seq<int>, heap: seq<int>, S: int, elems: int, N: int, max: int, h: int) {
    && 0 <= S < h <= |heap| && 0 <= N < |L| && 1 <= max <= MAX_BITS && L[N] == 0
    && forall i {:trigger heap[i]} :: S < i < h ==>
         0 <= heap[i] < N && 0 <= DadAt(N, S, i) <= N && L[heap[i]] == Clamp(L[DadAt(N, S, i)] + 1, max)
  }

  // ----- sums over listed nodes ------------------------------------------------------------------------------------

  ghost function At(g: seq<int>, c: int): int {
    if 0 <= c < |g| then g[c] else 0
  }

  /** The sum of g over the lengths of the nodes lo..hi-1 listed from S + 1 to h - 1. */
  ghost function NodeSum(g: seq<int>, L: seq<int>, heap: seq<int>, S: int, lo: int, hi: int, h: int): int
    requires h <= |heap| && -1 <= S
    decreases h - S
  {
    if h <= S + 1 then 0
    else
      var y := heap[h - 1];
      NodeSum(g, L, heap, S, lo, hi, h - 1) + if lo <= y < hi && 0 <= y < |L| then At(g, L[y]) else 0
  }

  lemma {:induction false} SumSplits(g: seq<int>, L: seq<int>, heap: seq<int>, S: int, a: int, b: int, c: int, h: int)
    requires h <= |heap| && -1 <= S && a <= b <= c
    ensures NodeSum(g, L, heap, S, a, c, h) == NodeSum(g, L, heap, S, a, b, h) + NodeSum(g, L, heap, S, b, c, h)
    decreases h - S
  {
    if h > S + 1 { SumSplits(g, L, heap, S, a, b, c, h - 1); }
  }

  /** The same sum by node number. */
  ghost function DoneSum(g: seq<int>, L: seq<int>, pos: seq<int>, S: int, lo: int, hi: int, h: int): int
    requires 0 <= lo && hi <= |pos| && hi <= |L|
    decreases hi - lo
  {
    if hi <= lo then 0 else DoneSum(g, L, pos, S, lo, hi - 1, h) + if S < pos[hi - 1] < h then At(g, L[hi - 1]) else 0
  }

  lemma {:induction false} DoneStep(g: seq<int>, L: seq<int>, pos: seq<int>, S: int, lo: int, hi: int, h: int, y: int)
    requires 0 <= lo && hi <= |pos| && hi <= |L| && S < h && 0 <= y < |pos| && pos[y] == h
    requires forall x {:trigger pos[x]} :: 0 <= x < hi && pos[x] == h ==> x == y
    ensures DoneSum(g, L, pos, S, lo, hi, h + 1) == DoneSum(g, L, pos, S, lo, hi, h) + if lo
      <= y < hi then At(g, L[y]) else 0
    decreases hi - lo
  {
    if hi > lo { DoneStep(g, L, pos, S, lo, hi - 1, h, y); }
  }

  lemma {:induction false} DoneNothing(g: seq<int>, L: seq<int>, pos: seq<int>, S: int, lo: int, hi: int)
    requires 0 <= lo && hi <= |pos| && hi <= |L|
    ensures DoneSum(g, L, pos, S, lo, hi, S + 1) == 0
    decreases hi - lo
  {
    if hi > lo { DoneNothing(g, L, pos, S, lo, hi - 1); }
  }

  lemma {:induction false} SumByNumber(g: seq<int>, L: seq<int>, heap: seq<int>, S: int, elems: int, N: int,
                                       pos: seq<int>, lo: int, hi: int, h: int)
    requires Listed(heap, S, elems, N, pos) && N < |L| && 0 <= lo && hi <= N && S < h <= HEAP_SIZE
    ensures NodeSum(g, L, heap, S, lo, hi, h) == DoneSum(g, L, pos, S, lo, hi, h)
    decreases h
  {
    if h == S + 1 {
      DoneNothing(g, L, pos, S, lo, hi);
    } else {
      SumByNumber(g, L, heap, S, elems, N, pos, lo, hi, h - 1);
      var y := heap[h - 1];
      assert pos[y] == h - 1;
      forall x {:trigger pos[x]} | 0 <= x < hi && pos[x] == h - 1 ensures x == y {
        assert heap[pos[x]] == x;
      }
      hide Listed;
      DoneStep(g, L, pos, S, lo, hi, h - 1, y);
    }
  }

  /** The sum over all of lo..hi-1. */
  ghost function Range(g: seq<int>, L: seq<int>, lo: int, hi: int): int
    requires 0 <= lo && hi <= |L|
    decreases hi - lo
  {
    if hi <= lo then 0 else Range(g, L, lo, hi - 1) + At(g, L[hi - 1])
  }

  lemma {:induction false} AllDone(g: seq<int>, L: seq<int>, pos: seq<int>, S: int, lo: int, hi: int, h: int)
    requires 0 <= lo && hi <= |pos| && hi <= |L| && forall x {:trigger pos[x]} :: lo <= x < hi ==> S < pos[x] < h
    ensures DoneSum(g, L, pos, S, lo, hi, h) == Range(g, L, lo, hi)
    decreases hi - lo
  {
    if hi > lo { AllDone(g, L, pos, S, lo, hi - 1, h); }
  }

  /** The sum of g over the lengths that sons of lo..hi-1 get. */
  ghost function Sons(g: seq<int>, L: seq<int>, lo: int, hi: int, max: int): int
    requires 0 <= lo && hi <= |L|
    decreases hi - lo
  {
    if lo >= hi then 0 else Sons(g, L, lo + 1, hi, max) + At(g, Clamp(L[lo] + 1, max))
  }

  /** Nodes are listed two to a father. */
  lemma {:induction false} TwoSons(g: seq<int>, L: seq<int>, heap: seq<int>, S: int, elems: int, N: int, max: int,
                                   h: int, j: nat)
    requires Clamped(L, heap, S, elems, N, max, h) && S + 1 + 2 * j <= h && j <= N + 1
    ensures NodeSum(g, L, heap, S, 0, N, S + 1 + 2 * j) == 2 * Sons(g, L, N + 1 - j, N + 1, max)
    decreases j
  {
    if j > 0 {
      TwoSons(g, L, heap, S, elems, N, max, h, j - 1);
      var i := S + 2 * j;
      assert DadAt(N, S, i - 1) == N + 1 - j == DadAt(N, S, i);
      assert 0 <= heap[i - 1] < N && L[heap[i - 1]] == Clamp(L[DadAt(N, S, i - 1)] + 1, max);
      assert 0 <= heap[i] < N && L[heap[i]] == Clamp(L[DadAt(N, S, i)] + 1, max);
      OneSon(g, L, heap, S, N, i - 1);
      OneSon(g, L, heap, S, N, i);
      hide NodeSum, DadAt, Clamped;
    }
  }

  lemma OneSon(g: seq<int>, L: seq<int>, heap: seq<int>, S: int, N: int, i: int)
    requires -1 <= S < i < |heap| && 0 <= heap[i] < N < |L|
    ensures NodeSum(g, L, heap, S, 0, N, i + 1) == NodeSum(g, L, heap, S, 0, N, i) + At(g, L[heap[i]])
  {
  }

  /** What g gains from lo..hi-1 to their sons. */
  ghost function Gain(g: seq<int>, L: seq<int>, lo: int, hi: int, max: int): int
    requires 0 <= lo && hi <= |L|
    decreases hi - lo
  {
    if lo >= hi then 0 else Gain(g, L, lo + 1, hi, max) + 2 * At(g, Clamp(L[lo] + 1, max)) - At(g, L[lo])
  }

  lemma {:induction false} GainIs(g: seq<int>, L: seq<int>, lo: int, hi: int, max: int)
    requires 0 <= lo <= hi <= |L|
    ensures Gain(g, L, lo, hi, max) == 2 * Sons(g, L, lo, hi, max) - Range(g, L, lo, hi)
    decreases hi - lo
  {
    if lo < hi {
      GainIs(g, L, lo + 1, hi, max);
      RangeFirst(g, L, lo, hi);
    }
  }

  lemma {:induction false} RangeFirst(g: seq<int>, L: seq<int>, lo: int, hi: int)
    requires 0 <= lo < hi <= |L|
    ensures Range(g, L, lo, hi) == At(g, L[lo]) + Range(g, L, lo + 1, hi)
    decreases hi
  {
    if lo < hi - 1 { RangeFirst(g, L, lo, hi - 1); }
  }

  /** Over the leaves, g sums up to what it is at the root plus what it gains at each joined node. */
  lemma LeafSum(g: seq<int>, L: seq<int>, heap: seq<int>, S: int, elems: int, N: int, pos: seq<int>, max: int)
    requires Listed(heap, S, elems, N, pos) && Clamped(L, heap, S, elems, N, max, HEAP_SIZE)
    ensures NodeSum(g, L, heap, S, 0, elems, HEAP_SIZE) == At(g, 0) + Gain(g, L, elems, N + 1, max)
  {
    hide *;
    InnerListed(heap, S, elems, N, pos, L, max);
    TwoSons(g, L, heap, S, elems, N, max, HEAP_SIZE, N - elems + 1);
    SumSplits(g, L, heap, S, 0, elems, N, HEAP_SIZE);
    SumByNumber(g, L, heap, S, elems, N, pos, elems, N, HEAP_SIZE);
    AllDone(g, L, pos, S, elems, N, HEAP_SIZE);
    GainIs(g, L, elems, N + 1, max);
    RangeLast(g, L, elems, N);
  }

  lemma RangeLast(g: seq<int>, L: seq<int>, lo: int, hi: int)
    requires 0 <= lo <= hi < |L|
    ensures Range(g, L, lo, hi + 1) == Range(g, L, lo, hi) + At(g, L[hi])
  {
  }

  lemma InnerListed(heap: seq<int>, S: int, elems: int, N: int, pos: seq<int>, L: seq<int>, max: int)
    requires Listed(heap, S, elems, N, pos) && Clamped(L, heap, S, elems, N, max, HEAP_SIZE)
    ensures 1 <= elems <= N < |pos| && 0 <= S && S + 1 + 2 * (N + 1 - elems) == HEAP_SIZE == |heap| && N < |L|
      && L[N] == 0
    ensures forall x {:trigger pos[x]} :: elems <= x < N ==> S < pos[x] < HEAP_SIZE
  {
  }

  // ----- what is summed --------------------------------------------------------------------------------------------

  /** Shares of the code space, in units of 2^-max. */
  ghost function Shares(max: nat): (g: seq<int>)
    ensures |g| == max + 1 && forall c {:trigger g[c]} :: 0 <= c <= max ==> g[c] == Pow2(max - c)
  {
    seq(max + 1, c requires 0 <= c <= max => Pow2(max - c))
  }

  ghost function Ones(max: nat): (g: seq<int>)
    ensures |g| == max + 1 && forall c {:trigger g[c]} :: 0 <= c <= max ==> g[c] == 1
  {
    seq(max + 1, c => 1)
  }

  /** One for the length b, 0 for others. */
  ghost function Only(b: nat, max: nat): (g: seq<int>)
    ensures |g| == max + 1 && forall c {:trigger g[c]} :: 0 <= c <= max ==> g[c] == if c == b then 1 else 0
  {
    seq(max + 1, c => if c == b then 1 else 0)
  }

  /** How many of lo..hi-1 are cut off at max. */
  ghost function AtMax(L: seq<int>, lo: int, hi: int, max: int): nat
    requires 0 <= lo && hi <= |L|
    decreases hi - lo
  {
    if lo >= hi then 0 else AtMax(L, lo + 1, hi, max) + if L[lo] == max then 1 else 0
  }

  ghost predicate InRange(L: seq<int>, lo: int, hi: int, max: int) {
    0 <= lo && hi <= |L| && forall t {:trigger L[t]} :: lo <= t < hi ==> 0 <= L[t] <= max
  }

  lemma {:induction false} GainShares(L: seq<int>, lo: int, hi: int, max: nat)
    requires InRange(L, lo, hi, max)
    ensures Gain(Shares(max), L, lo, hi, max) == AtMax(L, lo, hi, max)
    decreases hi - lo
  {
    hide Shares;
    if lo < hi {
      GainShares(L, lo + 1, hi, max);
      var g := Shares(max);
      if L[lo] < max { assert g[L[lo]] == 2 * g[L[lo] + 1]; }
    }
  }

  lemma {:induction false} GainOnes(L: seq<int>, lo: int, hi: int, max: nat)
    requires InRange(L, lo, hi, max) && lo <= hi
    ensures Gain(Ones(max), L, lo, hi, max) == hi - lo
    decreases hi - lo
  {
    if lo < hi { GainOnes(L, lo + 1, hi, max); }
  }

  /** Leaves at max: each node cut off adds one, each just above it two. */
  lemma {:induction false} GainOnly(L: seq<int>, lo: int, hi: int, max: nat, t: int)
    requires InRange(L, lo, hi, max) && lo <= hi && max >= 1
    ensures Gain(Only(max, max), L, lo, hi, max) >= AtMax(L, lo, hi, max)
    ensures lo <= t < hi && L[t] == max - 1 ==> Gain(Only(max, max), L, lo, hi, max) > AtMax(L, lo, hi, max)
    decreases hi - lo
  {
    if lo < hi { GainOnly(L, lo + 1, hi, max, t); }
  }

  /** Above a node cut off there is one at max - 1. */
  lemma {:induction false} JustAbove(L: seq<int>, heap: seq<int>, S: int, elems: int, N: int, pos: seq<int>, max: int,
                                     t: int) returns (u: int)
    requires Listed(heap, S, elems, N, pos) && Clamped(L, heap, S, elems, N, max, HEAP_SIZE) && elems <= t <= N
      && L[t] == max
    ensures elems <= u <= N && L[u] == max - 1
    decreases N - t
  {
    assert t < N;
    var i := pos[t];
    assert heap[i] == t && S < i < HEAP_SIZE;
    var d := DadAt(N, S, i);
    assert t < d <= N && L[t] == Clamp(L[d] + 1, max);
    DadListed(heap, S, elems, N, pos, i);
    LengthsInRange(L, heap, S, elems, N, pos, max, d);
    if L[d] == max - 1 { u := d; } else { u := JustAbove(L, heap, S, elems, N, pos, max, d); }
  }

  lemma {:induction false} SomeAtMax(L: seq<int>, lo: int, hi: int, max: int) returns (t: int)
    requires 0 <= lo && hi <= |L| && AtMax(L, lo, hi, max) > 0
    ensures lo <= t < hi && L[t] == max
    decreases hi - lo
  {
    if L[lo] == max { t := lo; } else { t := SomeAtMax(L, lo + 1, hi, max); }
  }

  lemma {:induction false} LengthsInRange(L: seq<int>, heap: seq<int>, S: int, elems: int, N: int, pos: seq<int>,
                                          max: int, t: int)
    requires Listed(heap, S, elems, N, pos) && Clamped(L, heap, S, elems, N, max, HEAP_SIZE) && 0 <= t <= N
      && (t < N ==> pos[t] > S)
    ensures 0 <= L[t] <= max && (t < N ==> 1 <= L[t])
    decreases N - t
  {
    if t < N {
      var i := pos[t];
      assert heap[i] == t && S < i < HEAP_SIZE;
      var d := DadAt(N, S, i);
      assert t < d <= N && L[t] == Clamp(L[d] + 1, max);
      if d < N { DadListed(heap, S, elems, N, pos, i); }
      LengthsInRange(L, heap, S, elems, N, pos, max, d);
    }
  }

  lemma DadListed(heap: seq<int>, S: int, elems: int, N: int, pos: seq<int>, i: int)
    requires Listed(heap, S, elems, N, pos) && S < i < HEAP_SIZE
    ensures elems <= DadAt(N, S, i) <= N && (DadAt(N, S, i) < N ==> pos[DadAt(N, S, i)] > S)
  {
  }

  /** How many listed below h were cut off. */
  ghost function Overflow(L: seq<int>, S: int, N: int, max: int, h: int): nat
    requires -1 <= S
    decreases h - S
  {
    if h <= S + 1 then 0
    else Overflow(L, S, N, max, h - 1) + if 0 <= DadAt(N, S, h - 1) < |L| && L[DadAt(N, S, h - 1)] + 1 > max then 1
      else 0
  }

  lemma {:induction false} OverflowIs(L: seq<int>, S: int, N: int, max: int, j: nat)
    requires -1 <= S && 0 <= N < |L| && j <= N + 1 && InRange(L, N + 1 - j, N + 1, max)
    ensures Overflow(L, S, N, max, S + 1 + 2 * j) == 2 * AtMax(L, N + 1 - j, N + 1, max)
    decreases j
  {
    if j > 0 {
      OverflowIs(L, S, N, max, j - 1);
      assert DadAt(N, S, S + 2 * j - 1) == N + 1 - j == DadAt(N, S, S + 2 * j);
      hide DadAt;
    }
  }

  /** How many leaves have each length. */
  ghost function LeafCounts(L: seq<int>, heap: seq<int>, S: int, elems: int, max: nat, h: int): (cnt: seq<int>)
    requires h <= |heap| && -1 <= S && max <= MAX_BITS
    ensures |cnt| == MAX_BITS + 1
    ensures forall b {:trigger cnt[b]} :: 0 <= b <= MAX_BITS ==>
      cnt[b] == if 1 <= b <= max then NodeSum(Only(b, max), L, heap, S, 0, elems, h) else 0
  {
    seq(MAX_BITS + 1, b requires 0 <= b <= MAX_BITS => if 1 <= b <= max
      then NodeSum(Only(b, max), L, heap, S, 0, elems, h) else 0)
  }

  ghost function Total(cnt: seq<int>, l: nat): int
    requires l < |cnt|
  {
    if l == 0 then 0 else Total(cnt, l - 1) + cnt[l]
  }

  lemma {:induction false} TotalChange(cnt: seq<int>, b: int, d: int, l: nat)
    requires 1 <= b < |cnt| && l < |cnt|
    ensures Total(cnt[b := cnt[b] + d], l) == Total(cnt, l) + if b <= l then d else 0
    decreases l
  {
    if l > 0 { TotalChange(cnt, b, d, l - 1); }
  }

  /** One more leaf counted. */
  lemma CountOneMore(L: seq<int>, heap: seq<int>, S: int, elems: int, max: nat, h: int)
    requires -1 <= S < h < |heap| && max <= MAX_BITS && 0 <= heap[h] < |L| && 1 <= L[heap[h]] <= max
    ensures var cnt, b := LeafCounts(L, heap, S, elems, max, h), L[heap[h]];
      LeafCounts(L, heap, S, elems, max, h + 1) == if heap[h] < elems then cnt[b := cnt[b] + 1] else cnt
  {
    var cnt, b := LeafCounts(L, heap, S, elems, max, h), L[heap[h]];
    var cnt' := LeafCounts(L, heap, S, elems, max, h + 1);
    forall c {:trigger cnt'[c]} | 0 <= c <= MAX_BITS
      ensures cnt'[c] == cnt[c] + if heap[h] < elems && c == b then 1 else 0
    {
      if 1 <= c <= max { assert At(Only(c, max), b) == if b == c then 1 else 0; }
    }
  }

  /** The counts add up to the Kraft sum and to the number of leaves. */
  lemma {:induction false} CountsAddUp(L: seq<int>, heap: seq<int>, S: int, elems: int, max: nat, h: int)
    requires -1 <= S < h <= |heap| && 1 <= max <= MAX_BITS
    requires forall i {:trigger heap[i]} :: S < i < h ==> 0 <= heap[i] < |L| && 1 <= L[heap[i]] <= max
    ensures Used(LeafCounts(L, heap, S, elems, max, h), max) == NodeSum(Shares(max), L, heap, S, 0, elems, h)
    ensures Total(LeafCounts(L, heap, S, elems, max, h), max) == NodeSum(Ones(max), L, heap, S, 0, elems, h)
    decreases h
  {
    hide LeafCounts, Used, Total, Shares, Ones, Pow2;
    if h == S + 1 {
      NothingCounted(L, heap, S, elems, max, max);
    } else {
      CountsAddUp(L, heap, S, elems, max, h - 1);
      CountOneMore(L, heap, S, elems, max, h - 1);
      var cnt, b := LeafCounts(L, heap, S, elems, max, h - 1), L[heap[h - 1]];
      UsedChange(cnt, b, 1, max);
      TotalChange(cnt, b, 1, max);
      assert At(Shares(max), b) == Pow2(max - b) && At(Ones(max), b) == 1;
    }
  }

  lemma {:induction false} NothingCounted(L: seq<int>, heap: seq<int>, S: int, elems: int, max: nat, l: nat)
    requires -1 <= S < |heap| && max <= MAX_BITS && l <= max
    ensures Used(LeafCounts(L, heap, S, elems, max, S + 1), l) == 0
      == Total(LeafCounts(L, heap, S, elems, max, S + 1), l)
    decreases l
  {
    if l > 0 { NothingCounted(L, heap, S, elems, max, l - 1); }
  }

  /**
   After the first pass: the leaves number one more than the joins; the Kraft sum exceeds one by half the nodes cut off,
   and if any were, the leaves at max are more than that.
   */
  lemma FirstPass(L: seq<int>, heap: seq<int>, S: int, elems: int, N: int, pos: seq<int>, max: nat) returns (half: nat)
    requires Listed(heap, S, elems, N, pos) && 1 <= max && Clamped(L, heap, S, elems, N, max, HEAP_SIZE)
    ensures max <= MAX_BITS && |heap| == HEAP_SIZE && 0 <= S && Overflow(L, S, N, max, HEAP_SIZE) == 2 * half
    ensures Used(LeafCounts(L, heap, S, elems, max, HEAP_SIZE), max) == Pow2(max) + half
    ensures Total(LeafCounts(L, heap, S, elems, max, HEAP_SIZE), max) == N - elems + 2
    ensures half > 0 ==> LeafCounts(L, heap, S, elems, max, HEAP_SIZE)[max] > half
  {
    hide *;
    ListSize(heap, S, elems, N, pos);
    ListedInRange(L, heap, S, elems, N, pos, max);
    half := AtMax(L, elems, N + 1, max);
    OverflowIs(L, S, N, max, N + 1 - elems);
    CountsAddUp(L, heap, S, elems, max, HEAP_SIZE);
    LeafSum(Shares(max), L, heap, S, elems, N, pos, max);
    GainShares(L, elems, N + 1, max);
    LeafSum(Ones(max), L, heap, S, elems, N, pos, max);
    GainOnes(L, elems, N + 1, max);
    AtRoot(max);
    if half > 0 { EnoughAtMax(L, heap, S, elems, N, pos, max); }
  }

  lemma AtRoot(max: nat)
    requires max >= 1
    ensures At(Shares(max), 0) == Pow2(max) && At(Ones(max), 0) == 1 && At(Only(max, max), 0) == 0
  {
    hide Pow2;
  }

  lemma EnoughAtMax(L: seq<int>, heap: seq<int>, S: int, elems: int, N: int, pos: seq<int>, max: nat)
    requires Listed(heap, S, elems, N, pos) && 1 <= max && Clamped(L, heap, S, elems, N, max, HEAP_SIZE)
      && AtMax(L, elems, N + 1, max) > 0
    ensures LeafCounts(L, heap, S, elems, max, HEAP_SIZE)[max] > AtMax(L, elems, N + 1, max)
  {
    hide *;
    ListedInRange(L, heap, S, elems, N, pos, max);
    ListedPlaces(heap, S, elems, N, pos);
    var t := SomeAtMax(L, elems, N + 1, max);
    var u := JustAbove(L, heap, S, elems, N, pos, max, t);
    LeafSum(Only(max, max), L, heap, S, elems, N, pos, max);
    GainOnly(L, elems, N + 1, max, u);
    AtRoot(max);
    CountAtMax(L, heap, S, elems, max);
  }

  lemma ListedPlaces(heap: seq<int>, S: int, elems: int, N: int, pos: seq<int>)
    requires Listed(heap, S, elems, N, pos)
    ensures 0 <= elems <= N + 1 && -1 <= S && HEAP_SIZE <= |heap|
  {
  }

  lemma CountAtMax(L: seq<int>, heap: seq<int>, S: int, elems: int, max: nat)
    requires 1 <= max <= MAX_BITS && -1 <= S && HEAP_SIZE <= |heap|
    requires forall i {:trigger heap[i]} :: S < i < HEAP_SIZE ==> 0 <= heap[i] < |L|
    ensures LeafCounts(L, heap, S, elems, max, HEAP_SIZE)[max]
      == NodeSum(Only(max, max), L, heap, S, 0, elems, HEAP_SIZE)
  {
    hide NodeSum, Only;
  }

  lemma ListSize(heap: seq<int>, S: int, elems: int, N: int, pos: seq<int>)
    requires Listed(heap, S, elems, N, pos)
    ensures 1 <= elems <= N && 0 <= S && S + 1 + 2 * (N + 1 - elems) == HEAP_SIZE == |heap|
  {
  }

  lemma ListedInRange(L: seq<int>, heap: seq<int>, S: int, elems: int, N: int, pos: seq<int>, max: nat)
    requires Listed(heap, S, elems, N, pos) && Clamped(L, heap, S, elems, N, max, HEAP_SIZE)
    ensures InRange(L, elems, N + 1, max) && N < |L| && 1 <= max <= MAX_BITS
    ensures forall i {:trigger heap[i]} :: S < i < HEAP_SIZE ==> 0 <= heap[i] < |L| && 1 <= L[heap[i]] <= max
  {
    forall t {:trigger L[t]} | elems <= t < N + 1 ensures 0 <= L[t] <= max {
      assert t < N ==> pos[t] > S;
      LengthsInRange(L, heap, S, elems, N, pos, max, t);
    }
    forall i {:trigger heap[i]} | S < i < HEAP_SIZE ensures 0 <= heap[i] < |L| && 1 <= L[heap[i]] <= max {
      LengthsInRange(L, heap, S, elems, N, pos, max, heap[i]);
    }
  }

  // ----- the first pass, node by node ------------------------------------------------------------------------------

  lemma {:induction false} SumFrame(g: seq<int>, L: seq<int>, heap: seq<int>, S: int, lo: int, hi: int, h: int, y: int,
                                    v: int)
    requires h <= |heap| && -1 <= S && 0 <= y < |L| && forall i {:trigger heap[i]} :: S < i < h ==> heap[i] != y
    ensures NodeSum(g, L[y := v], heap, S, lo, hi, h) == NodeSum(g, L, heap, S, lo, hi, h)
    decreases h - S
  {
    if h > S + 1 { SumFrame(g, L, heap, S, lo, hi, h - 1, y, v); }
  }

  lemma CountsFrame(L: seq<int>, heap: seq<int>, S: int, elems: int, max: nat, h: int, y: int, v: int)
    requires h <= |heap| && -1 <= S && max <= MAX_BITS && 0 <= y < |L| && forall i {:trigger heap[i]} :: S < i < h ==>
      heap[i] != y
    ensures LeafCounts(L[y := v], heap, S, elems, max, h) == LeafCounts(L, heap, S, elems, max, h)
  {
    var a, b := LeafCounts(L[y := v], heap, S, elems, max, h), LeafCounts(L, heap, S, elems, max, h);
    forall c {:trigger a[c]} | 0 <= c <= MAX_BITS ensures a[c] == b[c] {
      if 1 <= c <= max { SumFrame(Only(c, max), L, heap, S, 0, elems, h, y, v); }
    }
  }

  lemma {:induction false} OverflowFrame(L: seq<int>, S: int, N: int, max: int, h: int, y: int, v: int)
    requires -1 <= S && 0 <= y < |L| && (h > S + 1 ==> y < DadAt(N, S, h - 1))
    ensures Overflow(L[y := v], S, N, max, h) == Overflow(L, S, N, max, h)
    decreases h - S
  {
    if h > S + 1 {
      assert h - 1 > S + 1 ==> DadAt(N, S, h - 2) >= DadAt(N, S, h - 1);
      OverflowFrame(L, S, N, max, h - 1, y, v);
    }
  }

  ghost predicate HalfWay(L: seq<int>, heap: seq<int>, S: int, elems: int, N: int, pos: seq<int>, max: nat, h: int) {
    && Listed(heap, S, elems, N, pos) && Clamped(L, heap, S, elems, N, max, h)
    && (forall i {:trigger heap[i]} :: S < i < h ==> 1 <= L[heap[i]] <= max)
    && (forall i {:trigger heap[i]} :: h <= i < HEAP_SIZE ==> L[heap[i]] == DadAt(N, S, i))
  }

  /** The first pass as far as h: behind h, an entry still is the node's father. */
  ghost predicate FirstLengths(L: seq<int>, heap: seq<int>, S: int, elems: int, N: int, pos: seq<int>, max: nat, h: int,
                               cnt: seq<int>, overflow: int) {
    && HalfWay(L, heap, S, elems, N, pos, max, h)
    && cnt == LeafCounts(L, heap, S, elems, max, h) && overflow == Overflow(L, S, N, max, h)
  }

  lemma FirstLengthsSizes(L: seq<int>, heap: seq<int>, S: int, elems: int, N: int, pos: seq<int>, max: nat, h: int,
                          cnt: seq<int>, overflow: int)
    requires FirstLengths(L, heap, S, elems, N, pos, max, h, cnt, overflow) && h < HEAP_SIZE
    ensures 0 <= S < h < HEAP_SIZE == |heap| && 0 <= heap[h] < N < |L| && |cnt| == MAX_BITS + 1 && 1 <= max <= MAX_BITS
    ensures 0 <= L[heap[h]] < |L| && 0 <= L[L[heap[h]]] <= max
    ensures heap[h] < L[heap[h]] == DadAt(N, S, h) <= N
  {
    hide LeafCounts, Overflow;
    var d := DadAt(N, S, h);
    assert L[heap[h]] == d;
    FatherFirst(heap, S, elems, N, pos, h);
    if d < N { assert heap[pos[d]] == d; }
  }

  /** The father of the node listed at h is listed before it. */
  lemma FatherFirst(heap: seq<int>, S: int, elems: int, N: int, pos: seq<int>, h: int)
    requires Listed(heap, S, elems, N, pos) && S < h < HEAP_SIZE
    ensures elems <= DadAt(N, S, h) <= N
      && (DadAt(N, S, h) < N ==> S < pos[DadAt(N, S, h)] < h && heap[pos[DadAt(N, S, h)]] == DadAt(N, S, h))
  {
    var d := DadAt(N, S, h);
    if d < N {
      var p := pos[d];
      assert heap[p] == d && d < DadAt(N, S, p);
    }
  }

  lemma FirstStep(L: seq<int>, heap: seq<int>, S: int, elems: int, N: int, pos: seq<int>, max: nat, h: int,
                  cnt: seq<int>, overflow: int)
    requires FirstLengths(L, heap, S, elems, N, pos, max, h, cnt, overflow) && h < HEAP_SIZE
    requires 0 <= S < h < |heap| && 0 <= heap[h] < |L| && 0 <= L[heap[h]] < |L| && 0 <= L[L[heap[h]]] <= max
      && |cnt| == MAX_BITS + 1 && 1 <= max <= MAX_BITS
    ensures var n := heap[h]; var bits := Clamp(L[L[n]] + 1, max);
      1 <= bits <= max &&
      FirstLengths(L[n := bits], heap, S, elems, N, pos, max, h + 1,
                   if n < elems then cnt[bits := cnt[bits] + 1] else cnt, overflow + if L[L[n]] + 1 > max then 1 else 0)
  {
    hide Clamp, HalfWay, LeafCounts, Overflow, DadAt, Listed, Clamped;
    FirstLengthsSizes(L, heap, S, elems, N, pos, max, h, cnt, overflow);
    var n := heap[h];
    var bits := Clamp(L[L[n]] + 1, max);
    HalfStep(L, heap, S, elems, N, pos, max, h);
    CountsFrame(L, heap, S, elems, max, h, n, bits);
    CountOneMore(L[n := bits], heap, S, elems, max, h);
    DadBefore(N, S, h, n);
    OverflowFrame(L, S, N, max, h, n, bits);
    OverflowMore(L[n := bits], S, N, max, h);
  }

  lemma ClampedStep(L: seq<int>, heap: seq<int>, S: int, elems: int, N: int, max: int, h: int, bits: int)
    requires Clamped(L, heap, S, elems, N, max, h) && h < |heap| && 0 <= heap[h] < N && 0 <= DadAt(N, S, h) <= N
      && bits == Clamp(L[DadAt(N, S, h)] + 1, max)
    requires forall i {:trigger heap[i]} :: S < i < h ==> heap[i] != heap[h]
    requires forall i {:trigger DadAt(N, S, i)} :: S < i <= h ==> heap[h] < DadAt(N, S, i)
    ensures Clamped(L[heap[h] := bits], heap, S, elems, N, max, h + 1)
  {
    hide DadAt, Clamp;
    forall i {:trigger heap[i]} | S < i < h + 1
      ensures 0 <= heap[i] < N && 0 <= DadAt(N, S, i) <= N
      ensures L[heap[h] := bits][heap[i]] == Clamp(L[heap[h] := bits][DadAt(N, S, i)] + 1, max)
    {
      ClampedPlace(L, heap, S, elems, N, max, h, bits, i);
    }
  }

  lemma ClampedPlace(L: seq<int>, heap: seq<int>, S: int, elems: int, N: int, max: int, h: int, bits: int, i: int)
    requires Clamped(L, heap, S, elems, N, max, h) && h < |heap| && 0 <= heap[h] < N && 0 <= DadAt(N, S, h) <= N
      && bits == Clamp(L[DadAt(N, S, h)] + 1, max)
    requires S < i <= h && heap[h] < DadAt(N, S, i) && (i < h ==> heap[i] != heap[h])
    ensures 0 <= heap[i] < N && 0 <= DadAt(N, S, i) <= N
    ensures L[heap[h] := bits][heap[i]] == Clamp(L[heap[h] := bits][DadAt(N, S, i)] + 1, max)
  {
    hide DadAt, Clamp;
    var d := DadAt(N, S, i);
    assert i < h ==> L[heap[i]] == Clamp(L[d] + 1, max);
    assert L[heap[h] := bits][d] == L[d];
  }

  lemma FreshAt(heap: seq<int>, S: int, elems: int, N: int, pos: seq<int>, h: int)
    requires Listed(heap, S, elems, N, pos) && S < h < HEAP_SIZE
    ensures 0 <= heap[h] < DadAt(N, S, h) <= N && forall i {:trigger heap[i]} :: S < i < HEAP_SIZE && i != h ==>
      heap[i] != heap[h]
    ensures forall i {:trigger DadAt(N, S, i)} :: S < i <= h ==> heap[h] < DadAt(N, S, i)
  {
    forall i {:trigger heap[i]} | S < i < HEAP_SIZE && i != h ensures heap[i] != heap[h] {
      assert pos[heap[i]] == i && pos[heap[h]] == h;
    }
  }

  lemma HalfStep(L: seq<int>, heap: seq<int>, S: int, elems: int, N: int, pos: seq<int>, max: nat, h: int)
    requires HalfWay(L, heap, S, elems, N, pos, max, h) && h < HEAP_SIZE
    requires 0 <= S < h < |heap| && 0 <= heap[h] < |L| && 0 <= L[heap[h]] < |L| && 0 <= L[L[heap[h]]] <= max
    ensures var n := heap[h]; var bits := Clamp(L[L[n]] + 1, max);
      1 <= bits <= max && HalfWay(L[n := bits], heap, S, elems, N, pos, max, h + 1) && L[L[n]] == L[n := bits][L[n]]
    ensures forall i {:trigger heap[i]} :: S < i < h ==> heap[i] != heap[h]
  {
    FreshAt(heap, S, elems, N, pos, h);
    var n := heap[h];
    var bits := Clamp(L[L[n]] + 1, max);
    assert L[n] == DadAt(N, S, h) && 1 <= bits <= max;
    ClampedStep(L, heap, S, elems, N, max, h, bits);
    hide Clamped, Listed, DadAt, Clamp;
    var L' := L[n := bits];
    forall i {:trigger heap[i]} | S < i < h + 1 ensures 1 <= L'[heap[i]] <= max {
      if i < h { assert L'[heap[i]] == L[heap[i]]; }
    }
    forall i {:trigger heap[i]} | h + 1 <= i < HEAP_SIZE ensures L'[heap[i]] == DadAt(N, S, i) {
      assert L'[heap[i]] == L[heap[i]];
    }
  }

  lemma DadBefore(N: int, S: int, h: int, n: int)
    requires n < DadAt(N, S, h)
    ensures h > S + 1 ==> n < DadAt(N, S, h - 1)
  {
  }

  lemma OverflowMore(L: seq<int>, S: int, N: int, max: int, h: int)
    requires -1 <= S < h && 0 <= DadAt(N, S, h) < |L|
    ensures Overflow(L, S, N, max, h + 1) == Overflow(L, S, N, max, h) + if L[DadAt(N, S, h)] + 1 > max then 1 else 0
  {
  }

  // ----- dealing out the repaired lengths ----------------------------------------------------------------------------

  lemma {:induction false} SumFront(g: seq<int>, L: seq<int>, heap: seq<int>, lo: int, hi: int, h: int, e: int)
    requires 0 <= h < e <= |heap|
    ensures NodeSum(g, L, heap, h - 1, lo, hi, e) == NodeSum(g, L, heap, h, lo, hi, e) + if lo <= heap[h] < hi && 0
      <= heap[h] < |L| then At(g, L[heap[h]]) else 0
    decreases e
  {
    if e == h + 1 {
      assert NodeSum(g, L, heap, h, lo, hi, h + 1) == 0 == NodeSum(g, L, heap, h - 1, lo, hi, h);
    } else {
      SumFront(g, L, heap, lo, hi, h, e - 1);
    }
  }

  lemma {:induction false} SumJoins(g: seq<int>, L: seq<int>, heap: seq<int>, S: int, lo: int, hi: int, h: int, e: int)
    requires -1 <= S < h <= e <= |heap|
    ensures NodeSum(g, L, heap, S, lo, hi, e)
      == NodeSum(g, L, heap, S, lo, hi, h) + NodeSum(g, L, heap, h - 1, lo, hi, e)
    decreases e
  {
    if e > h { SumJoins(g, L, heap, S, lo, hi, h, e - 1); }
  }

  lemma CountFront(L: seq<int>, heap: seq<int>, elems: int, max: nat, h: int, now: seq<int>, was: seq<int>)
    requires 0 <= h < |heap| && max <= MAX_BITS && 0 <= heap[h] < |L|
    requires now == LeafCounts(L, heap, h - 1, elems, max, |heap|) && was == LeafCounts(L, heap, h, elems, max, |heap|)
    ensures forall b {:trigger now[b]} {:trigger was[b]} :: 1 <= b <= max ==>
      now[b] == was[b] + if heap[h] < elems && L[heap[h]] == b then 1 else 0
  {
    forall b {:trigger now[b]} | 1 <= b <= max
      ensures now[b] == was[b] + if heap[h] < elems && L[heap[h]] == b then 1 else 0
    {
      SumFront(Only(b, max), L, heap, 0, elems, h, |heap|);
    }
  }

  /** The leaves listed from S + 1 to h - 1. */
  ghost function LeafNo(heap: seq<int>, S: int, elems: int, h: int): nat
    requires h <= |heap| && -1 <= S
    decreases h - S
  {
    if h <= S + 1 then 0 else LeafNo(heap, S, elems, h - 1) + if heap[h - 1] < elems then 1 else 0
  }

  /**
   The leaves from h on have the longest of the lengths counted, the longest at the back; n of length bits are still to
   come.
   */
  ghost predicate Dealt(L: seq<int>, heap: seq<int>, S: int, elems: int, max: nat, h: int, cnt: seq<int>, bits: nat,
                        n: int) {
    && 0 <= S < h <= |heap| && |cnt| == MAX_BITS + 1 && bits <= max <= MAX_BITS && 0 <= n
    && (forall i {:trigger heap[i]} :: S < i < |heap| ==> 0 <= heap[i] < |L|)
    && DealtCounts(LeafCounts(L, heap, h - 1, elems, max, |heap|), max, cnt, bits, n)
    && LeafNo(heap, S, elems, h) == (if bits == 0 then 0 else Total(cnt, bits - 1) + n)
    && DealtOrder(L, heap, elems, h, bits)
  }

  ghost predicate DealtCounts(dealt: seq<int>, max: nat, cnt: seq<int>, bits: nat, n: int) {
    |dealt| == |cnt| == MAX_BITS + 1 && max <= MAX_BITS
    && forall b {:trigger dealt[b]} {:trigger cnt[b]} :: 1 <= b <= max ==>
         dealt[b] == if b > bits then cnt[b] else if b == bits then cnt[b] - n else 0
  }

  ghost predicate DealtOrder(L: seq<int>, heap: seq<int>, elems: int, h: int, bits: nat) {
    && 0 <= h && (forall i {:trigger heap[i]} :: h <= i < |heap| ==> 0 <= heap[i] < |L|)
    && (forall i {:trigger heap[i]} :: h <= i < |heap| && heap[i] < elems ==> bits <= L[heap[i]])
    && (forall i, j {:trigger heap[i], heap[j]} :: h <= i < j < |heap| && heap[i] < elems && heap[j] < elems ==>
         L[heap[i]] <= L[heap[j]])
  }

  lemma {:induction false} NotNegative(cnt: seq<int>, l: nat)
    requires l < |cnt| && forall b {:trigger cnt[b]} :: 1 <= b <= l ==> cnt[b] >= 0
    ensures Total(cnt, l) >= 0
    decreases l
  {
    if l > 0 { NotNegative(cnt, l - 1); }
  }

  /** While lengths are left there are leaves left. */
  lemma LeavesLeft(L: seq<int>, heap: seq<int>, S: int, elems: int, max: nat, h: int, cnt: seq<int>, bits: nat, n: int)
    requires Dealt(L, heap, S, elems, max, h, cnt, bits, n) && n > 0 && bits > 0 && forall b {:trigger cnt[b]} ::
      0 <= b < |cnt| ==> cnt[b] >= 0
    ensures S + 1 < h && 0 <= heap[h - 1] < |L|
  {
    hide LeafCounts, Total;
    NotNegative(cnt, bits - 1);
  }

  /** The node before h is passed over, or takes the length bits. */
  lemma DealOne(L: seq<int>, heap: seq<int>, S: int, elems: int, N: int, pos: seq<int>, max: nat, h: int, cnt: seq<int>,
                bits: nat, n: int)
    requires Dealt(L, heap, S, elems, max, h, cnt, bits, n) && Listed(heap, S, elems, N, pos) && S + 1 < h && 1 <= bits
      && n > 0
    requires 0 <= heap[h - 1] < |L|
    ensures heap[h - 1] >= elems ==> Dealt(L, heap, S, elems, max, h - 1, cnt, bits, n)
    ensures heap[h - 1] < elems ==> Dealt(L[heap[h - 1] := bits], heap, S, elems, max, h - 1, cnt, bits, n - 1)
  {
    if heap[h - 1] >= elems {
      DealNone(L, heap, S, elems, max, h, cnt, bits, n);
    } else {
      DealLeaf(L, heap, S, elems, N, pos, max, h, cnt, bits, n);
    }
  }

  lemma DealNone(L: seq<int>, heap: seq<int>, S: int, elems: int, max: nat, h: int, cnt: seq<int>, bits: nat, n: int)
    requires Dealt(L, heap, S, elems, max, h, cnt, bits, n) && S + 1 < h && heap[h - 1] >= elems
      && 0 <= heap[h - 1] < |L|
    ensures Dealt(L, heap, S, elems, max, h - 1, cnt, bits, n)
  {
    hide Total;
    hide LeafCounts;
    var now, was := LeafCounts(L, heap, h - 1 - 1, elems, max, |heap|), LeafCounts(L, heap, h - 1, elems, max, |heap|);
    CountFront(L, heap, elems, max, h - 1, now, was);
  }

  lemma DealLeaf(L: seq<int>, heap: seq<int>, S: int, elems: int, N: int, pos: seq<int>, max: nat, h: int,
                 cnt: seq<int>, bits: nat, n: int)
    requires Dealt(L, heap, S, elems, max, h, cnt, bits, n) && Listed(heap, S, elems, N, pos) && S + 1 < h && 1 <= bits
      && n > 0
    requires 0 <= heap[h - 1] < |L| && heap[h - 1] < elems
    ensures Dealt(L[heap[h - 1] := bits], heap, S, elems, max, h - 1, cnt, bits, n - 1)
  {
    hide Total;
    var y := heap[h - 1];
    var L' := L[y := bits];
    forall i {:trigger heap[i]} | h <= i < |heap|
      ensures heap[i] != y
    {
      assert pos[heap[i]] == i && pos[heap[h - 1]] == h - 1;
    }
    hide Listed, LeafCounts;
    CountsFrame(L, heap, h - 1, elems, max, |heap|, y, bits);
    var now, was := LeafCounts(L', heap, h - 1 - 1, elems, max, |heap|), LeafCounts(L', heap, h - 1, elems, max,
        |heap|);
    CountFront(L', heap, elems, max, h - 1, now, was);
  }

  lemma NextLength(L: seq<int>, heap: seq<int>, S: int, elems: int, max: nat, h: int, cnt: seq<int>, bits: nat)
    requires Dealt(L, heap, S, elems, max, h, cnt, bits, 0) && 1 <= bits && cnt[0] == 0 && cnt[bits - 1] >= 0
    ensures Dealt(L, heap, S, elems, max, h, cnt, bits - 1, cnt[bits - 1])
  {
    assert Total(cnt, bits - 1) == if bits == 1 then 0 else Total(cnt, bits - 2) + cnt[bits - 1];
    hide Total, LeafCounts, LeafNo;
  }

  lemma {:induction false} LeafNoIsTotal(L: seq<int>, heap: seq<int>, S: int, elems: int, max: nat, h: int)
    requires -1 <= S < h <= |heap| && forall i {:trigger heap[i]} :: S < i < h ==>
      0 <= heap[i] < |L| && 0 <= L[heap[i]] <= max
    ensures LeafNo(heap, S, elems, h) == NodeSum(Ones(max), L, heap, S, 0, elems, h)
    decreases h
  {
    if h > S + 1 {
      LeafNoIsTotal(L, heap, S, elems, max, h - 1);
      assert At(Ones(max), L[heap[h - 1]]) == 1;
    }
  }

  lemma DealingStarts(L: seq<int>, heap: seq<int>, S: int, elems: int, max: nat, cnt: seq<int>)
    requires 0 <= S < |heap| && 1 <= max <= MAX_BITS && |cnt| == MAX_BITS + 1 && cnt[max] >= 0
    requires forall i {:trigger heap[i]} :: S < i < |heap| ==> 0 <= heap[i] < |L|
    requires LeafNo(heap, S, elems, |heap|) == Total(cnt, max)
    ensures Dealt(L, heap, S, elems, max, |heap|, cnt, max, cnt[max])
  {
    forall b | 1 <= b <= max ensures NodeSum(Only(b, max), L, heap, |heap| - 1, 0, elems, |heap|) == 0 {}
  }

  lemma {:induction false} NoLeaves(g: seq<int>, L: seq<int>, heap: seq<int>, S: int, elems: int, h: int)
    requires -1 <= S && h <= |heap| && LeafNo(heap, S, elems, h) == 0
    ensures NodeSum(g, L, heap, S, 0, elems, h) == 0
    decreases h - S
  {
    if h > S + 1 { NoLeaves(g, L, heap, S, elems, h - 1); }
  }

  lemma {:induction false} NoLeafBefore(heap: seq<int>, S: int, elems: int, h: int, i: int)
    requires -1 <= S < i < h <= |heap| && LeafNo(heap, S, elems, h) == 0
    ensures heap[i] >= elems
    decreases h
  {
    if i < h - 1 { NoLeafBefore(heap, S, elems, h - 1, i); }
  }

  /** Once all are dealt out, the leaves have the lengths counted, longer ones further back. */
  lemma AllDealt(L: seq<int>, heap: seq<int>, S: int, elems: int, max: nat, h: int, cnt: seq<int>, n: int)
    requires Dealt(L, heap, S, elems, max, h, cnt, 0, n)
      && (forall b {:trigger cnt[b]} :: max < b <= MAX_BITS ==> cnt[b] == 0) && cnt[0] == 0
    ensures LeafCounts(L, heap, S, elems, max, |heap|) == cnt
    ensures LongerBehind(L, heap, S, elems)
  {
    hide LeafCounts;
    var all := LeafCounts(L, heap, S, elems, max, |heap|);
    forall b {:trigger cnt[b]} | 0 <= b <= MAX_BITS ensures all[b] == cnt[b] {
      if 1 <= b <= max {
        SumJoins(Only(b, max), L, heap, S, 0, elems, h, |heap|);
        NoLeaves(Only(b, max), L, heap, S, elems, h);
      }
    }
    forall i {:trigger heap[i]} | S < i < h ensures heap[i] >= elems { NoLeafBefore(heap, S, elems, h, i); }
  }

  /** Of the leaves listed behind S, those further back have the longer codes. */
  ghost predicate LongerBehind(L: seq<int>, heap: seq<int>, S: int, elems: int) {
    && 0 <= S && (forall i {:trigger heap[i]} :: S < i < |heap| ==> 0 <= heap[i] < |L|)
    && (forall i, j {:trigger heap[i], heap[j]} :: S < i < j < |heap| && heap[i] < elems && heap[j] < elems ==>
         L[heap[i]] <= L[heap[j]])
  }

  // ----- from places in the list to symbols --------------------------------------------------------------------------

  /** A symbol has a length just if it is listed. */
  ghost predicate Coded(L: seq<int>, pos: seq<int>, S: int, elems: int, max: nat) {
    elems <= |L| && elems <= |pos| && forall y {:trigger L[y]} ::
      0 <= y < elems ==> if pos[y] > S then 1 <= L[y] <= max else L[y] == 0
  }

  lemma {:induction false} CountIsSum(L: seq<int>, pos: seq<int>, S: int, elems: int, max: nat, b: nat, n: nat)
    requires Coded(L, pos, S, elems, max) && n <= elems && 1 <= b <= max && forall y {:trigger pos[y]} :: 0 <= y < n ==>
      pos[y] < HEAP_SIZE
    ensures Count(L[..n], b) == DoneSum(Only(b, max), L, pos, S, 0, n, HEAP_SIZE)
    decreases n
  {
    hide Count;
    if n > 0 {
      CountIsSum(L, pos, S, elems, max, b, n - 1);
      CountStep(L, n - 1, b);
      assert pos[n - 1] < HEAP_SIZE && 0 <= L[n - 1] <= max;
    }
  }

  lemma {:induction false} CountPast(L: seq<int>, max: nat, b: nat)
    requires b > max && forall y {:trigger L[y]} :: 0 <= y < |L| ==> L[y] <= max
    ensures Count(L, b) == 0
    decreases |L|
  {
    if L != [] { CountPast(L[..|L| - 1], max, b); }
  }

  lemma {:induction false} CountUnlisted(L: seq<int>, pos: seq<int>, S: int, elems: int, max: nat, b: nat, m: nat,
                                         n: nat)
    requires Coded(L, pos, S, elems, max) && m <= n <= elems && 1 <= b && forall y {:trigger pos[y]} :: m <= y < n ==>
      pos[y] <= S
    ensures Count(L[..n], b) == Count(L[..m], b)
    decreases n
  {
    hide Count;
    if m < n {
      CountStep(L, n - 1, b);
      assert pos[n - 1] <= S && L[n - 1] == 0;
      CountUnlisted(L, pos, S, elems, max, b, m, n - 1);
    }
  }

  /** Counted by symbol, the lengths are those counted by place. */
  lemma CountsBySymbol(L: seq<int>, heap: seq<int>, S: int, elems: int, N: int, pos: seq<int>, max: nat, m: nat)
    requires Listed(heap, S, elems, N, pos) && N < |L| && Coded(L, pos, S, elems, max) && max <= MAX_BITS && m <= elems
    requires forall y {:trigger pos[y]} :: m <= y < elems ==> pos[y] <= S
    ensures CountsOf(L[..m]) == LeafCounts(L, heap, S, elems, max, HEAP_SIZE)
  {
    var a, b := CountsOf(L[..m]), LeafCounts(L, heap, S, elems, max, HEAP_SIZE);
    forall y {:trigger pos[y]} | 0 <= y < elems ensures pos[y] < HEAP_SIZE { }
    forall l {:trigger a[l]} | 0 <= l <= MAX_BITS ensures a[l] == b[l] {
      if 1 <= l <= max {
        CountIsSum(L, pos, S, elems, max, l, elems);
        CountUnlisted(L, pos, S, elems, max, l, m, elems);
        SumByNumber(Only(l, max), L, heap, S, elems, N, pos, 0, elems, HEAP_SIZE);
      } else if l > max {
        forall y {:trigger L[..m][y]} | 0 <= y < m ensures L[..m][y] <= max { assert L[y] <= max; }
        CountPast(L[..m], max, l);
      }
    }
  }
}
